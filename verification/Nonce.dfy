/** The sender's RTP counters and the AEAD nonce built from them
    (internal/core/obfs.go). */
module Nonce {
  import opened Words

  /** The RTP header fields the nonce is made of. */
  datatype Header = Header(ssrc: Word32, sn: Word16, ts: Word32)

  /** [SSRC 4][SeqNum 2][00 00][Timestamp 4]. */
  function BuildNonce(h: Header): (n: seq<Byte>)
    ensures |n| == 12
  {
    Put32(h.ssrc) + Put16(h.sn) + [0, 0] + Put32(h.ts)
  }

  /** What one sender fixes at start-up: random initial values and its SSRC. */
  datatype Sender = Sender(ssrc: Word32, initSeq: Word16, initTs: Word32)

  /** Timestamp ticks consumed before packet `c`, without wrap-around. */
  function Ticks(c: nat): nat { 960 * c + c / 0x1_0000 }

  /** The header of packet `c`, with the wrap-around of uint16 and uint32. */
  function HeaderOf(s: Sender, c: Word64): Header {
    Header(
      s.ssrc,
      Low16(s.initSeq + Low16(c)),
      Low32(Low32(s.initTs + Low32(Low32(c) * 960)) + Low32(c / 0x1_0000)))
  }

  function NonceOf(s: Sender, c: Word64): seq<Byte> { BuildNonce(HeaderOf(s, c)) }

  /** Nothing of the header is lost in the nonce. */
  lemma NonceIsInjective(a: Header, b: Header)
    ensures BuildNonce(a) == BuildNonce(b) <==> a == b
  {
    var m, n := BuildNonce(a), BuildNonce(b);
    assert m[0..4] == Put32(a.ssrc) && n[0..4] == Put32(b.ssrc);
    assert m[4..6] == Put16(a.sn) && n[4..6] == Put16(b.sn);
    assert m[8..12] == Put32(a.ts) && n[8..12] == Put32(b.ts);
  }

  /** The twelve bytes, most significant first. */
  lemma NonceLayout(h: Header)
    ensures var n := BuildNonce(h);
            Number(n[..4]) == h.ssrc && Number(n[4..6]) == h.sn && n[6] == n[7] == 0 && Number(n[8..]) == h.ts
  {
    BigEndian(h.ssrc, h.sn);
    BigEndian(h.ts, h.sn);
    var n := BuildNonce(h);
    hide Put16, Put32, Number;
    assert n[..4] == Put32(h.ssrc) && n[4..6] == Put16(h.sn) && n[8..] == Put32(h.ts);
  }

  /** Packet c: the sequence number counts up by one, the timestamp by 960 and by
      one more every 65536 packets, each modulo its width. */
  lemma HeaderCounts(s: Sender, c: Word64)
    ensures HeaderOf(s, c) == Header(s.ssrc, (s.initSeq + c) % 0x1_0000,
                                     (s.initTs + 960 * c + c / 0x1_0000) % 0x1_0000_0000)
  {
    TimestampIsTicks(s, c);
    SequenceIs(s.initSeq, c);
    hide Low32;
  }

  lemma SequenceIs(a: Word16, c: nat)
    ensures Low16(a + Low16(c)) == (a + c) % 0x1_0000
  {
  }

  /** The wrapping 32-bit operations amount to one reduction at the end. */
  lemma TimestampIsTicks(s: Sender, c: Word64)
    ensures HeaderOf(s, c).ts == Low32(s.initTs + Ticks(c))
  {
    var k0 := Low32Split(c);
    var low := Low32(c) as int;
    var k1 := Low32Split(low * 960);
    var step := Low32(low * 960) as int;
    var k2 := Low32Split(s.initTs + step);
    var k3 := Low32Split(c / 0x1_0000);
    var sum := Low32(s.initTs + step) + Low32(c / 0x1_0000);
    var k4 := Low32Split(sum);
    Low32Is(s.initTs + Ticks(c), 960 * k0 + k1 + k2 + k3 + k4, Low32(sum));
  }

  lemma TicksGrow(c: nat, d: nat)
    ensures 960 * d + d / 0x1_0000 <= Ticks(c + d) - Ticks(c) <= 960 * d + d / 0x1_0000 + 1
  {
  }

  /** 960 * 65536 + 1 is odd, hence invertible modulo 2^32. */
  lemma StrideIsInvertible(m: int, j: int)
    requires 62_914_561 * m == j * 0x1_0000_0000
    ensures Low32(m) == 0
  {
    Low32Is(m, j * 4_232_052_737 - 61_992_961 * m, 0);
  }

  /** Counters m * 2^16 apart agree on the sequence number; they agree on the
      timestamp just when m is a multiple of 2^32. */
  lemma HeadersRepeat(s: Sender, c: Word64, d: Word64, m: nat)
    requires d == c + m * 0x1_0000
    ensures HeaderOf(s, c) == HeaderOf(s, d) <==> Low32(m) == 0
  {
    TimestampIsTicks(s, c);
    TimestampIsTicks(s, d);
    var t, u := s.initTs + Ticks(c), s.initTs + Ticks(d);
    assert u == t + 62_914_561 * m;
    var k := Low32Split(t);
    var l := Low32Split(u);
    var j := Low32Split(m);
    if Low32(t) == Low32(u) {
      StrideIsInvertible(m, l - k);
    }
    if Low32(m) == 0 {
      Low32Is(u, k + 62_914_561 * j, Low32(t));
    }
    SameSequenceNumber(s, c, d);
  }

  lemma SameSequenceNumber(s: Sender, c: Word64, d: Word64)
    ensures HeaderOf(s, c).sn == HeaderOf(s, d).sn <==> Low16(c) == Low16(d)
  {
    var a, b := Low16(c) as int, Low16(d) as int;
    assert Low16(s.initSeq + a) == (if s.initSeq + a < 0x1_0000 then s.initSeq + a else s.initSeq + a - 0x1_0000);
    assert Low16(s.initSeq + b) == (if s.initSeq + b < 0x1_0000 then s.initSeq + b else s.initSeq + b - 0x1_0000);
  }

  lemma ForwardPeriod(s: Sender, c: Word64, d: Word64)
    requires c <= d
    ensures NonceOf(s, c) == NonceOf(s, d) <==> (d - c) % 0x1_0000_0000_0000 == 0
  {
    NonceIsInjective(HeaderOf(s, c), HeaderOf(s, d));
    SameSequenceNumber(s, c, d);
    var m := d / 0x1_0000 - c / 0x1_0000;
    if Low16(c) == Low16(d) {
      HeadersRepeat(s, c, d, m);
      MultipleOfPeriod(d - c, m);
    } else {
      NotMultiple(d - c, m, Low16(d) - Low16(c));
    }
  }

  lemma MultipleOfPeriod(x: nat, m: nat)
    requires x == m * 0x1_0000
    ensures x % 0x1_0000_0000_0000 == 0 <==> Low32(m) == 0
  {
  }

  lemma NotMultiple(x: nat, m: int, r: int)
    requires x == m * 0x1_0000 + r && -0x1_0000 < r < 0x1_0000
    requires r != 0 || 0 < m < 0x1_0000_0000
    ensures x % 0x1_0000_0000_0000 != 0
  {
  }

  /** The nonce sequence has period exactly 2^48, whatever the initial values. */
  lemma NoncePeriod(s: Sender, c: Word64, d: Word64)
    ensures NonceOf(s, c) == NonceOf(s, d)
       <==> (if c <= d then d - c else c - d) % 0x1_0000_0000_0000 == 0
  {
    if c <= d {
      ForwardPeriod(s, c, d);
    } else {
      ForwardPeriod(s, d, c);
    }
  }

  /** Within one period every nonce is used once. */
  lemma NoncesAreFresh(s: Sender, c: Word64, d: Word64)
    requires 0 < d - c < 0x1_0000_0000_0000
    ensures NonceOf(s, c) != NonceOf(s, d)
  {
    NoncePeriod(s, c, d);
    NotMultiple(d - c, (d - c) / 0x1_0000, (d - c) % 0x1_0000);
  }
}

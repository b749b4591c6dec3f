/** The RTP-shaped packet: wrapping and unwrapping (internal/core/obfs.go). */
module Packet {
  import opened Wrappers
  import opened Words
  import opened Nonce
  import opened ReplayWindow

  const KEY_LEN: nat := 32
  const OVERHEAD: nat := 16     // the AEAD tag
  const HEADER_LEN: nat := 12   // plain RTP header
  const EXTENDED_LEN: nat := 24 // with a one-byte-header extension (RFC 8285)

  type Bytes = seq<Byte>

  /** An authenticated cipher: arguments are key, nonce, text, associated data. */
  datatype Aead = Aead(seal: (Bytes, Bytes, Bytes, Bytes) -> Bytes,
                       unseal: (Bytes, Bytes, Bytes, Bytes) -> Option<Bytes>)
  {
    /** Opening undoes sealing and opens nothing else; the tag is 16 bytes. */
    ghost predicate Ideal() {
      && (forall k: Bytes, n: Bytes, p: Bytes, ad: Bytes {:trigger seal(k, n, p, ad)} ::
            |seal(k, n, p, ad)| == |p| + OVERHEAD && unseal(k, n, seal(k, n, p, ad), ad) == Some(p))
      && (forall k: Bytes, n: Bytes, c: Bytes, ad: Bytes {:trigger unseal(k, n, c, ad)} ::
            unseal(k, n, c, ad).Some? ==> c == seal(k, n, unseal(k, n, c, ad).value, ad))
    }
  }

  datatype Config = Config(ssrc: Word32, payloadType: Byte, paddingMax: int)

  /** OPUS-like audio or H264-like video; the SSRC is drawn at random. */
  function NewConfig(ssrc: Word32, video: bool): Config {
    if video then Config(ssrc, 96, 60) else Config(ssrc, 111, 24)
  }

  datatype WrapError = WrongKeyLength | EmptyPayload | NoRandomness | RelayFailed

  datatype UnwrapError = BadKey | TooShort | NotRtp | ShortExtension | BadPadding | NoPayload | SmallBuffer | Unauthentic

  // ----- Specification of wrapping -----

  /** V=2, P=1, X=0, CC=0; payload type; sequence number; timestamp; SSRC. */
  function RtpHeader(payloadType: Byte, h: Header): (hdr: Bytes)
    ensures |hdr| == HEADER_LEN && HeaderFrom(hdr) == h
  {
    var hdr := [0xA0, payloadType % 128] + Put16(h.sn) + Put32(h.ts) + Put32(h.ssrc);
    assert hdr[2..4] == Put16(h.sn) && hdr[4..8] == Put32(h.ts) && hdr[8..12] == Put32(h.ssrc);
    hdr
  }

  function PadDraw(cfg: Config, draw: Byte): nat {
    if cfg.paddingMax > 0 then draw % cfg.paddingMax else 0
  }

  /** The count byte overflows for one draw only, and only if it is allowed. */
  lemma PadDrawRange(cfg: Config, draw: Byte)
    ensures PadDraw(cfg, draw) <= 255
    ensures PadDraw(cfg, draw) == 255 <==> cfg.paddingMax > 255 && draw == 255
  {
    if cfg.paddingMax > 0 {
      Remainder(draw, cfg.paddingMax);
    }
  }

  function Noise(n: nat, source: nat -> Byte): (s: Bytes)
    ensures |s| == n
  {
    if n == 0 then [] else Noise(n - 1, source) + [source(n - 1)]
  }

  function Wire(aead: Aead, key: Bytes, payload: Bytes, payloadType: Byte, h: Header, pad: Bytes): Bytes {
    var hdr := RtpHeader(payloadType, h);
    hdr + aead.seal(key, BuildNonce(h), payload, hdr) + pad + [(|pad| + 1) % 256]
  }

  /** The outcome of wrapping under header `h`; `draw` and `noise` are what the
      random source yields, if it works. */
  function Wrapped(aead: Aead, key: Bytes, payload: Bytes, cfg: Config, h: Header,
                   draw: Option<Byte>, noise: Option<nat -> Byte>): Result<Bytes, WrapError>
  {
    if |key| != KEY_LEN then Err(WrongKeyLength)
    else if payload == [] then Err(EmptyPayload)
    else if cfg.paddingMax > 0 && draw.None? then Err(NoRandomness)
    else
      var n := PadDraw(cfg, if draw.Some? then draw.value else 0);
      if n > 0 && noise.None? then Err(NoRandomness)
      else Ok(Wire(aead, key, payload, cfg.payloadType, h, if n > 0 then Noise(n, noise.value) else []))
  }

  // ----- Specification of unwrapping -----

  predicate IsRtpPacket(wire: Bytes) {
    |wire| >= HEADER_LEN + 1 && wire[0] / 64 == 2 && (wire[1] % 128 == 111 || wire[1] % 128 == 96)
  }

  predicate HasPadding(first: Byte) { first / 32 % 2 == 1 }

  function HeaderLen(first: Byte): nat {
    if first / 16 % 2 == 1 then EXTENDED_LEN else HEADER_LEN
  }

  function Unwrap(aead: Aead, key: Bytes, wire: Bytes, room: nat): Result<Bytes, UnwrapError> {
    if |key| != KEY_LEN then Err(BadKey)
    else if |wire| < HEADER_LEN + 1 then Err(TooShort)
    else if wire[0] / 64 != 2 then Err(NotRtp)
    else
      var hl := HeaderLen(wire[0]);
      if |wire| < hl + 1 then Err(ShortExtension)
      else
        var padLen := if HasPadding(wire[0]) then wire[|wire| - 1] else 0;
        if HasPadding(wire[0]) && (padLen == 0 || padLen > |wire| - hl) then Err(BadPadding)
        else
          var end := |wire| - padLen;
          if end - hl <= OVERHEAD then Err(NoPayload)
          else if end - hl - OVERHEAD > room then Err(SmallBuffer)
          else
            match aead.unseal(key, BuildNonce(HeaderFrom(wire)), wire[hl..end], wire[..hl])
            case None => Err(Unauthentic)
            case Some(p) => Ok(p)
  }

  /** What a packet that unwraps to `p` looks like, byte by byte: a version-2
      header of 12 bytes, or of 24 if bit 0x10 of the first is set (one extension
      word pair, section 5.3.1 of RFC 3550); `p`, sealed under SSRC, sequence
      number, two zeros and timestamp with the header as associated data; and, if
      bit 0x20 is set, padding whose last octet counts the padding, itself
      included (section 5.1). */
  ghost predicate Frames(aead: Aead, key: Bytes, wire: Bytes, hdr: Bytes, p: Bytes, pad: Bytes) {
    && |hdr| >= 12 && hdr[0] / 64 == 2 && |hdr| == (if hdr[0] / 16 % 2 == 1 then 24 else 12)
    && p != []
    && wire == hdr + aead.seal(key, hdr[8..12] + hdr[2..4] + [0, 0] + hdr[4..8], p, hdr) + pad
    && (if hdr[0] / 32 % 2 == 1 then pad != [] && pad[|pad| - 1] == |pad| else pad == [])
  }

  /** The nonce is made of the header's own bytes. */
  lemma NonceIsHeaderBytes(hdr: Bytes)
    requires |hdr| >= 12
    ensures BuildNonce(HeaderFrom(hdr)) == hdr[8..12] + hdr[2..4] + [0, 0] + hdr[4..8]
  {
    PutGet(hdr[8..12]);
    PutGet(hdr[2..4]);
    PutGet(hdr[4..8]);
    hide Get32, Get16, Put32, Put16;
  }

  /** Unwrapping accepts exactly the well-framed packets that fit the buffer. */
  lemma UnwrapExactly(aead: Aead, key: Bytes, wire: Bytes, room: nat, p: Bytes)
    requires aead.Ideal() && |key| == KEY_LEN
    ensures Unwrap(aead, key, wire, room) == Ok(p)
       <==> |p| <= room && exists hdr, pad :: Frames(aead, key, wire, hdr, p, pad)
  {
    if Unwrap(aead, key, wire, room) == Ok(p) {
      UnwrappedIsFramed(aead, key, wire, room, p);
    }
    if |p| <= room && exists hdr, pad :: Frames(aead, key, wire, hdr, p, pad) {
      var hdr, pad :| Frames(aead, key, wire, hdr, p, pad);
      FramedIsUnwrapped(aead, key, wire, room, hdr, p, pad);
    }
  }

  lemma UnwrappedIsFramed(aead: Aead, key: Bytes, wire: Bytes, room: nat, p: Bytes)
    requires aead.Ideal() && Unwrap(aead, key, wire, room) == Ok(p)
    ensures |p| <= room && exists hdr, pad :: Frames(aead, key, wire, hdr, p, pad)
  {
    var hl := HeaderLen(wire[0]);
    var end := |wire| - (if HasPadding(wire[0]) then wire[|wire| - 1] else 0);
    var hdr, pad := wire[..hl], wire[end..];
    HeaderOfPrefix(wire, hl);
    NonceIsHeaderBytes(hdr);
    hide HeaderFrom, BuildNonce;
    assert hdr[0] == wire[0] && pad != [] ==> pad[|pad| - 1] == wire[|wire| - 1];
    assert wire[hl..end] == aead.seal(key, BuildNonce(HeaderFrom(hdr)), p, hdr);
    assert wire == hdr + wire[hl..end] + pad;
    assert Frames(aead, key, wire, hdr, p, pad);
  }

  lemma HeaderOfPrefix(wire: Bytes, hl: nat)
    requires 12 <= hl <= |wire|
    ensures HeaderFrom(wire[..hl]) == HeaderFrom(wire)
  {
    var hdr := wire[..hl];
    assert hdr[8..12] == wire[8..12] && hdr[2..4] == wire[2..4] && hdr[4..8] == wire[4..8];
  }

  lemma FramedIsUnwrapped(aead: Aead, key: Bytes, wire: Bytes, room: nat, hdr: Bytes, p: Bytes, pad: Bytes)
    requires aead.Ideal() && |key| == KEY_LEN && Frames(aead, key, wire, hdr, p, pad) && |p| <= room
    ensures Unwrap(aead, key, wire, room) == Ok(p)
  {
    NonceIsHeaderBytes(hdr);
    var ct := aead.seal(key, BuildNonce(HeaderFrom(hdr)), p, hdr);
    var hl, end := |hdr|, |hdr| + |ct|;
    assert wire[..hl] == hdr && wire[hl..end] == ct && wire[end..] == pad;
    assert wire[0] == hdr[0];
    HeaderOfPrefix(wire, hl);
  }

  /** unwrap(wrap(p)) == p for every non-empty payload and every padding draw,
      unless the padding count, itself included, is 256 and its byte reads 0. */
  lemma RoundTrip(aead: Aead, key: Bytes, payload: Bytes, payloadType: Byte, h: Header, pad: Bytes, room: nat)
    requires aead.Ideal() && |key| == KEY_LEN && payload != [] && |payload| <= room && |pad| <= 255
    ensures Unwrap(aead, key, Wire(aead, key, payload, payloadType, h, pad), room)
         == if |pad| <= 254 then Ok(payload) else Err(BadPadding)
  {
    var hdr := RtpHeader(payloadType, h);
    assert hdr[0] == 0xA0;
    NonceIsHeaderBytes(hdr);
    hide RtpHeader, BuildNonce, HeaderFrom;
    var ct := aead.seal(key, BuildNonce(h), payload, hdr);
    var tail := pad + [(|pad| + 1) % 256];
    var wire := Wire(aead, key, payload, payloadType, h, pad);
    assert wire == hdr + ct + tail;
    if |pad| <= 254 {
      FramedIsUnwrapped(aead, key, wire, room, hdr, payload, tail);
    } else {
      assert wire[|wire| - 1] == 0;
    }
  }

  /** Every draw round-trips exactly when no draw reaches 255. */
  lemma WrapRoundTrips(aead: Aead, key: Bytes, payload: Bytes, cfg: Config, h: Header,
                       draw: Byte, noise: nat -> Byte, room: nat)
    requires aead.Ideal() && |key| == KEY_LEN && payload != [] && |payload| <= room
    ensures var w := Wrapped(aead, key, payload, cfg, h, Some(draw), Some(noise));
            w.Ok? && (Unwrap(aead, key, w.value, room) == Ok(payload) <==> cfg.paddingMax <= 255 || draw < 255)
  {
    var n := PadDraw(cfg, draw);
    PadDrawRange(cfg, draw);
    RoundTrip(aead, key, payload, cfg.payloadType, h, if n > 0 then Noise(n, noise) else [], room);
  }

  /** Both built-in configurations round-trip with every draw, and their packets
      pass the receiver's filter. */
  lemma BuiltInsRoundTrip(aead: Aead, key: Bytes, payload: Bytes, ssrc: Word32, video: bool, h: Header,
                          draw: Byte, noise: nat -> Byte, room: nat)
    requires aead.Ideal() && |key| == KEY_LEN && payload != [] && |payload| <= room
    ensures var w := Wrapped(aead, key, payload, NewConfig(ssrc, video), h, Some(draw), Some(noise));
            w.Ok? && IsRtpPacket(w.value) && Unwrap(aead, key, w.value, room) == Ok(payload)
  {
    var cfg := NewConfig(ssrc, video);
    assert cfg.payloadType == 111 || cfg.payloadType == 96;
    assert cfg.paddingMax <= 255;
    var n := PadDraw(cfg, draw);
    WrapRoundTrips(aead, key, payload, cfg, h, draw, noise, room);
    WrappedLooksLikeRtp(aead, key, payload, cfg.payloadType, h, if n > 0 then Noise(n, noise) else []);
    hide Unwrap, IsRtpPacket, Wire, PadDraw, Noise, NewConfig;
  }

  /** A wrapped packet passes the receiver's first filter in both modes. */
  lemma WrappedLooksLikeRtp(aead: Aead, key: Bytes, payload: Bytes, payloadType: Byte, h: Header, pad: Bytes)
    requires aead.Ideal()
    ensures var w := Wire(aead, key, payload, payloadType, h, pad);
            && |w| == 12 + |payload| + 16 + |pad| + 1
            && HeaderFrom(w) == h
            && (IsRtpPacket(w) <==> payloadType % 128 == 111 || payloadType % 128 == 96)
  {
  }

  /** The first twelve bytes of a wrapped packet: version 2 with padding announced,
      no extension, then payload type, sequence number, timestamp and SSRC. */
  lemma WrappedBytes(aead: Aead, key: Bytes, payload: Bytes, payloadType: Byte, h: Header, pad: Bytes)
    requires aead.Ideal()
    ensures var w := Wire(aead, key, payload, payloadType, h, pad);
            && |w| >= 12 && w[0] == 0x80 + 0x20 && w[1] == payloadType % 128
            && Number(w[2..4]) == h.sn && Number(w[4..8]) == h.ts && Number(w[8..12]) == h.ssrc
  {
    var hdr, w := RtpHeader(payloadType, h), Wire(aead, key, payload, payloadType, h, pad);
    BigEndian(h.ssrc, h.sn);
    BigEndian(h.ts, h.sn);
    assert hdr == [0xA0, payloadType % 128] + Put16(h.sn) + Put32(h.ts) + Put32(h.ssrc);
    hide Put16, Put32, Number, RtpHeader;
    assert w[2..4] == hdr[2..4] == Put16(h.sn);
    assert w[4..8] == hdr[4..8] == Put32(h.ts);
    assert w[8..12] == hdr[8..12] == Put32(h.ssrc);
  }

  /** What the two modes put on the wire: payload type, and 1 to 24 or 1 to 60
      bytes of padding with its count. */
  lemma BuiltInsOnTheWire(aead: Aead, key: Bytes, payload: Bytes, ssrc: Word32, video: bool, h: Header,
                          draw: Byte, noise: nat -> Byte)
    requires aead.Ideal() && |key| == KEY_LEN && payload != []
    ensures var w := Wrapped(aead, key, payload, NewConfig(ssrc, video), h, Some(draw), Some(noise));
            && w.Ok? && NewConfig(ssrc, video).ssrc == ssrc
            && |w.value| == |payload| + 29 + draw % (if video then 60 else 24)
            && w.value[1] == if video then 96 else 111
  {
    var cfg := NewConfig(ssrc, video);
    var n := PadDraw(cfg, draw);
    var pad := if n > 0 then Noise(n, noise) else [];
    WrapSucceeds(aead, key, payload, cfg, h, draw, noise);
    assert n == draw % (if video then 60 else 24) && cfg.payloadType % 128 == if video then 96 else 111;
    hide Wrapped, Wire, Noise, PadDraw, NewConfig, IsRtpPacket, HeaderFrom;
    WrappedLooksLikeRtp(aead, key, payload, cfg.payloadType, h, pad);
    WrappedBytes(aead, key, payload, cfg.payloadType, h, pad);
  }

  lemma WrapSucceeds(aead: Aead, key: Bytes, payload: Bytes, cfg: Config, h: Header, draw: Byte, noise: nat -> Byte)
    requires |key| == KEY_LEN && payload != []
    ensures var n := PadDraw(cfg, draw);
            Wrapped(aead, key, payload, cfg, h, Some(draw), Some(noise))
            == Ok(Wire(aead, key, payload, cfg.payloadType, h, if n > 0 then Noise(n, noise) else []))
  {
  }

  // ----- Errors -----

  /** When wrapping fails, and how much padding it adds when it does not. */
  lemma WrapsExactly(aead: Aead, key: Bytes, payload: Bytes, cfg: Config, h: Header,
                     draw: Option<Byte>, noise: Option<nat -> Byte>)
    requires aead.Ideal()
    ensures var w := Wrapped(aead, key, payload, cfg, h, draw, noise);
            && (w == Err(WrongKeyLength) <==> |key| != 32)
            && (w == Err(EmptyPayload) <==> |key| == 32 && payload == [])
            && (w.Ok? <==> |key| == 32 && payload != []
                           && (cfg.paddingMax > 0 ==> draw.Some? && (draw.value % cfg.paddingMax > 0 ==> noise.Some?)))
            && (w.Ok? ==> |w.value| == |payload| + 29 + if cfg.paddingMax > 0 then draw.value % cfg.paddingMax else 0)
            && (w.Err? ==> w.error in {WrongKeyLength, EmptyPayload, NoRandomness})
  {
  }

  /** Why a packet is refused: the first of these that applies. */
  lemma UnwrapErrsExactly(aead: Aead, key: Bytes, wire: Bytes, room: nat)
    requires aead.Ideal()
    ensures var u := Unwrap(aead, key, wire, room);
            && (u == Err(BadKey) <==> |key| != 32)
            && (u == Err(TooShort) <==> |key| == 32 && |wire| < 13)
            && (u == Err(NotRtp) <==> |key| == 32 && |wire| >= 13 && wire[0] / 64 != 2)
            && (|key| == 32 && |wire| >= 13 && wire[0] / 64 == 2 ==>
                  var start, last := if wire[0] / 16 % 2 == 1 then 24 else 12, wire[|wire| - 1];
                  var pad := if wire[0] / 32 % 2 == 1 then last else 0;
                  var sealed := |wire| - start - pad;
                  && (u == Err(ShortExtension) <==> |wire| <= start)
                  && (u == Err(BadPadding) <==> |wire| > start && wire[0] / 32 % 2 == 1 && (last == 0 || sealed < 0))
                  && (u == Err(NoPayload) <==> |wire| > start && u != Err(BadPadding) && sealed <= 16)
                  && (u == Err(SmallBuffer) <==> u != Err(BadPadding) && sealed > 16 && sealed - 16 > room)
                  && (u.Ok? || u == Err(Unauthentic) <==> u != Err(BadPadding) && 16 < sealed <= room + 16))
  {
    hide HeaderFrom, BuildNonce;
  }

  // ----- The code -----

  class ObfsState {
    const initSeq: Word16
    const initTs: Word32
    var count: Word64

    constructor (initSeq: Word16, initTs: Word32)
      ensures this.initSeq == initSeq && this.initTs == initTs && count == 0
    {
      this.initSeq, this.initTs, count := initSeq, initTs, 0;
    }
  }

  method PutAt(out: array<Byte>, at: nat, s: Bytes)
    requires at + |s| <= out.Length
    modifies out
    ensures out[..] == old(out[..at]) + s + old(out[at + |s|..])
  {
    forall i | 0 <= i < |s| {
      out[at + i] := s[i];
    }
  }

  method WrapPacket(aead: Aead, key: Bytes, payload: Bytes, cfg: Config, state: ObfsState,
                    draw: Option<Byte>, noise: Option<nat -> Byte>) returns (r: Result<Bytes, WrapError>)
    requires aead.Ideal()
    modifies state`count
    ensures |key| != KEY_LEN || payload == [] ==> state.count == old(state.count)
    ensures |key| == KEY_LEN && payload != [] ==> state.count == Low64(old(state.count) + 1)
    ensures r == Wrapped(aead, key, payload, cfg,
                         HeaderOf(Sender(cfg.ssrc, state.initSeq, state.initTs), old(state.count)), draw, noise)
  {
    if |key| != KEY_LEN {
      return Err(WrongKeyLength);
    }
    if |payload| == 0 {
      return Err(EmptyPayload);
    }
    var c := state.count;
    state.count := Low64(state.count + 1);
    r := Fill(aead, key, payload, cfg, HeaderOf(Sender(cfg.ssrc, state.initSeq, state.initTs), c), draw, noise);
  }

  method Fill(aead: Aead, key: Bytes, payload: Bytes, cfg: Config, h: Header,
              draw: Option<Byte>, noise: Option<nat -> Byte>) returns (r: Result<Bytes, WrapError>)
    requires aead.Ideal() && |key| == KEY_LEN && payload != []
    ensures r == Wrapped(aead, key, payload, cfg, h, draw, noise)
  {
    hide RtpHeader, BuildNonce, Noise, Wire;
    var padRand := 0;
    if cfg.paddingMax > 0 {
      if draw.None? {
        return Err(NoRandomness);
      }
      padRand := draw.value % cfg.paddingMax;
    }
    if padRand > 0 && noise.None? {
      return Err(NoRandomness);
    }
    var wire := Assemble(aead, key, payload, cfg.payloadType, h, if padRand > 0 then Noise(padRand, noise.value) else []);
    return Ok(wire);
  }

  /** The output buffer, filled in place from front to back. */
  method Assemble(aead: Aead, key: Bytes, payload: Bytes, payloadType: Byte, h: Header, pad: Bytes)
    returns (wire: Bytes)
    requires aead.Ideal()
    ensures wire == Wire(aead, key, payload, payloadType, h, pad)
  {
    hide RtpHeader, BuildNonce;
    var outLen := HEADER_LEN + |payload| + OVERHEAD + |pad| + 1;
    var out := new Byte[outLen];
    PutAt(out, 0, RtpHeader(payloadType, h));
    assert out[..HEADER_LEN] == RtpHeader(payloadType, h);
    var sealed := aead.seal(key, BuildNonce(h), payload, out[..HEADER_LEN]);
    PutAt(out, HEADER_LEN, sealed);
    PutAt(out, HEADER_LEN + |sealed|, pad);
    assert out[..outLen - 1] == RtpHeader(payloadType, h) + sealed + pad;
    out[outLen - 1] := (|pad| + 1) % 256;
    assert out[..] == out[..outLen - 1] + [(|pad| + 1) % 256];
    return out[..];
  }

  method UnwrapPacket(aead: Aead, key: Bytes, wire: Bytes, dst: array<Byte>) returns (r: Result<nat, UnwrapError>)
    requires aead.Ideal()
    modifies dst
    ensures var u := Unwrap(aead, key, wire, dst.Length);
            match r
            case Err(e) => u == Err(e)
            case Ok(n) => n <= dst.Length && u == Ok(dst[..n]) && dst[n..] == old(dst[n..])
  {
    hide HeaderFrom, BuildNonce;
    if |key| != KEY_LEN {
      return Err(BadKey);
    }
    if |wire| < HEADER_LEN + 1 {
      return Err(TooShort);
    }
    if wire[0] / 64 != 2 {
      return Err(NotRtp);
    }
    var headerLen := HEADER_LEN;
    if wire[0] / 16 % 2 == 1 {
      headerLen := EXTENDED_LEN;
    }
    if |wire| < headerLen + 1 {
      return Err(ShortExtension);
    }
    var payloadEnd := |wire|;
    if wire[0] / 32 % 2 == 1 {
      var padLen := wire[|wire| - 1];
      if padLen == 0 || padLen > payloadEnd - headerLen {
        return Err(BadPadding);
      }
      payloadEnd := payloadEnd - padLen;
    }
    var ciphertextLen := payloadEnd - headerLen;
    if ciphertextLen <= OVERHEAD {
      return Err(NoPayload);
    }
    if ciphertextLen - OVERHEAD > dst.Length {
      return Err(SmallBuffer);
    }
    var plain := aead.unseal(key, BuildNonce(HeaderFrom(wire)), wire[headerLen..payloadEnd], wire[..headerLen]);
    if plain.None? {
      return Err(Unauthentic);
    }
    PutAt(dst, 0, plain.value);
    assert dst[..|plain.value|] == plain.value;
    return Ok(|plain.value|);
  }
}

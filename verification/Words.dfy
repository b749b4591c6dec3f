/** Fixed-width unsigned words and big-endian bytes, written over unbounded
    integers so that every truncation the Go code performs is visible. */
module Words {
  type Byte = x: int | 0 <= x < 0x100
  type Word16 = x: int | 0 <= x < 0x1_0000
  type Word32 = x: int | 0 <= x < 0x1_0000_0000
  type Word64 = x: int | 0 <= x < 0x1_0000_0000_0000_0000

  /** Truncation of an exact value to a width: what every Go operator does. */
  function Low16(x: int): Word16 { x % 0x1_0000 }
  function Low32(x: int): Word32 { x % 0x1_0000_0000 }
  function Low64(x: int): Word64 { x % 0x1_0000_0000_0000_0000 }

  /** A residue is known by its range and its class. */
  lemma Low32Is(x: int, k: int, r: int)
    requires x == k * 0x1_0000_0000 + r && 0 <= r < 0x1_0000_0000
    ensures Low32(x) == r
  {
  }

  lemma Low32Split(x: int) returns (k: int)
    ensures x == k * 0x1_0000_0000 + Low32(x)
  {
    k := x / 0x1_0000_0000;
  }

  lemma Remainder(x: nat, m: nat)
    requires m > 0
    ensures 0 <= x % m < m && x % m <= x
    ensures x < m ==> x % m == x
  {
  }

  function Put16(x: Word16): (s: seq<Byte>)
    ensures |s| == 2 && Get16(s) == x
  {
    [x / 256, x % 256]
  }

  function Get16(s: seq<Byte>): Word16
    requires |s| == 2
  {
    s[0] as int * 256 + s[1] as int
  }

  function Put32(x: Word32): (s: seq<Byte>)
    ensures |s| == 4 && Get32(s) == x
  {
    var s := Put16(x / 0x1_0000) + Put16(x % 0x1_0000);
    assert s[..2] == Put16(x / 0x1_0000) && s[2..] == Put16(x % 0x1_0000);
    s
  }

  function Get32(s: seq<Byte>): Word32
    requires |s| == 4
  {
    Get16(s[..2]) as int * 0x1_0000 + Get16(s[2..]) as int
  }

  /** The number that bytes spell, most significant first. */
  function Number(s: seq<Byte>): nat {
    if s == [] then 0 else Number(s[..|s| - 1]) * 256 + s[|s| - 1] as int
  }

  lemma NumberOfTwo(s: seq<Byte>)
    requires |s| == 2
    ensures Number(s) == Get16(s)
  {
    assert Number(s[..1]) == Number([]) * 256 + s[0];
  }

  lemma {:induction false} NumberAppends(s: seq<Byte>, t: seq<Byte>)
    requires |t| == 2
    ensures Number(s + t) == Number(s) * 0x1_0000 + Number(t)
  {
    var all := s + t;
    assert all[..|all| - 1] == s + [t[0]] && (s + [t[0]])[..|s|] == s;
    NumberOfTwo(t);
    assert Number(s + [t[0]]) == Number(s) * 256 + t[0];
  }

  lemma BigEndian(x: Word32, y: Word16)
    ensures Number(Put32(x)) == x && Number(Put16(y)) == y
  {
    var high, low := Put16(x / 0x1_0000), Put16(x % 0x1_0000);
    NumberOfTwo(Put16(y));
    NumberOfTwo(high);
    NumberOfTwo(low);
    NumberAppends(high, low);
  }

  /** Writing undoes reading. */
  lemma PutGet(s: seq<Byte>)
    ensures |s| == 2 ==> Put16(Get16(s)) == s
    ensures |s| == 4 ==> Put32(Get32(s)) == s
  {
    if |s| == 4 {
      var high, low := Get16(s[..2]), Get16(s[2..]);
      assert Get32(s) / 0x1_0000 == high && Get32(s) % 0x1_0000 == low;
      assert Put16(high) == s[..2] && Put16(low) == s[2..];
    }
  }
}

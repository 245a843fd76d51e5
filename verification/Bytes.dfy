// Bytes, C and Go strings, and the two fixed-width integer layouts the server writes by hand:
// little-endian (encoding/binary and the in-memory structs of an LP64 machine) and
// big-endian (the XDR wire).
module Bytes {

  type Byte = b: int | 0 <= b < 256

  // The contents of a Go string, or of a C string without its terminating NUL.
  type Str = seq<Byte>

  datatype Option<+T> = None | Some(value: T)

  // An unsigned 64-bit number taken for a signed one.
  function ToInt64(n: nat): int
    requires n < 0x1_0000_0000_0000_0000
  {
    if n < 0x8000_0000_0000_0000 then n else n - 0x1_0000_0000_0000_0000
  }

  predicate NulFree(s: Str) {
    0 !in s
  }

  // What strlen and %s see of a char array: everything before the first NUL.
  function CString(s: Str): (r: Str)
    ensures NulFree(r) && r <= s
    ensures NulFree(s) ==> r == s
  {
    if s == [] || s[0] == 0 then [] else [s[0]] + CString(s[1..])
  }

  lemma {:induction false} CStringStopsAtNul(s: Str, tail: Str)
    requires NulFree(s)
    ensures CString(s + [0] + tail) == s
  {
    if s == [] {
      assert ([] + [0] + tail)[0] == 0;
    } else {
      CStringStopsAtNul(s[1..], tail);
      assert (s + [0] + tail)[1..] == s[1..] + [0] + tail;
    }
  }

  function Pow256(n: nat): (p: nat)
    ensures p > 0
  {
    if n == 0 then 1 else 256 * Pow256(n - 1)
  }

  lemma {:induction false} Powers()
    ensures Pow256(4) == 0x1_0000_0000
    ensures Pow256(8) == 0x1_0000_0000_0000_0000
  {
    assert Pow256(1) == 256;
    assert Pow256(2) == 0x1_0000;
    assert Pow256(4) == 0x1_0000_0000;
    assert Pow256(6) == 0x1_0000_0000_0000;
  }

  function LittleEndian(v: nat, n: nat): (bs: seq<Byte>)
    ensures |bs| == n
  {
    if n == 0 then [] else [v % 256] + LittleEndian(v / 256, n - 1)
  }

  function FromLittleEndian(bs: seq<Byte>): (v: nat)
    ensures v < Pow256(|bs|)
  {
    if bs == [] then 0 else bs[0] + 256 * FromLittleEndian(bs[1..])
  }

  lemma {:induction false} LittleEndianRoundTrip(v: nat, n: nat)
    requires v < Pow256(n)
    ensures FromLittleEndian(LittleEndian(v, n)) == v
  {
    if n != 0 {
      LittleEndianRoundTrip(v / 256, n - 1);
      assert LittleEndian(v, n)[1..] == LittleEndian(v / 256, n - 1);
    }
  }

  lemma {:induction false} LittleEndianBack(bs: seq<Byte>)
    ensures LittleEndian(FromLittleEndian(bs), |bs|) == bs
  {
    if bs != [] {
      var low, high := bs[0], FromLittleEndian(bs[1..]);
      LittleEndianBack(bs[1..]);
      LowByte(low, high);
      assert LittleEndian(low + 256 * high, |bs|) == [low] + LittleEndian(high, |bs| - 1) by { hide FromLittleEndian; }
      hide LittleEndian;
      assert [bs[0]] + bs[1..] == bs;
    }
  }

  lemma {:induction false} LowByte(low: Byte, high: nat)
    ensures (low + 256 * high) % 256 == low && (low + 256 * high) / 256 == high
  {
  }

  // The eight bytes of a 64-bit number, lowest first.
  lemma {:induction false} LittleEndianBytes(v: nat)
    ensures LittleEndian(v, 8) ==
            [v % 0x100, v / 0x100 % 0x100, v / 0x1_0000 % 0x100, v / 0x100_0000 % 0x100,
             v / 0x1_0000_0000 % 0x100, v / 0x100_0000_0000 % 0x100,
             v / 0x1_0000_0000_0000 % 0x100, v / 0x100_0000_0000_0000 % 0x100]
  {
    hide LittleEndian;
    FourLowest(v, 4);
    var high := v / 0x1_0000_0000;
    FourLowest(high, 0);
    assert high / 0x100 == v / 0x100_0000_0000;
    assert high / 0x1_0000 == v / 0x1_0000_0000_0000;
    assert high / 0x100_0000 == v / 0x100_0000_0000_0000;
    assert LittleEndian(high / 0x1_0000_0000, 0) == [];
  }

  lemma {:induction false} FourLowest(v: nat, more: nat)
    ensures LittleEndian(v, 4 + more) ==
            [v % 0x100, v / 0x100 % 0x100, v / 0x1_0000 % 0x100, v / 0x100_0000 % 0x100]
              + LittleEndian(v / 0x1_0000_0000, more)
  {
    hide LittleEndian;
    Quotients(v);
    LowestByte(v, 3 + more);
    LowestByte(v / 0x100, 2 + more);
    LowestByte(v / 0x1_0000, 1 + more);
    LowestByte(v / 0x100_0000, more);
    FourThen(v % 0x100, v / 0x100 % 0x100, v / 0x1_0000 % 0x100, v / 0x100_0000 % 0x100,
             LittleEndian(v / 0x1_0000_0000, more));
  }

  lemma {:induction false} FourThen(a: Byte, b: Byte, c: Byte, d: Byte, rest: seq<Byte>)
    ensures [a] + ([b] + ([c] + ([d] + rest))) == [a, b, c, d] + rest
  {
  }

  lemma {:induction false} LowestByte(v: nat, more: nat)
    ensures LittleEndian(v, 1 + more) == [v % 0x100] + LittleEndian(v / 0x100, more)
  {
  }

  lemma {:induction false} Quotients(v: nat)
    ensures v / 0x100 / 0x100 == v / 0x1_0000 && v / 0x1_0000 / 0x100 == v / 0x100_0000
    ensures v / 0x100_0000 / 0x100 == v / 0x1_0000_0000
  {
  }

  function BigEndian(v: nat, n: nat): (bs: seq<Byte>)
    ensures |bs| == n
  {
    if n == 0 then [] else BigEndian(v / 256, n - 1) + [v % 256]
  }

  function FromBigEndian(bs: seq<Byte>): (v: nat)
    ensures v < Pow256(|bs|)
  {
    if bs == [] then 0 else 256 * FromBigEndian(bs[..|bs| - 1]) + bs[|bs| - 1]
  }

  lemma {:induction false} BigEndianRoundTrip(v: nat, n: nat)
    requires v < Pow256(n)
    ensures FromBigEndian(BigEndian(v, n)) == v
  {
    if n != 0 {
      BigEndianRoundTrip(v / 256, n - 1);
      assert BigEndian(v, n)[..n - 1] == BigEndian(v / 256, n - 1);
    }
  }

  // The bytes s with the run at position `at` replaced by bs: a store into a buffer.
  function Splice(s: seq<Byte>, at: nat, bs: seq<Byte>): (r: seq<Byte>)
    requires at + |bs| <= |s|
    ensures |r| == |s|
    ensures r[at..at + |bs|] == bs
    ensures forall i :: 0 <= i < |s| && !(at <= i < at + |bs|) ==> r[i] == s[i]
  {
    s[..at] + bs + s[at + |bs|..]
  }

  // A load that does not touch the stored range sees what was there before.
  lemma {:induction false} SpliceElsewhere(s: seq<Byte>, at: nat, bs: seq<Byte>, lo: nat, hi: nat)
    requires at + |bs| <= |s| && lo <= hi <= |s|
    requires hi <= at || at + |bs| <= lo
    ensures Splice(s, at, bs)[lo..hi] == s[lo..hi]
  {
  }
}

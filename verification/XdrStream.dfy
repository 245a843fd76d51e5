// The XDR stream object the codec functions advance. Encoding appends to the bytes; decoding
// moves a position through them. Both refine the pure codec of Xdr.
module XdrStreams {
  import opened Bytes
  import opened Xdr

  // One more value of this type at the end.
  ghost predicate Appended(was: seq<Byte>, now: seq<Byte>, ty: Ty, v: Val) {
    Typed(ty, v) && now == was + Encode(ty, v)
  }

  class XdrStream {
    var data: seq<Byte>
    var pos: nat

    ghost predicate Valid()
      reads this
    {
      pos <= |data|
    }

    ghost function Remaining(): seq<Byte>
      reads this
      requires Valid()
    {
      data[pos..]
    }

    constructor (bytes: seq<Byte>)
      ensures Valid() && data == bytes && pos == 0
    {
      data, pos := bytes, 0;
    }

    // ---------------------------------------------------------------- primitives

    method PutRaw(bs: seq<Byte>)
      modifies this`data
      ensures data == old(data) + bs
    {
      data := data + bs;
    }

    method GetRaw(n: nat) returns (bs: Option<seq<Byte>>)
      requires Valid()
      modifies this`pos
      ensures Valid() && pos >= old(pos)
      ensures if |old(Remaining())| < n then bs == None && pos == old(pos)
              else bs == Some(old(Remaining())[..n]) && Remaining() == old(Remaining())[n..]
    {
      if |data| - pos < n {
        return None;
      }
      ghost var before := Remaining();
      bs := Some(data[pos..pos + n]);
      assert bs.value == before[..n] && data[pos + n..] == before[n..];
      pos := pos + n;
    }

    // xdr_uint64 on the way out: eight shifts into a buffer.
    method PutUint64(n: int)
      requires Fits(Uint64, n)
      modifies this`data
      ensures data == old(data) + EncodeNumber(Uint64, n)
      ensures data == old(data) +
                      [n / 0x100_0000_0000_0000 % 0x100, n / 0x1_0000_0000_0000 % 0x100,
                       n / 0x100_0000_0000 % 0x100, n / 0x1_0000_0000 % 0x100,
                       n / 0x100_0000 % 0x100, n / 0x1_0000 % 0x100, n / 0x100 % 0x100, n % 0x100]
    {
      var buf := new Byte[8];
      buf[0] := n / 0x100_0000_0000_0000 % 0x100;
      buf[1] := n / 0x1_0000_0000_0000 % 0x100;
      buf[2] := n / 0x100_0000_0000 % 0x100;
      buf[3] := n / 0x1_0000_0000 % 0x100;
      buf[4] := n / 0x100_0000 % 0x100;
      buf[5] := n / 0x1_0000 % 0x100;
      buf[6] := n / 0x100 % 0x100;
      buf[7] := n % 0x100;
      EightBytes(n);
      PutRaw(buf[..]);
    }

    // xdr_uint64 on the way in: two 32-bit halves, each from network order.
    method GetUint64() returns (r: Option<int>)
      requires Valid()
      modifies this`pos
      ensures Valid() && pos >= old(pos)
      ensures match DecodeNumber(Uint64, old(Remaining()))
              case None => r == None
              case Some((n, rest)) => r == Some(n) && Remaining() == rest
    {
      var buf := GetRaw(8);
      if buf == None {
        return None;
      }
      var top, bottom := FromBigEndian(buf.value[..4]), FromBigEndian(buf.value[4..]);
      TwoHalves(buf.value);
      return Some(top * 0x1_0000_0000 + bottom);
    }

    method PutNumber(k: Scalar, n: int)
      requires Fits(k, n)
      modifies this`data
      ensures data == old(data) + EncodeNumber(k, n)
      ensures k != Uint64 ==>
                var w := if n < 0 then n + 0x1_0000_0000 else n;
                data == old(data) + [w / 0x100_0000, w / 0x1_0000 % 0x100, w / 0x100 % 0x100, w % 0x100]
    {
      hide BigEndian;
      if k != Uint64 { WordBytes(if n < 0 then n + 0x1_0000_0000 else n); }
      match k
      case Uint64 => PutUint64(n);
      case Enum => PutRaw(BigEndian(if n < 0 then n + 0x1_0000_0000 else n, 4));
      case _ => PutRaw(BigEndian(n, 4));
    }

    method GetNumber(k: Scalar) returns (r: Option<int>)
      requires Valid()
      modifies this`pos
      ensures Valid() && pos >= old(pos)
      ensures match DecodeNumber(k, old(Remaining()))
              case None => r == None
              case Some((n, rest)) => r == Some(n) && Remaining() == rest
    {
      Powers();
      if k == Uint64 {
        r := GetUint64();
        return;
      }
      var word := GetRaw(4);
      if word == None {
        return None;
      }
      var n: int := FromBigEndian(word.value);
      match k
      case Enum => return Some(if n < 0x8000_0000 then n else n - 0x1_0000_0000);
      case Bool => return Some(if n == 0 then 0 else 1);
      case _ => return Some(n);
    }

    // ---------------------------------------------------------------- encoding

    // What a codec function does with x_op == XDR_ENCODE: TRUE exactly for a value of the type,
    // and then its encoding has been appended.
    method Put(ty: Ty, v: Val) returns (ok: bool)
      modifies this`data
      ensures ok <==> Typed(ty, v)
      ensures ok ==> data == old(data) + Encode(ty, v)
      decreases ty, 0, 0
    {
      match ty
      case Void =>
        return v == Unit;
      case Number(k) =>
        if !v.Num? || !Fits(k, v.n) { return false; }
        PutNumber(k, v.n);
        return true;
      case Fixed(size) =>
        if !v.Str? || |v.s| != size { return false; }
        PutRaw(Padded(v.s));
        return true;
      case Opaque(max) =>
        if !v.Str? { return false; }
        ok := PutCounted(v.s, max);
        return;
      case Text(max) =>
        if !v.Str? || 0 in v.s { return false; }
        ok := PutCounted(v.s, max);
        return;
      case Pair(a, b) =>
        if !v.Both? { return false; }
        ok := Put(a, v.fst);
        if !ok { return; }
        ok := Put(b, v.snd);
        AssociativeIf(ok, old(data), ty, v);
        return;
      case Union(k, arms) =>
        if !v.Choice? || !Fits(k, v.tag) { return false; }
        PutNumber(k, v.tag);
        ok := PutArm(arms, v.tag, v.arm);
        AssociativeIf(ok, old(data), ty, v);
        return;
      case List(e) =>
        if !v.Items? { return false; }
        ok := PutList(e, v.vs);
        return;
      case Array(e) =>
        if !v.Items? || |v.vs| > NO_LIMIT { return false; }
        PutRaw(BigEndian(|v.vs|, 4));
        ok := PutAll(e, v.vs);
        AssociativeIf(ok, old(data), ty, v);
        return;
    }

    method PutCounted(s: seq<Byte>, max: Word) returns (ok: bool)
      modifies this`data
      ensures ok <==> |s| <= max
      ensures ok ==> data == old(data) + (BigEndian(|s|, 4) + Padded(s))
    {
      if |s| > max { return false; }
      PutRaw(BigEndian(|s|, 4));
      PutRaw(Padded(s));
      AppendAssociative(old(data), BigEndian(|s|, 4), Padded(s));
      return true;
    }

    method PutArm(arms: Arms, tag: int, v: Val) returns (ok: bool)
      modifies this`data
      ensures ok <==> ArmTyped(arms, tag, v)
      ensures ok ==> data == old(data) + EncodeArm(arms, tag, v)
      decreases arms, 0, 0
    {
      match arms
      case Default(ty) => ok := Put(ty, v);
      case Reject => return false;
      case Case(t, ty, rest) =>
        if tag == t { ok := Put(ty, v); } else { ok := PutArm(rest, tag, v); }
    }

    method PutList(e: Ty, vs: seq<Val>) returns (ok: bool)
      modifies this`data
      ensures ok <==> AllTyped(e, vs)
      ensures ok ==> data == old(data) + EncodeList(e, vs)
      decreases e, 1, |vs|
    {
      if vs == [] {
        PutNumber(Bool, 0);
        return true;
      }
      PutNumber(Bool, 1);
      ok := Put(e, vs[0]);
      if !ok { return; }
      ok := PutList(e, vs[1..]);
      if ok {
        AppendAssociative(old(data), BigEndian(1, 4), Encode(e, vs[0]));
        AppendAssociative(old(data), BigEndian(1, 4) + Encode(e, vs[0]), EncodeList(e, vs[1..]));
      }
    }

    method PutAll(e: Ty, vs: seq<Val>) returns (ok: bool)
      modifies this`data
      ensures ok <==> AllTyped(e, vs)
      ensures ok ==> data == old(data) + EncodeAll(e, vs)
      decreases e, 1, |vs|
    {
      if vs == [] { return true; }
      ok := Put(e, vs[0]);
      if !ok { return; }
      ok := PutAll(e, vs[1..]);
      if ok { AppendAssociative(old(data), Encode(e, vs[0]), EncodeAll(e, vs[1..])); }
    }

    // ---------------------------------------------------------------- decoding

    method Get(ty: Ty) returns (r: Option<Val>)
      requires Valid()
      modifies this`pos
      ensures Valid() && pos >= old(pos)
      ensures match Decode(ty, old(Remaining()))
              case None => r == None
              case Some((v, rest)) => r == Some(v) && Remaining() == rest
      decreases ty, 0, 0
    {
      match ty
      case Void => return Some(Unit);
      case Number(k) =>
        var n := GetNumber(k);
        return if n == None then None else Some(Num(n.value));
      case Fixed(size) =>
        var s := GetPadded(size);
        return if s == None then None else Some(Str(s.value));
      case Opaque(max) =>
        var s := GetCounted(max);
        return if s == None then None else Some(Str(s.value));
      case Text(max) =>
        var s := GetCounted(max);
        return if s == None then None else Some(Str(CString(s.value)));
      case Pair(a, b) =>
        var x := Get(a);
        if x == None { return None; }
        var y := Get(b);
        return if y == None then None else Some(Both(x.value, y.value));
      case Union(k, arms) =>
        var tag := GetNumber(k);
        if tag == None { return None; }
        var v := GetArm(arms, tag.value);
        return if v == None then None else Some(Choice(tag.value, v.value));
      case List(e) =>
        var vs := GetList(e);
        return if vs == None then None else Some(Items(vs.value));
      case Array(e) =>
        var n := GetNumber(Uint32);
        if n == None { return None; }
        var vs := GetAll(e, n.value);
        return if vs == None then None else Some(Items(vs.value));
    }

    method GetPadded(n: nat) returns (r: Option<seq<Byte>>)
      requires Valid()
      modifies this`pos
      ensures Valid() && pos >= old(pos)
      ensures match TakePadded(old(Remaining()), n)
              case None => r == None
              case Some((s, rest)) => r == Some(s) && Remaining() == rest
    {
      var pad := PadLength(n);
      TakenTwice(Remaining(), n, pad);
      hide PadLength;
      if |data| - pos < n + pad { return None; }
      r := GetRaw(n);
      var _ := GetRaw(pad);
    }

    method GetCounted(max: Word) returns (r: Option<seq<Byte>>)
      requires Valid()
      modifies this`pos
      ensures Valid() && pos >= old(pos)
      ensures match Decode(Opaque(max), old(Remaining()))
              case None => r == None
              case Some((v, rest)) => v.Str? && r == Some(v.s) && Remaining() == rest
    {
      Powers();
      var n := GetNumber(Uint32);
      if n == None || n.value > max { return None; }
      r := GetPadded(n.value);
    }

    method GetArm(arms: Arms, tag: int) returns (r: Option<Val>)
      requires Valid()
      modifies this`pos
      ensures Valid() && pos >= old(pos)
      ensures match DecodeArm(arms, tag, old(Remaining()))
              case None => r == None
              case Some((v, rest)) => r == Some(v) && Remaining() == rest
      decreases arms, 0, 0
    {
      match arms
      case Default(ty) => r := Get(ty);
      case Reject => return None;
      case Case(t, ty, rest) =>
        if tag == t { r := Get(ty); } else { r := GetArm(rest, tag); }
    }

    method GetList(e: Ty) returns (r: Option<seq<Val>>)
      requires Valid()
      modifies this`pos
      ensures Valid() && pos >= old(pos)
      ensures match DecodeList(e, old(Remaining()))
              case None => r == None
              case Some((vs, rest)) => r == Some(vs) && Remaining() == rest
      decreases e, 1, |data| - pos
    {
      hide Decode, Typed, AllTyped;
      var follows := GetNumber(Bool);
      if follows == None { return None; }
      if follows.value == 0 { return Some([]); }
      var v := Get(e);
      if v == None { return None; }
      var vs := GetList(e);
      return if vs == None then None else Some([v.value] + vs.value);
    }

    method GetAll(e: Ty, n: nat) returns (r: Option<seq<Val>>)
      requires Valid()
      modifies this`pos
      ensures Valid() && pos >= old(pos)
      ensures match DecodeAll(e, n, old(Remaining()))
              case None => r == None
              case Some((vs, rest)) => r == Some(vs) && Remaining() == rest
      decreases e, 1, n
    {
      hide Decode, Typed, AllTyped;
      if n == 0 { return Some([]); }
      var v := Get(e);
      if v == None { return None; }
      var vs := GetAll(e, n - 1);
      return if vs == None then None else Some([v.value] + vs.value);
    }
  }

  // The two appends of a composite are one append of its encoding.
  lemma {:induction false} AssociativeIf(ok: bool, before: seq<Byte>, ty: Ty, v: Val)
    requires ty.Pair? || ty.Union? || ty.Array?
    requires ok ==> Typed(ty, v)
    ensures ok ==>
              match ty
              case Pair(a, b) => before + Encode(a, v.fst) + Encode(b, v.snd) == before + Encode(ty, v)
              case Union(k, arms) =>
                before + EncodeNumber(k, v.tag) + EncodeArm(arms, v.tag, v.arm) == before + Encode(ty, v)
              case Array(e) => before + BigEndian(|v.vs|, 4) + EncodeAll(e, v.vs) == before + Encode(ty, v)
  {
    if ok {
      match ty
      case Pair(a, b) => AppendAssociative(before, Encode(a, v.fst), Encode(b, v.snd));
      case Union(k, arms) => AppendAssociative(before, EncodeNumber(k, v.tag), EncodeArm(arms, v.tag, v.arm));
      case Array(e) => AppendAssociative(before, BigEndian(|v.vs|, 4), EncodeAll(e, v.vs));
    }
  }

  // The two 32-bit words of a 64-bit number, high word first.
  lemma {:induction false} TwoWords(n: nat)
    ensures BigEndian(n, 8) == BigEndian(n / 0x1_0000_0000, 4) + BigEndian(n, 4)
  {
    var a := n / 256;
    var b := a / 256;
    var c := b / 256;
    var d := c / 256;
    assert d == n / 0x1_0000_0000;
    var low := [c % 256, b % 256, a % 256, n % 256];
    assert BigEndian(n, 4) == low by {
      assert BigEndian(c, 1) == [c % 256];
      assert BigEndian(b, 2) == [c % 256, b % 256];
    }
    assert BigEndian(n, 8) == BigEndian(d, 4) + low by {
      assert BigEndian(b, 6) == BigEndian(d, 4) + [c % 256] + [b % 256];
    }
  }

  lemma {:induction false} FourBytes(n: nat)
    ensures BigEndian(n, 4) == [n / 0x100_0000 % 0x100, n / 0x1_0000 % 0x100, n / 0x100 % 0x100, n % 0x100]
  {
    assert BigEndian(n, 4) == BigEndian(n / 0x100, 3) + [n % 0x100];
    assert BigEndian(n / 0x100, 3) == BigEndian(n / 0x1_0000, 2) + [n / 0x100 % 0x100];
    assert BigEndian(n / 0x1_0000, 2) == BigEndian(n / 0x100_0000, 1) + [n / 0x1_0000 % 0x100];
    assert BigEndian(n / 0x100_0000, 1) == [n / 0x100_0000 % 0x100];
  }

  lemma {:induction false} TakenTwice(s: seq<Byte>, n: nat, pad: nat)
    requires pad == PadLength(n)
    ensures TakePadded(s, n) == if |s| < n + pad then None else Some((s[..n], s[n..][pad..]))
  {
    hide PadLength;
    if n + pad <= |s| { assert s[n..][pad..] == s[n + pad..]; }
  }

  // A word is also the length of a string or the number of elements of an array.
  lemma {:induction false} WordBytes(n: nat)
    requires n < 0x1_0000_0000
    ensures BigEndian(n, 4) == [n / 0x100_0000, n / 0x1_0000 % 0x100, n / 0x100 % 0x100, n % 0x100]
  {
    FourBytes(n);
  }

  lemma {:induction false} EightBytes(n: nat)
    ensures BigEndian(n, 8) ==
            [n / 0x100_0000_0000_0000 % 0x100, n / 0x1_0000_0000_0000 % 0x100,
             n / 0x100_0000_0000 % 0x100, n / 0x1_0000_0000 % 0x100,
             n / 0x100_0000 % 0x100, n / 0x1_0000 % 0x100, n / 0x100 % 0x100, n % 0x100]
  {
    var high := n / 0x1_0000_0000;
    assert high / 0x100 == n / 0x100_0000_0000;
    assert high / 0x1_0000 == n / 0x1_0000_0000_0000;
    assert high / 0x100_0000 == n / 0x100_0000_0000_0000;
    TwoWords(n);
    FourBytes(n);
    FourBytes(high);
  }

  lemma {:induction false} FromBigEndianConcat(a: seq<Byte>, b: seq<Byte>)
    ensures FromBigEndian(a + b) == FromBigEndian(a) * Pow256(|b|) + FromBigEndian(b)
  {
    if b == [] {
      assert a + [] == a;
    } else {
      var front, last := b[..|b| - 1], b[|b| - 1];
      FromBigEndianConcat(a, front);
      LastByte(a, front, last);
      assert front + [last] == b;
      Scale(FromBigEndian(a), Pow256(|front|), FromBigEndian(front), last);
    }
  }

  lemma {:induction false} LastByte(a: seq<Byte>, front: seq<Byte>, last: Byte)
    ensures FromBigEndian(a + (front + [last])) == 256 * FromBigEndian(a + front) + last
  {
    var s := a + (front + [last]);
    assert s[..|s| - 1] == a + front && s[|s| - 1] == last;
  }

  lemma {:induction false} Scale(x: nat, p: nat, y: nat, last: nat)
    ensures 256 * (x * p + y) + last == x * (256 * p) + (256 * y + last)
  {
    assert 256 * (x * p) == x * (256 * p);
  }

  lemma {:induction false} TwoHalves(bs: seq<Byte>)
    requires |bs| == 8
    ensures FromBigEndian(bs) == FromBigEndian(bs[..4]) * 0x1_0000_0000 + FromBigEndian(bs[4..])
  {
    assert bs == bs[..4] + bs[4..];
    FromBigEndianConcat(bs[..4], bs[4..]);
    Powers();
  }
}

// External Data Representation (RFC 4506) as the generated codec uses it. The C functions of
// xdr.c only put the primitives together, one after the other, by discriminant or by following a
// pointer; Ty describes such a composition and Val is the value it carries.
module Xdr {
  import opened Bytes

  type Word = n: int | 0 <= n < 0x1_0000_0000

  const NO_LIMIT: Word := 0xFFFF_FFFF

  datatype Scalar = Uint32 | Uint64 | Enum | Bool

  datatype Ty =
    | Void
    | Number(kind: Scalar)
    | Fixed(size: nat)               // xdr_opaque
    | Opaque(max: Word)              // xdr_bytes
    | Text(max: Word)                // xdr_string
    | Pair(first: Ty, second: Ty)    // one member after the other
    | Union(disc: Scalar, arms: Arms)
    | List(elem: Ty)                 // xdr_pointer to a struct whose last member is the next pointer
    | Array(elem: Ty)                // xdr_array

  // The cases of a switch on the discriminant. Reject is a default that fails.
  datatype Arms =
    | Default(ty: Ty)
    | Reject
    | Case(tag: int, ty: Ty, rest: Arms)

  datatype Val =
    | Unit
    | Num(n: int)
    | Str(s: Bytes.Str)
    | Both(fst: Val, snd: Val)
    | Choice(tag: int, arm: Val)
    | Items(vs: seq<Val>)

  // ------------------------------------------------------------------ which values a type has

  predicate Fits(k: Scalar, n: int) {
    match k
    case Uint32 => 0 <= n < 0x1_0000_0000
    case Uint64 => 0 <= n < 0x1_0000_0000_0000_0000
    case Enum => -0x8000_0000 <= n < 0x8000_0000
    case Bool => n == 0 || n == 1
  }

  predicate Typed(ty: Ty, v: Val)
    decreases ty, 0, 0
  {
    match ty
    case Void => v == Unit
    case Number(k) => v.Num? && Fits(k, v.n)
    case Fixed(size) => v.Str? && |v.s| == size
    case Opaque(max) => v.Str? && |v.s| <= max
    case Text(max) => v.Str? && |v.s| <= max && NulFree(v.s)
    case Pair(a, b) => v.Both? && Typed(a, v.fst) && Typed(b, v.snd)
    case Union(k, arms) => v.Choice? && Fits(k, v.tag) && ArmTyped(arms, v.tag, v.arm)
    case List(e) => v.Items? && AllTyped(e, v.vs)
    case Array(e) => v.Items? && |v.vs| < 0x1_0000_0000 && AllTyped(e, v.vs)
  }

  predicate ArmTyped(arms: Arms, tag: int, v: Val)
    decreases arms, 0, 0
  {
    match arms
    case Default(ty) => Typed(ty, v)
    case Reject => false
    case Case(t, ty, rest) => if tag == t then Typed(ty, v) else ArmTyped(rest, tag, v)
  }

  predicate AllTyped(e: Ty, vs: seq<Val>)
    decreases e, 1, |vs|
  {
    vs == [] || (Typed(e, vs[0]) && AllTyped(e, vs[1..]))
  }

  // ------------------------------------------------------------------ encoding

  function PadLength(n: nat): (p: nat)
    ensures p < 4 && (n + p) % 4 == 0
  {
    (4 - n % 4) % 4
  }

  function Padded(s: seq<Byte>): (r: seq<Byte>)
    ensures |r| == |s| + PadLength(|s|)
  {
    s + seq(PadLength(|s|), _ => 0)
  }

  function EncodeNumber(k: Scalar, n: int): seq<Byte>
    requires Fits(k, n)
  {
    match k
    case Uint64 => BigEndian(n, 8)
    case Enum => BigEndian(if n < 0 then n + 0x1_0000_0000 else n, 4)
    case _ => BigEndian(n, 4)
  }

  function Encode(ty: Ty, v: Val): seq<Byte>
    requires Typed(ty, v)
    decreases ty, 0, 0
  {
    match ty
    case Void => []
    case Number(k) => EncodeNumber(k, v.n)
    case Fixed(_) => Padded(v.s)
    case Opaque(_) => BigEndian(|v.s|, 4) + Padded(v.s)
    case Text(_) => BigEndian(|v.s|, 4) + Padded(v.s)
    case Pair(a, b) => Encode(a, v.fst) + Encode(b, v.snd)
    case Union(k, arms) => EncodeNumber(k, v.tag) + EncodeArm(arms, v.tag, v.arm)
    case List(e) => EncodeList(e, v.vs)
    case Array(e) => BigEndian(|v.vs|, 4) + EncodeAll(e, v.vs)
  }

  function EncodeArm(arms: Arms, tag: int, v: Val): seq<Byte>
    requires ArmTyped(arms, tag, v)
    decreases arms, 0, 0
  {
    match arms
    case Default(ty) => Encode(ty, v)
    case Case(t, ty, rest) => if tag == t then Encode(ty, v) else EncodeArm(rest, tag, v)
  }

  // xdr_pointer: TRUE and the node for as long as there is one, then FALSE.
  function EncodeList(e: Ty, vs: seq<Val>): seq<Byte>
    requires AllTyped(e, vs)
    decreases e, 1, |vs|
  {
    if vs == [] then BigEndian(0, 4)
    else BigEndian(1, 4) + Encode(e, vs[0]) + EncodeList(e, vs[1..])
  }

  function EncodeAll(e: Ty, vs: seq<Val>): seq<Byte>
    requires AllTyped(e, vs)
    decreases e, 1, |vs|
  {
    if vs == [] then [] else Encode(e, vs[0]) + EncodeAll(e, vs[1..])
  }

  // ------------------------------------------------------------------ decoding

  type Decoded<+T> = Option<(T, seq<Byte>)>

  function TakeNumber(bs: seq<Byte>, width: nat): (r: Decoded<nat>)
    ensures r.Some? ==> |bs| == width + |r.value.1| && r.value.0 < Pow256(width)
  {
    if |bs| < width then None else Some((FromBigEndian(bs[..width]), bs[width..]))
  }

  // The bytes themselves, then the padding, whatever it holds.
  function TakePadded(bs: seq<Byte>, n: nat): (r: Decoded<seq<Byte>>)
    ensures r.Some? ==> |r.value.0| == n && |bs| == n + PadLength(n) + |r.value.1|
  {
    if |bs| < n + PadLength(n) then None else Some((bs[..n], bs[n + PadLength(n)..]))
  }

  function DecodeNumber(k: Scalar, bs: seq<Byte>): (r: Decoded<int>)
    ensures r.Some? ==> |r.value.1| < |bs| && Fits(k, r.value.0)
  {
    Powers();
    match k
    case Uint64 => TakeNumber(bs, 8)
    case Uint32 => TakeNumber(bs, 4)
    case Enum =>
      (match TakeNumber(bs, 4)
       case None => None
       case Some((n, rest)) => Some((if n < 0x8000_0000 then n else n - 0x1_0000_0000, rest)))
    case Bool =>
      (match TakeNumber(bs, 4)
       case None => None
       case Some((n, rest)) => Some((if n == 0 then 0 else 1, rest)))
  }

  function Mapped<A, B>(r: Decoded<A>, f: A -> B): (q: Decoded<B>)
    ensures r.None? <==> q.None?
    ensures r.Some? ==> q == Some((f(r.value.0), r.value.1))
  {
    if r.None? then None else Some((f(r.value.0), r.value.1))
  }

  // Terminates on every byte string: each node of a list takes at least its pointer's four bytes.
  function Decode(ty: Ty, bs: seq<Byte>): (r: Decoded<Val>)
    ensures r.Some? ==> |r.value.1| <= |bs| && Typed(ty, r.value.0)
    decreases ty, 0, 0
  {
    match ty
    case Void => Some((Unit, bs))
    case Number(k) => Mapped(DecodeNumber(k, bs), n => Num(n))
    case Fixed(size) => Mapped(TakePadded(bs, size), s => Str(s))
    case Opaque(max) =>
      (match TakeNumber(bs, 4)
       case None => None
       case Some((n, rest)) => if n > max then None else Mapped(TakePadded(rest, n), s => Str(s)))
    case Text(max) =>
      (match TakeNumber(bs, 4)
       case None => None
       case Some((n, rest)) => if n > max then None else Mapped(TakePadded(rest, n), s => Str(CString(s))))
    case Pair(a, b) =>
      (match Decode(a, bs)
       case None => None
       case Some((x, rest)) => Mapped(Decode(b, rest), y => Both(x, y)))
    case Union(k, arms) =>
      (match DecodeNumber(k, bs)
       case None => None
       case Some((tag, rest)) => Mapped(DecodeArm(arms, tag, rest), v => Choice(tag, v)))
    case List(e) => Mapped(DecodeList(e, bs), vs => Items(vs))
    case Array(e) =>
      (match TakeNumber(bs, 4)
       case None => None
       case Some((n, rest)) => Powers(); Mapped(DecodeAll(e, n, rest), vs => Items(vs)))
  }

  function DecodeArm(arms: Arms, tag: int, bs: seq<Byte>): (r: Decoded<Val>)
    ensures r.Some? ==> |r.value.1| <= |bs| && ArmTyped(arms, tag, r.value.0)
    decreases arms, 0, 0
  {
    match arms
    case Default(ty) => Decode(ty, bs)
    case Reject => None
    case Case(t, ty, rest) => if tag == t then Decode(ty, bs) else DecodeArm(rest, tag, bs)
  }

  function DecodeList(e: Ty, bs: seq<Byte>): (r: Decoded<seq<Val>>)
    ensures r.Some? ==> |r.value.1| <= |bs| && AllTyped(e, r.value.0)
    decreases e, 1, |bs|
  {
    match DecodeNumber(Bool, bs)
    case None => None
    case Some((follows, rest)) =>
      if follows == 0 then Some(([], rest))
      else
        match Decode(e, rest)
        case None => None
        case Some((v, rest')) => Mapped(DecodeList(e, rest'), vs => [v] + vs)
  }

  function DecodeAll(e: Ty, n: nat, bs: seq<Byte>): (r: Decoded<seq<Val>>)
    ensures r.Some? ==> |r.value.1| <= |bs| && |r.value.0| == n && AllTyped(e, r.value.0)
    decreases e, 1, n
  {
    if n == 0 then Some(([], bs))
    else
      match Decode(e, bs)
      case None => None
      case Some((v, rest)) => Mapped(DecodeAll(e, n - 1, rest), vs => [v] + vs)
  }

  // ------------------------------------------------------------------ round trip

  lemma {:induction false} TakeNumberBack(n: nat, width: nat, rest: seq<Byte>)
    requires n < Pow256(width)
    ensures TakeNumber(BigEndian(n, width) + rest, width) == Some((n, rest))
  {
    BigEndianRoundTrip(n, width);
    var bs := BigEndian(n, width) + rest;
    assert bs[..width] == BigEndian(n, width) && bs[width..] == rest;
  }

  lemma {:induction false} AppendAssociative(a: seq<Byte>, b: seq<Byte>, c: seq<Byte>)
    ensures a + b + c == a + (b + c)
  {
  }

  lemma {:induction false} TakePaddedBack(s: seq<Byte>, rest: seq<Byte>)
    ensures TakePadded(Padded(s) + rest, |s|) == Some((s, rest))
  {
    var bs := Padded(s) + rest;
    assert bs[..|s|] == s && bs[|Padded(s)|..] == rest;
  }

  lemma {:induction false} NumberBack(k: Scalar, n: int, rest: seq<Byte>)
    requires Fits(k, n)
    ensures DecodeNumber(k, EncodeNumber(k, n) + rest) == Some((n, rest))
  {
    Powers();
    match k
    case Uint64 => TakeNumberBack(n, 8, rest);
    case Enum => TakeNumberBack(if n < 0 then n + 0x1_0000_0000 else n, 4, rest);
    case _ => TakeNumberBack(n, 4, rest);
  }

  lemma {:induction false} BytesBack(s: seq<Byte>, rest: seq<Byte>)
    requires |s| < 0x1_0000_0000
    ensures var bs := BigEndian(|s|, 4) + Padded(s) + rest;
            TakeNumber(bs, 4) == Some((|s|, Padded(s) + rest))
            && TakePadded(Padded(s) + rest, |s|) == Some((s, rest))
  {
    Powers();
    AppendAssociative(BigEndian(|s|, 4), Padded(s), rest);
    TakeNumberBack(|s|, 4, Padded(s) + rest);
    TakePaddedBack(s, rest);
  }

  // Decoding what was encoded gives the value back and stops exactly where it ended, whatever
  // follows: for every type of the protocol, at any depth and any length of list.
  lemma {:induction false} RoundTrip(ty: Ty, v: Val, rest: seq<Byte>)
    requires Typed(ty, v)
    ensures Decode(ty, Encode(ty, v) + rest) == Some((v, rest))
    decreases ty, 0, 0
  {
    match ty
    case Pair(a, b) =>
      AppendAssociative(Encode(a, v.fst), Encode(b, v.snd), rest);
      RoundTrip(a, v.fst, Encode(b, v.snd) + rest);
      RoundTrip(b, v.snd, rest);
    case Union(k, arms) =>
      var arm := EncodeArm(arms, v.tag, v.arm);
      AppendAssociative(EncodeNumber(k, v.tag), arm, rest);
      NumberBack(k, v.tag, arm + rest);
      ArmRoundTrip(arms, v.tag, v.arm, rest);
    case List(e) => ListRoundTrip(e, v.vs, rest);
    case Array(e) =>
      Powers();
      var all := EncodeAll(e, v.vs);
      AppendAssociative(BigEndian(|v.vs|, 4), all, rest);
      TakeNumberBack(|v.vs|, 4, all + rest);
      AllRoundTrip(e, v.vs, rest);
    case _ => LeafRoundTrip(ty, v, rest);
  }

  lemma {:induction false} LeafRoundTrip(ty: Ty, v: Val, rest: seq<Byte>)
    requires Leaf(ty) && Typed(ty, v)
    ensures Decode(ty, Encode(ty, v) + rest) == Some((v, rest))
  {
    hide BigEndian, Padded;
    match ty
    case Void => assert [] + rest == rest;
    case Number(k) => NumberBack(k, v.n, rest);
    case Fixed(_) => TakePaddedBack(v.s, rest);
    case Opaque(_) => BytesBack(v.s, rest);
    case Text(_) => BytesBack(v.s, rest);
  }

  lemma {:induction false} ArmRoundTrip(arms: Arms, tag: int, v: Val, rest: seq<Byte>)
    requires ArmTyped(arms, tag, v)
    ensures DecodeArm(arms, tag, EncodeArm(arms, tag, v) + rest) == Some((v, rest))
    decreases arms, 0, 0
  {
    match arms
    case Default(ty) => RoundTrip(ty, v, rest);
    case Case(t, ty, others) =>
      if tag == t { RoundTrip(ty, v, rest); } else { ArmRoundTrip(others, tag, v, rest); }
  }

  lemma {:induction false} ListRoundTrip(e: Ty, vs: seq<Val>, rest: seq<Byte>)
    requires AllTyped(e, vs)
    ensures DecodeList(e, EncodeList(e, vs) + rest) == Some((vs, rest))
    decreases e, 1, |vs|
  {
    hide Encode, Decode, Typed, DecodeNumber;
    if vs == [] {
      NumberBack(Bool, 0, rest);
    } else {
      var node, others := Encode(e, vs[0]), EncodeList(e, vs[1..]);
      var tail := others + rest;
      RoundTrip(e, vs[0], tail);
      ListRoundTrip(e, vs[1..], rest);
      NumberBack(Bool, 1, node + tail);
      assert EncodeList(e, vs) + rest == BigEndian(1, 4) + (node + tail) by {
        AppendAssociative(BigEndian(1, 4) + node, others, rest);
        AppendAssociative(BigEndian(1, 4), node, tail);
      }
      assert EncodeNumber(Bool, 1) == BigEndian(1, 4);
      hide EncodeList, BigEndian, EncodeNumber, AllTyped;
      NodeDecoded(e, EncodeList(e, vs) + rest, node + tail, vs[0], tail, vs[1..], rest);
      assert [vs[0]] + vs[1..] == vs;
    }
  }

  // A node and then the rest of the list.
  lemma {:induction false} NodeDecoded(e: Ty, bs: seq<Byte>, after: seq<Byte>, v: Val, tail: seq<Byte>, vs: seq<Val>,
                                       rest: seq<Byte>)
    requires DecodeNumber(Bool, bs) == Some((1, after)) && Decode(e, after) == Some((v, tail))
    requires DecodeList(e, tail) == Some((vs, rest))
    ensures DecodeList(e, bs) == Some(([v] + vs, rest))
  {
  }

  lemma {:induction false} AllRoundTrip(e: Ty, vs: seq<Val>, rest: seq<Byte>)
    requires AllTyped(e, vs)
    ensures DecodeAll(e, |vs|, EncodeAll(e, vs) + rest) == Some((vs, rest))
    decreases e, 1, |vs|
  {
    hide Encode, Decode, Typed;
    if vs == [] {
      assert [] + rest == rest;
    } else {
      var node, tail := Encode(e, vs[0]), EncodeAll(e, vs[1..]) + rest;
      AppendAssociative(node, EncodeAll(e, vs[1..]), rest);
      RoundTrip(e, vs[0], tail);
      AllRoundTrip(e, vs[1..], rest);
      assert [vs[0]] + vs[1..] == vs;
    }
  }

  // Hence no encoding is a proper prefix of another of the same type.
  lemma {:induction false} PrefixFree(ty: Ty, v: Val, w: Val, r: seq<Byte>, s: seq<Byte>)
    requires Typed(ty, v) && Typed(ty, w)
    requires Encode(ty, v) + r == Encode(ty, w) + s
    ensures v == w && r == s
  {
    RoundTrip(ty, v, r);
    RoundTrip(ty, w, s);
  }

  // What is left over is the end of what was given.
  ghost predicate Suffix(rest: seq<Byte>, bs: seq<Byte>) {
    |rest| <= |bs| && rest == bs[|bs| - |rest|..] && (|bs| - |rest|) % 4 == 0
  }

  lemma {:induction false} SuffixWhole(bs: seq<Byte>)
    ensures Suffix(bs, bs)
  {
  }

  lemma {:induction false} SuffixTransitive(a: seq<Byte>, b: seq<Byte>, c: seq<Byte>)
    requires Suffix(a, b) && Suffix(b, c)
    ensures Suffix(a, c)
  {
  }

  lemma {:induction false} PaddedConsumes(bs: seq<Byte>, n: nat)
    ensures TakePadded(bs, n).Some? ==> Suffix(TakePadded(bs, n).value.1, bs)
  {
    hide PadLength;
  }

  lemma {:induction false} CountedConsumes(bs: seq<Byte>)
    ensures var n := TakeNumber(bs, 4);
            n.Some? ==>
              var s := TakePadded(n.value.1, n.value.0);
              s.Some? ==> Suffix(s.value.1, bs)
  {
    hide Suffix, TakePadded;
    NumberConsumes(Uint32, bs);
    var n := TakeNumber(bs, 4);
    if n.Some? {
      PaddedConsumes(n.value.1, n.value.0);
      var s := TakePadded(n.value.1, n.value.0);
      if s.Some? { SuffixTransitive(s.value.1, n.value.1, bs); }
    }
  }

  lemma {:induction false} LeafConsumes(ty: Ty, bs: seq<Byte>)
    requires Leaf(ty)
    ensures Decode(ty, bs).Some? ==> Suffix(Decode(ty, bs).value.1, bs)
  {
    hide CString, Suffix, TakeNumber, TakePadded, DecodeNumber, Typed;
    match ty
    case Void => SuffixWhole(bs);
    case Number(k) => NumberConsumes(k, bs);
    case Fixed(size) => PaddedConsumes(bs, size);
    case _ => CountedConsumes(bs);
  }

  // Whatever the bytes, decoding consumes a whole number of four-byte units from the front.
  lemma {:induction false} DecodeConsumes(ty: Ty, bs: seq<Byte>)
    ensures Decode(ty, bs).Some? ==> Suffix(Decode(ty, bs).value.1, bs)
    decreases ty, 0, 0
  {
    hide FromBigEndian, CString, Suffix;
    match ty
    case Pair(a, b) =>
      DecodeConsumes(a, bs);
      var first := Decode(a, bs);
      if first.Some? {
        DecodeConsumes(b, first.value.1);
        var r := Decode(b, first.value.1);
        if r.Some? { SuffixTransitive(r.value.1, first.value.1, bs); }
      }
    case Union(k, arms) =>
      NumberConsumes(k, bs);
      var tag := DecodeNumber(k, bs);
      if tag.Some? {
        ArmConsumes(arms, tag.value.0, tag.value.1);
        var r := DecodeArm(arms, tag.value.0, tag.value.1);
        if r.Some? { SuffixTransitive(r.value.1, tag.value.1, bs); }
      }
    case List(e) => ListConsumes(e, bs);
    case Array(e) =>
      NumberConsumes(Uint32, bs);
      var n := TakeNumber(bs, 4);
      if n.Some? {
        AllConsumes(e, n.value.0, n.value.1);
        var r := DecodeAll(e, n.value.0, n.value.1);
        if r.Some? { SuffixTransitive(r.value.1, n.value.1, bs); }
      }
    case _ => LeafConsumes(ty, bs);
  }

  lemma {:induction false} NumberConsumes(k: Scalar, bs: seq<Byte>)
    ensures DecodeNumber(k, bs).Some? ==> Suffix(DecodeNumber(k, bs).value.1, bs)
  {
    hide FromBigEndian;
  }

  lemma {:induction false} ArmConsumes(arms: Arms, tag: int, bs: seq<Byte>)
    ensures DecodeArm(arms, tag, bs).Some? ==> Suffix(DecodeArm(arms, tag, bs).value.1, bs)
    decreases arms, 0, 0
  {
    match arms
    case Default(ty) => DecodeConsumes(ty, bs);
    case Reject =>
    case Case(t, ty, rest) => if tag == t { DecodeConsumes(ty, bs); } else { ArmConsumes(rest, tag, bs); }
  }

  lemma {:induction false} ListConsumes(e: Ty, bs: seq<Byte>)
    ensures DecodeList(e, bs).Some? ==> Suffix(DecodeList(e, bs).value.1, bs)
    decreases e, 1, |bs|
  {
    hide FromBigEndian, Suffix, Decode, Typed, AllTyped;
    var flag := DecodeNumber(Bool, bs);
    NumberConsumes(Bool, bs);
    if flag.Some? && flag.value.0 != 0 {
      var first := Decode(e, flag.value.1);
      DecodeConsumes(e, flag.value.1);
      if first.Some? {
        var rest := first.value.1;
        ListConsumes(e, rest);
        SuffixTransitive(rest, flag.value.1, bs);
        var r := DecodeList(e, rest);
        if r.Some? { SuffixTransitive(r.value.1, rest, bs); }
      }
    }
  }

  lemma {:induction false} AllConsumes(e: Ty, n: nat, bs: seq<Byte>)
    ensures DecodeAll(e, n, bs).Some? ==> Suffix(DecodeAll(e, n, bs).value.1, bs)
    decreases e, 1, n
  {
    hide Decode, Suffix, Typed, AllTyped;
    SuffixWhole(bs);
    if n != 0 {
      var first := Decode(e, bs);
      DecodeConsumes(e, bs);
      if first.Some? {
        AllConsumes(e, n - 1, first.value.1);
        var r := DecodeAll(e, n - 1, first.value.1);
        if r.Some? { SuffixTransitive(r.value.1, first.value.1, bs); }
      }
    }
  }

  // ------------------------------------------------------------------ lengths

  predicate Whole(bs: seq<Byte>) {
    |bs| % 4 == 0
  }

  lemma {:induction false} WholeAppend(a: seq<Byte>, b: seq<Byte>)
    requires Whole(a) && Whole(b)
    ensures Whole(a + b)
  {
  }

  lemma {:induction false} FourByteUnits(ty: Ty, v: Val)
    requires Typed(ty, v)
    ensures |Encode(ty, v)| % 4 == 0
  {
    EncodesWhole(ty, v);
  }

  lemma {:induction false} EncodesWhole(ty: Ty, v: Val)
    requires Typed(ty, v)
    ensures Whole(Encode(ty, v))
    decreases ty, 0, 0
  {
    hide BigEndian, Padded, EncodeArm, EncodeList, EncodeAll, ArmTyped, AllTyped, EncodeNumber, Whole;
    match ty
    case Pair(a, b) =>
      EncodesWhole(a, v.fst);
      EncodesWhole(b, v.snd);
      WholeAppend(Encode(a, v.fst), Encode(b, v.snd));
    case Union(k, arms) =>
      ArmEncodesWhole(arms, v.tag, v.arm);
      NumberWhole(k, v.tag);
      WholeAppend(EncodeNumber(k, v.tag), EncodeArm(arms, v.tag, v.arm));
    case List(e) => ListEncodesWhole(e, v.vs);
    case Array(e) =>
      AllEncodesWhole(e, v.vs);
      WordWhole(|v.vs|);
      WholeAppend(BigEndian(|v.vs|, 4), EncodeAll(e, v.vs));
    case _ => LeafEncodesWhole(ty, v);
  }

  lemma {:induction false} NumberWhole(k: Scalar, n: int)
    requires Fits(k, n)
    ensures Whole(EncodeNumber(k, n))
  {
    hide BigEndian;
  }

  lemma {:induction false} WordWhole(n: nat)
    ensures Whole(BigEndian(n, 4))
  {
    hide BigEndian;
  }

  predicate Leaf(ty: Ty) {
    ty.Void? || ty.Number? || ty.Fixed? || ty.Opaque? || ty.Text?
  }

  lemma {:induction false} LeafEncodesWhole(ty: Ty, v: Val)
    requires Leaf(ty) && Typed(ty, v)
    ensures Whole(Encode(ty, v))
  {
    hide BigEndian, PadLength, NulFree;
  }

  lemma {:induction false} ArmEncodesWhole(arms: Arms, tag: int, v: Val)
    requires ArmTyped(arms, tag, v)
    ensures Whole(EncodeArm(arms, tag, v))
    decreases arms, 0, 0
  {
    hide Whole;
    match arms
    case Default(ty) => EncodesWhole(ty, v);
    case Case(t, ty, rest) => if tag == t { EncodesWhole(ty, v); } else { ArmEncodesWhole(rest, tag, v); }
  }

  lemma {:induction false} ListEncodesWhole(e: Ty, vs: seq<Val>)
    requires AllTyped(e, vs)
    ensures Whole(EncodeList(e, vs))
    decreases e, 1, |vs|
  {
    hide Encode, Typed, Whole;
    WordWhole(0);
    if vs != [] {
      var first := Encode(e, vs[0]);
      EncodesWhole(e, vs[0]);
      ListEncodesWhole(e, vs[1..]);
      WordWhole(1);
      WholeAppend(BigEndian(1, 4), first);
      WholeAppend(BigEndian(1, 4) + first, EncodeList(e, vs[1..]));
    }
  }

  lemma {:induction false} AllEncodesWhole(e: Ty, vs: seq<Val>)
    requires AllTyped(e, vs)
    ensures Whole(EncodeAll(e, vs))
    decreases e, 1, |vs|
  {
    hide Encode, Typed;
    if vs != [] {
      hide Whole;
      EncodesWhole(e, vs[0]);
      AllEncodesWhole(e, vs[1..]);
      WholeAppend(Encode(e, vs[0]), EncodeAll(e, vs[1..]));
    }
  }

  // The length every value of a type has, where that is fixed.
  function Width(ty: Ty): Option<nat> {
    match ty
    case Void => Some(0)
    case Number(k) => Some(if k == Uint64 then 8 else 4)
    case Fixed(size) => Some(size + PadLength(size))
    case Pair(a, b) =>
      (match (Width(a), Width(b))
       case (Some(m), Some(n)) => Some(m + n)
       case _ => None)
    case _ => None
  }

  lemma {:induction false} FixedWidth(ty: Ty, v: Val)
    requires Typed(ty, v) && Width(ty).Some?
    ensures |Encode(ty, v)| == Width(ty).value
  {
    if ty.Pair? {
      FixedWidth(ty.first, v.fst);
      FixedWidth(ty.second, v.snd);
    }
  }
}

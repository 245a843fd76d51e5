// The static result structs of nfs.c. A result is a status and a union of resok and resfail;
// procedures store the attributes through resok whatever the status, relying on resfail being
// overlaid on its first members. Layout is in memory order, which is not always wire order.
module Results {
  import opened Xdr
  import opened XdrStreams
  import opened NfsTypes

  // A member of a C struct: how many bytes it takes, and what it holds.
  datatype Member = Member(size: nat, ty: Ty)

  // resok and resfail as declared in nfs.h, and the order in which xdr_*resok sends resok.
  datatype Shape = Shape(resok: seq<Member>, wire: seq<nat>, resfail: seq<Member>)

  const ATTR := Member(96, POST_OP_ATTR)
  const WCC := Member(128, WCC_DATA)
  const FH := Member(16, NFS_FH3)
  const POST_FH := Member(24, POST_OP_FH3)
  const COUNT := Member(4, U32)

  const SETATTR3 := Shape([WCC], [0], [WCC])
  const LOOKUP3 := Shape([ATTR, FH, ATTR], [1, 2, 0], [ATTR])
  const ACCESS3 := Shape([ATTR, COUNT], [0, 1], [ATTR])
  const READ3 := Shape([ATTR, COUNT, Member(4, BOOL), Member(16, Opaque(NO_LIMIT))], [0, 1, 2, 3], [ATTR])
  const WRITE3 := Shape([WCC, COUNT, Member(4, ENUM), Member(8, VERIFIER)], [0, 1, 2, 3], [WCC])
  const CREATE3 := Shape([WCC, POST_FH, ATTR], [1, 2, 0], [WCC])
  const MKDIR3 := Shape([WCC, POST_FH, ATTR], [1, 2, 0], [WCC])
  const REMOVE3 := Shape([WCC], [0], [WCC])
  const RMDIR3 := Shape([WCC], [0], [WCC])
  const COMMIT3 := Shape([WCC, Member(8, VERIFIER)], [0, 1], [WCC])
  // The list is a pointer into READDIR's buffers.
  const READDIR3 := Shape([ATTR, Member(8, VERIFIER), Member(8, List(ENTRY3)), Member(4, BOOL)], [0, 1, 2, 3], [ATTR])
  const RENAME3 := Shape([WCC, WCC], [0, 1], [WCC, WCC])

  // resfail is laid out like the first members of resok, and every member takes up room.
  predicate Overlaid(s: Shape) {
    && s.resfail != [] && s.resfail <= s.resok
    && (forall i :: 0 <= i < |s.resok| ==> s.resok[i].size > 0)
    && (forall i :: 0 <= i < |s.wire| ==> s.wire[i] < |s.resok|)
  }

  function Offset(layout: seq<Member>, i: nat): nat
    requires i <= |layout|
  {
    if i == 0 then 0 else Offset(layout, i - 1) + layout[i - 1].size
  }

  // The types on the wire.
  function Sequence(layout: seq<Member>, order: seq<nat>): Ty
    requires order != [] && forall i :: 0 <= i < |order| ==> order[i] < |layout|
  {
    if |order| == 1 then layout[order[0]].ty else Pair(layout[order[0]].ty, Sequence(layout, order[1..]))
  }

  function Upto(n: nat): (order: seq<nat>)
    ensures |order| == n && forall i :: 0 <= i < n ==> order[i] == i
  {
    seq(n, i requires 0 <= i < n => i)
  }

  function Resfail(s: Shape): Ty
    requires Overlaid(s)
  {
    Sequence(s.resfail, Upto(|s.resfail|))
  }

  // The union's memory: what was last stored at each offset and not overwritten since.
  type Cells = map<nat, Val>

  function Stored(m: Cells, layout: seq<Member>, i: nat, v: Val): Cells
    requires i < |layout|
  {
    var at, size := Offset(layout, i), layout[i].size;
    (map k | k in m && !(at <= k < at + size) :: m[k])[at := v]
  }

  lemma {:induction false} OffsetsGrow(layout: seq<Member>, i: nat, j: nat)
    requires i < j <= |layout|
    ensures Offset(layout, i) + layout[i].size <= Offset(layout, j)
    decreases j
  {
    if i < j - 1 { OffsetsGrow(layout, i, j - 1); }
  }

  lemma {:induction false} OffsetOfPrefix(a: seq<Member>, b: seq<Member>, i: nat)
    requires a <= b && i <= |a|
    ensures Offset(a, i) == Offset(b, i)
    decreases i
  {
    if i > 0 { OffsetOfPrefix(a, b, i - 1); }
  }

  // Storing one member leaves the others readable.
  lemma {:induction false} StoredElsewhere(m: Cells, layout: seq<Member>, i: nat, v: Val, j: nat)
    requires i < |layout| && j < |layout| && i != j
    requires forall k :: 0 <= k < |layout| ==> layout[k].size > 0
    ensures var at := Offset(layout, j);
            (at in Stored(m, layout, i, v) <==> at in m) && (at in m ==> Stored(m, layout, i, v)[at] == m[at])
  {
    if i < j { OffsetsGrow(layout, i, j); } else { OffsetsGrow(layout, j, i); }
  }

  // Reading the members of a struct in some order.
  ghost predicate Holds(m: Cells, layout: seq<Member>, order: seq<nat>, v: Val)
    requires order != [] && forall i :: 0 <= i < |order| ==> order[i] < |layout|
    decreases |order|
  {
    var at := Offset(layout, order[0]);
    if |order| == 1 then at in m && m[at] == v
    else v.Both? && at in m && m[at] == v.fst && Holds(m, layout, order[1..], v.snd)
  }

  // The result can be sent as v under its status.
  ghost predicate Ready(status: int, m: Cells, s: Shape, v: Val) {
    && Overlaid(s) && s.wire != [] && Fits(Enum, status)
    && (status == 0 ==> Holds(m, s.resok, s.wire, v) && Typed(Sequence(s.resok, s.wire), v))
    && (status != 0 ==> Holds(m, s.resfail, Upto(|s.resfail|), v) && Typed(Resfail(s), v))
  }

  // The procedures whose attributes are stored through one part and may be sent as the other, by number.
  function ShapeOf(procedure: nat): Shape {
    match procedure
    case 3 => LOOKUP3
    case 4 => ACCESS3
    case 6 => READ3
    case 7 => WRITE3
    case 8 => CREATE3
    case 9 => MKDIR3
    case 12 => REMOVE3
    case 13 => RMDIR3
    case 14 => RENAME3
    case 16 => READDIR3
    case 21 => COMMIT3
    case _ => SETATTR3
  }

  lemma {:induction false} OneMember(a: Member)
    ensures Sequence([a], [0]) == a.ty && Sequence([a], Upto(1)) == a.ty
  {
    assert Upto(1) == [0];
  }

  lemma {:induction false} InOrder(layout: seq<Member>, order: seq<nat>)
    requires |order| > 1 && forall i :: 0 <= i < |order| ==> order[i] < |layout|
    ensures Sequence(layout, order) == Pair(layout[order[0]].ty, Sequence(layout, order[1..]))
  {
  }

  lemma {:induction false} LastMember(layout: seq<Member>, i: nat)
    requires i < |layout|
    ensures Sequence(layout, [i]) == layout[i].ty
  {
  }

  lemma {:induction false} FirstMemberLast(layout: seq<Member>)
    requires |layout| == 3
    ensures Sequence(layout, [1, 2, 0]) == Pair(layout[1].ty, Pair(layout[2].ty, layout[0].ty))
  {
    hide Sequence;
    InOrder(layout, [1, 2, 0]);
    InOrder(layout, [2, 0]);
    LastMember(layout, 0);
    assert [1, 2, 0][1..] == [2, 0] && [2, 0][1..] == [0];
  }

  lemma {:induction false} TwoMembers(layout: seq<Member>)
    requires |layout| == 2
    ensures Sequence(layout, [0, 1]) == Sequence(layout, Upto(2)) == Pair(layout[0].ty, layout[1].ty)
  {
    hide Sequence;
    InOrder(layout, [0, 1]);
    LastMember(layout, 1);
    assert Upto(2) == [0, 1] && [0, 1][1..] == [1];
  }

  lemma {:induction false} FourMembers(layout: seq<Member>)
    requires |layout| == 4
    ensures Sequence(layout, [0, 1, 2, 3])
         == Pair(layout[0].ty, Pair(layout[1].ty, Pair(layout[2].ty, layout[3].ty)))
  {
    hide Sequence;
    InOrder(layout, [0, 1, 2, 3]);
    InOrder(layout, [1, 2, 3]);
    InOrder(layout, [2, 3]);
    LastMember(layout, 3);
    assert [0, 1, 2, 3][1..] == [1, 2, 3] && [1, 2, 3][1..] == [2, 3] && [2, 3][1..] == [3];
  }

  // What the overlaid struct sends has the reply type of its procedure, for all twelve of them,
  // also where the wire order is not the memory order.
  lemma {:induction false} ShapesMatch(procedure: nat)
    requires procedure in {2, 3, 4, 6, 7, 8, 9, 12, 13, 14, 16, 21}
    ensures var s := ShapeOf(procedure);
            && Overlaid(s) && s.wire != []
            && Reply(Sequence(s.resok, s.wire), Resfail(s)) == Result(procedure)
  {
    hide Sequence, POST_OP_ATTR, WCC_DATA;
    var s := ShapeOf(procedure);
    OneMember(s.resfail[0]);
    if procedure == 14 {
      TwoMembers(s.resfail);
      TwoMembers(s.resok);
    } else if procedure in {3, 8, 9} {
      FirstMemberLast(s.resok);
    } else if procedure in {6, 7, 16} {
      FourMembers(s.resok);
    } else if procedure in {4, 21} {
      TwoMembers(s.resok);
    }
  }

  // A procedure that fails and then stores its attributes through the first member of resok
  // sends exactly those attributes, whatever an earlier call left in the struct.
  lemma {:induction false} FailureSendsAttributes(status: int, m: Cells, s: Shape, post: Val)
    requires Overlaid(s) && s.wire != [] && |s.resfail| == 1
    requires status != 0 && Fits(Enum, status) && Typed(s.resfail[0].ty, post)
    ensures Ready(status, Stored(m, s.resok, 0, post), s, post)
  {
    hide Typed;
    OneMember(s.resfail[0]);
    assert s.resfail == [s.resfail[0]];
  }

  // The first member of a procedure's result: the attributes its failures carry.
  function FailureType(procedure: nat): Ty {
    ShapeOf(procedure).resok[0].ty
  }

  lemma {:induction false} OneFailureMember(procedure: nat)
    requires procedure in {2, 3, 4, 6, 7, 8, 9, 12, 13, 16, 21}
    ensures var s := ShapeOf(procedure);
            Overlaid(s) && s.wire != [] && |s.resfail| == 1 && Resfail(s) == s.resfail[0].ty == FailureType(procedure)
  {
    var s := ShapeOf(procedure);
    ShapesMatch(procedure);
    hide POST_OP_ATTR, WCC_DATA, Sequence;
    OneMember(s.resfail[0]);
    assert s.resfail == [s.resfail[0]];
  }

  // So for each of these procedures: once a failure has stored its attributes through resok (COMMIT
  // does through resfail, at the same place), what Send puts on the wire is a reply of the procedure,
  // the status followed by those attributes.
  lemma {:induction false} FailureOnTheWire(procedure: nat, status: int, m: Cells, post: Val)
    requires procedure in {2, 3, 4, 6, 7, 8, 9, 12, 13, 16, 21}
    requires status != 0 && Fits(Enum, status) && Typed(FailureType(procedure), post)
    ensures var s := ShapeOf(procedure);
            && Ready(status, Stored(m, s.resok, 0, post), s, post)
            && Reply(Sequence(s.resok, s.wire), Resfail(s)) == Result(procedure)
    ensures Typed(Result(procedure), Choice(status, post))
    ensures Encode(Result(procedure), Choice(status, post)) ==
        EncodeNumber(Enum, status) + Encode(FailureType(procedure), post)
  {
    var s := ShapeOf(procedure);
    ShapesMatch(procedure);
    OneFailureMember(procedure);
    hide ShapeOf, FailureType, Result, Sequence, Typed, Encode, Stored, Ready;
    FailureSendsAttributes(status, m, s, post);
    FailedReply(Sequence(s.resok, s.wire), Resfail(s), status, post);
  }

  // The same for the two members RENAME stores.
  lemma {:induction false} FailureSendsBoth(status: int, m: Cells, s: Shape, from: Val, to: Val)
    requires Overlaid(s) && s.wire != [] && |s.resfail| == 2
    requires status != 0 && Fits(Enum, status)
    requires Typed(s.resfail[0].ty, from) && Typed(s.resfail[1].ty, to)
    ensures Ready(status, Stored(Stored(m, s.resok, 0, from), s.resok, 1, to), s, Both(from, to))
  {
    var m1 := Stored(m, s.resok, 0, from);
    StoredElsewhere(m1, s.resok, 1, to, 0);
    OffsetOfPrefix(s.resfail, s.resok, 1);
    TwoMembers(s.resfail);
    assert Upto(2) == [0, 1] && [0, 1][1..] == [1];
    var m2 := Stored(m1, s.resok, 1, to);
    assert Holds(m2, s.resfail, [1], to);
  }

  lemma {:induction false} SuccessSendsBoth(m: Cells, s: Shape, from: Val, to: Val)
    requires Overlaid(s) && s.wire == [0, 1] && |s.resok| == 2
    requires Typed(s.resok[0].ty, from) && Typed(s.resok[1].ty, to)
    ensures Ready(0, Stored(Stored(m, s.resok, 0, from), s.resok, 1, to), s, Both(from, to))
  {
    var m1 := Stored(m, s.resok, 0, from);
    StoredElsewhere(m1, s.resok, 1, to, 0);
    TwoMembers(s.resok);
    assert [0, 1][1..] == [1];
    var m2 := Stored(m1, s.resok, 1, to);
    assert Holds(m2, s.resok, [1], to);
  }

  // LOOKUP, CREATE and MKDIR store the first member last and send it last.
  lemma {:induction false} SuccessSendsThree(m: Cells, s: Shape, a: Val, b: Val, c: Val)
    requires Overlaid(s) && s.wire == [1, 2, 0] && |s.resok| == 3
    requires Typed(s.resok[0].ty, a) && Typed(s.resok[1].ty, b) && Typed(s.resok[2].ty, c)
    ensures var m' := Stored(Stored(Stored(m, s.resok, 1, b), s.resok, 2, c), s.resok, 0, a);
            Ready(0, m', s, Both(b, Both(c, a)))
  {
    var m1 := Stored(m, s.resok, 1, b);
    var m2 := Stored(m1, s.resok, 2, c);
    var m3 := Stored(m2, s.resok, 0, a);
    StoredElsewhere(m1, s.resok, 2, c, 1);
    StoredElsewhere(m2, s.resok, 0, a, 1);
    StoredElsewhere(m2, s.resok, 0, a, 2);
    FirstMemberLast(s.resok);
    assert [1, 2, 0][1..] == [2, 0] && [2, 0][1..] == [0];
    assert Holds(m3, s.resok, [0], a);
    assert Holds(m3, s.resok, [2, 0], Both(c, a));
  }

  class StaticResult {
    var status: int
    var memory: Cells

    constructor ()
    {
      status, memory := 0, map[];
    }

    // result.u.resok.<member i> = v
    method Store(layout: seq<Member>, i: nat, v: Val)
      requires i < |layout|
      modifies this`memory
      ensures memory == Stored(old(memory), layout, i, v)
    {
      memory := Stored(memory, layout, i, v);
    }

    // The members of a struct one after the other.
    method PutMembers(stream: XdrStream, layout: seq<Member>, order: seq<nat>, ghost v: Val)
      requires order != [] && forall i :: 0 <= i < |order| ==> order[i] < |layout|
      requires Holds(memory, layout, order, v) && Typed(Sequence(layout, order), v)
      modifies stream`data
      ensures stream.data == old(stream.data) + Encode(Sequence(layout, order), v)
      decreases |order|
    {
      hide Offset;
      var member := layout[order[0]];
      var value := memory[Offset(layout, order[0])];
      var _ := stream.Put(member.ty, value);
      if |order| > 1 {
        PutMembers(stream, layout, order[1..], v.snd);
        AppendAssociative(old(stream.data), Encode(member.ty, v.fst), Encode(Sequence(layout, order[1..]), v.snd));
      }
    }

    // xdr_*3res: the status, then resok or resfail read from the same memory.
    method Send(stream: XdrStream, s: Shape, ghost v: Val)
      requires Ready(status, memory, s, v)
      modifies stream`data
      ensures Typed(Reply(Sequence(s.resok, s.wire), Resfail(s)), Choice(status, v))
      ensures stream.data == old(stream.data) + Encode(Reply(Sequence(s.resok, s.wire), Resfail(s)), Choice(status, v))
    {
      stream.PutNumber(Enum, status);
      if status == 0 {
        PutMembers(stream, s.resok, s.wire, v);
        GoodReply(Sequence(s.resok, s.wire), Resfail(s), v);
        AppendAssociative(old(stream.data), EncodeNumber(Enum, 0), Encode(Sequence(s.resok, s.wire), v));
      } else {
        PutMembers(stream, s.resfail, Upto(|s.resfail|), v);
        FailedReply(Sequence(s.resok, s.wire), Resfail(s), status, v);
        AppendAssociative(old(stream.data), EncodeNumber(Enum, status), Encode(Resfail(s), v));
      }
    }
  }
}

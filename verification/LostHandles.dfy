// What becomes of an id when its object is gone. The table keeps the path, so the id goes on
// leading there, and whatever comes to be at that path takes the handle over.
module LostHandles {
  import opened Bytes
  import opened Paths
  import opened HandleTable
  import opened Namespace
  import opened Server

  // Where id d leads after a successful call: nothing but a rename changes that.
  ghost function Led(s: State, call: Call, d: int): Str
    requires d in s.t.b
  {
    match call
    case Rename(from, to) =>
      var op := Canonicalise(from);
      LedBy(s.t, op, Canonicalise(to), op in s.ns && s.ns[op].isDir, d)
    case _ => s.t.b[d]
  }

  lemma {:induction false} LeadsTo(s: State, call: Call, s': State, d: int)
    requires Good(s) && Step(s, call, s') && d in s.t.b && d > FIRST
    requires call.Rename? ==> Renames(s, s', call.from, call.to)
    ensures d in s'.t.b && s'.t.b[d] == Led(s, call, d)
  {
    match call
    case Readdir(path, names) =>
      TrackAllLeads(s.t, Canonicalise(path), names, d);
    case Rename(from, to) =>
      var op := Canonicalise(from);
      ReplacedLeads(s.t, s'.t, op, Canonicalise(to), s.ns[op].isDir, d);
    case _ =>
  }

  lemma {:induction false} TrackAllLeads(t: Table, dir: Str, names: seq<Str>, d: int)
    requires d in t.b && d <= t.counter
    ensures var t' := TrackAll(t, dir, names); d in t'.b && t'.b[d] == t.b[d] && t'.counter >= t.counter
    decreases |names|
  {
    if names != [] { TrackAllLeads(t, dir, names[..|names| - 1], d); }
  }

  // Where a rename of op to np leads id d.
  ghost function LedBy(t: Table, op: Str, np: Str, isDir: bool, d: int): Str
    requires d in t.b
  {
    var q := t.b[d];
    if Current(t, d) && (q == op || (isDir && Under(q, op))) then Image(q, op, np) else q
  }

  lemma {:induction false} ReplacedLeads(t: Table, t': Table, op: Str, np: Str, isDir: bool, d: int)
    requires Inv(t) && Replaced(t, t', op, np, isDir) && (op == np || Unrelated(op, np))
    requires d in t.b && d > FIRST
    ensures d in t'.b && t'.b[d] == LedBy(t, op, np, isDir, d)
  {
    var q := t.b[d];
    hide Replaced, Inv, Unrelated;
    if op == np {
      SelfRename(t, t', op, isDir);
      assert AtOrUnder(q, op) ==> Image(q, op, op) == q;
    } else if isDir {
      ReplaceIsSubstitution(t, t', op, np);
    } else {
      ReplaceFileIsSubstitution(t, t', op, np);
      assert Image(op, op, np) == np;
    }
    assert At(t'.b, d) == Some(LedBy(t, op, np, isDir, d));
  }

  // The call that makes an end of the object at q leaves its id leading to q. What the id names
  // from then on is what the same call put there: the new file of CREATE, what a rename brought
  // along, and nothing after a removal.
  lemma {:induction false} AtTheEnd(s: State, call: Call, s': State, q: Str, d: int)
    requires Good(s) && Step(s, call, s')
    requires q in s.ns && q in s.t.a && s.t.a[q] == d && d > FIRST
    requires !Alive(s', s.ns[q].id)
    ensures Resolved(s'.t, d) == Some(q)
    ensures Names(s', d) == if q in s'.ns then Some(s'.ns[q].id) else None
    ensures q in s'.ns <==>
            match call
            case Rename(from, to) =>
              var op, np := Canonicalise(from), Canonicalise(to);
              AtOrUnder(q, np) && Image(q, np, op) in s.ns
            case CreateOver(_) => s'.next > s.next
            case _ => false
  {
    assert q in s'.ns ==> s'.ns[q].id != s.ns[q].id;
    match call
    case Rename(from, to) => EndByRename(s, from, to, s', q, d);
    case CreateOver(path) => EndByCreate(s, path, s', q);
    case _ =>
  }

  lemma {:induction false} EndByCreate(s: State, path: Str, s': State, q: Str)
    requires Good(s) && Step(s, CreateOver(path), s') && s' != s
    requires q in s.ns && !Alive(s', s.ns[q].id)
    ensures q in s'.ns <==> s'.next > s.next
    ensures s'.t == s.t
  {
    var ns :| Overwritten(s, ns, s', Canonicalise(path));
    if q in s'.ns { assert s'.ns[q].id != s.ns[q].id; }
  }

  lemma {:induction false} EndByRename(s: State, from: Str, to: Str, s': State, q: Str, d: int)
    requires Good(s) && Step(s, Rename(from, to), s')
    requires q in s.ns && q in s.t.a && s.t.a[q] == d && d > FIRST
    requires !Alive(s', s.ns[q].id)
    ensures Resolved(s'.t, d) == Some(q)
    ensures var op, np := Canonicalise(from), Canonicalise(to);
            q in s'.ns <==> AtOrUnder(q, np) && Image(q, np, op) in s.ns
  {
    var op, np, obj := Canonicalise(from), Canonicalise(to), s.ns[q].id;
    var there := if AtOrUnder(q, op) then Image(q, op, np) else q;
    assert there in s'.ns ==> s'.ns[there].id != obj;
    assert q in s'.ns ==> s'.ns[q].id != obj;
    assert Step(s, Rename(from, to), s') && s' != s && op != np;
    assert Inv(s.t) && Moved(s.ns, s'.ns, op, np);
    assert Current(s.t, d) && s.t.b[d] == q;
    hide Good, Inv, Canonicalise, Step, Moved;
    MovedAway(s.ns, s'.ns, op, np, q);
    LeadsTo(s, Rename(from, to), s', d);
  }

  // What a move leaves at q, and where it takes what was there.
  lemma {:induction false} MovedAway(ns: Tree, ns': Tree, op: Str, np: Str, q: Str)
    requires Moved(ns, ns', op, np) && op != np
    ensures if AtOrUnder(q, op) then
              q !in ns' && !AtOrUnder(q, np) && At(ns', Image(q, op, np)) == At(ns, q)
            else if AtOrUnder(q, np) then At(ns', q) == At(ns, Image(q, np, op))
            else At(ns', q) == At(ns, q)
  {
    if AtOrUnder(q, op) {
      UnrelatedSubtrees(q, op, np);
      ImageRoundTrip(q, op, np);
      var there := Image(q, op, np);
      if AtOrUnder(there, op) { SharedDescendant(there, op, np); }
    }
  }

  // A call that succeeds and puts an object at the path id d leads to, whether there was one or not:
  // a creation there, or a rename that brings something along.
  ghost predicate Brings(s: State, call: Call, s': State, d: int) {
    && d in s.t.b && s' != s
    && var q := s.t.b[d];
       match call
       case Create(path, _) => q == Canonicalise(path)
       case CreateOver(path) => q == Canonicalise(path) && s'.next > s.next
       case Rename(from, to) =>
         var op, np := Canonicalise(from), Canonicalise(to);
         op != np && AtOrUnder(q, np) && Image(q, np, op) in s.ns
       case _ => false
  }

  ghost function Newcomer(s: State, call: Call, s': State, d: int): nat
    requires Brings(s, call, s', d)
  {
    match call
    case Rename(from, to) => s.ns[Image(s.t.b[d], Canonicalise(to), Canonicalise(from))].id
    case _ => s.next
  }

  // After any call id d names what the call brought to its path; if it brought nothing, what d named
  // before, or nothing.
  lemma {:induction false} NamesNext(s: State, call: Call, s': State, d: int)
    requires Good(s) && Step(s, call, s') && d in s.t.b && d > FIRST
    ensures if Brings(s, call, s', d) then Names(s', d) == Some(Newcomer(s, call, s', d))
            else Names(s', d) == None || Names(s', d) == Names(s, d)
  {
    if s' != s {
      LeadsTo(s, call, s', d);
      match call
      case Readdir(path, names) =>
      case Rename(from, to) => RenameBrings(s, from, to, s', d);
      case CreateOver(path) => CreateOverBrings(s, path, s', d);
      case _ =>
    }
  }

  // So an id that names nothing starts to name something exactly by a CREATE, MKDIR or RENAME that
  // brings it, and never by LOOKUP, READDIR, REMOVE or RMDIR.
  lemma {:induction false} ComesBack(s: State, call: Call, s': State, d: int)
    requires Good(s) && Step(s, call, s') && d in s.t.b && d > FIRST && Names(s, d) == None
    ensures Names(s', d).Some? <==> Brings(s, call, s', d)
  {
    hide Good, Step, Brings;
    NamesNext(s, call, s', d);
  }

  lemma {:induction false} CreateOverBrings(s: State, path: Str, s': State, d: int)
    requires Good(s) && Step(s, CreateOver(path), s') && s' != s && d in s.t.b && d > FIRST
    ensures var q := s.t.b[d];
            if q == Canonicalise(path) then
              if s'.next > s.next then q in s'.ns && s'.ns[q].id == s.next else q !in s'.ns
            else (q in s'.ns <==> q in s.ns) && (q in s.ns ==> s'.ns[q] == s.ns[q])
    ensures s'.t == s.t
  {
    var ns :| Overwritten(s, ns, s', Canonicalise(path));
  }

  function IdAt(ns: Tree, q: Str): Option<nat> {
    if q in ns then Some(ns[q].id) else None
  }

  lemma {:induction false} NamesIs(s: State, d: int)
    requires d in s.t.b && d > FIRST
    ensures Names(s, d) == IdAt(s.ns, s.t.b[d])
  {
  }

  // What a move makes of a path that stays, or that goes along.
  lemma {:induction false} MoveBrings(ns: Tree, ns': Tree, op: Str, np: Str, q: Str, q': Str)
    requires Moved(ns, ns', op, np)
    requires q' == q || (AtOrUnder(q, op) && q' == Image(q, op, np))
    ensures if op != np && AtOrUnder(q, np) && Image(q, np, op) in ns
            then IdAt(ns', q') == IdAt(ns, Image(q, np, op))
            else IdAt(ns', q') == None || IdAt(ns', q') == IdAt(ns, q)
  {
    if op == np {
      assert AtOrUnder(q, op) ==> Image(q, op, op) == q;
    } else {
      MovedAway(ns, ns', op, np, q);
      hide Moved, AtOrUnder;
    }
  }

  lemma {:induction false} RenameBrings(s: State, from: Str, to: Str, s': State, d: int)
    requires Good(s) && Step(s, Rename(from, to), s') && s' != s && d in s.t.b && d > FIRST
    requires d in s'.t.b && s'.t.b[d] == Led(s, Rename(from, to), d)
    ensures var op, np, q := Canonicalise(from), Canonicalise(to), s.t.b[d];
            if op != np && AtOrUnder(q, np) && Image(q, np, op) in s.ns
            then Names(s', d) == Some(s.ns[Image(q, np, op)].id)
            else Names(s', d) == None || Names(s', d) == Names(s, d)
  {
    var op, np, q := Canonicalise(from), Canonicalise(to), s.t.b[d];
    assert Moved(s.ns, s'.ns, op, np) && op in s.ns;
    assert s'.t.b[d] == LedBy(s.t, op, np, s.ns[op].isDir, d);
    hide Good, Step, Canonicalise, Led, Moved, Current, Names;
    NamesIs(s, d);
    NamesIs(s', d);
    MoveBrings(s.ns, s'.ns, op, np, q, s'.t.b[d]);
  }

  // Nothing but its object.
  ghost predicate NamesAtMost(s: State, d: int, obj: nat) {
    Names(s, d) == Some(obj) || Names(s, d) == None
  }

  lemma {:induction false} NewcomerIsAnother(s: State, call: Call, s': State, d: int, obj: nat)
    requires Good(s) && Step(s, call, s') && Brings(s, call, s', d) && d > FIRST
    requires Bound(s, d, obj) && obj < s.next
    ensures Newcomer(s, call, s', d) != obj
  {
    match call
    case Rename(from, to) =>
      var op, np, q := Canonicalise(from), Canonicalise(to), s.t.b[d];
      assert Moved(s.ns, s'.ns, op, np);
      hide Good, Step, Canonicalise;
      ImageRoundTrip(q, np, op);
      UnrelatedSubtrees(Image(q, np, op), op, np);
    case _ =>
  }

  ghost predicate NamesAtMostOver(states: seq<State>, i: nat, j: nat, d: int, obj: nat)
    requires j < |states|
  {
    forall k :: i <= k <= j ==> NamesAtMost(states[k], d, obj)
  }

  ghost predicate NoneBrings(states: seq<State>, calls: seq<Call>, i: nat, j: nat, d: int)
    requires j <= |calls| && |states| == |calls| + 1
  {
    forall k :: i <= k < j ==> !Brings(states[k], calls[k], states[k + 1], d)
  }

  // Over a run: from the moment i at which object obj carries id d, up to j, the id never names
  // anything else exactly when no call in between brings an object to the path it then leads to.
  lemma {:induction false} HandleTakenOver(states: seq<State>, calls: seq<Call>, i: nat, j: nat, p: Str, d: int)
    requires Run(states, calls) && i <= j < |states|
    requires p in states[i].ns && p in states[i].t.a && states[i].t.a[p] == d && d > FIRST
    ensures NamesAtMostOver(states, i, j, d, states[i].ns[p].id) <==> NoneBrings(states, calls, i, j, d)
  {
    var obj := states[i].ns[p].id;
    FollowedAt(states, calls, i, i, p, d);
    forall k | i <= k <= j
      ensures Handled(states[k], d, obj)
    {
      FollowedAt(states, calls, i, k, p, d);
    }
    hide Step;
    TakenOverFrom(states, calls, i, j, d, obj);
  }

  // Id d was given out for obj at some time before.
  ghost predicate Handled(s: State, d: int, obj: nat) {
    Good(s) && d in s.t.b && d > FIRST && Bound(s, d, obj) && obj < s.next
  }

  lemma {:induction false} TakenOverFrom(states: seq<State>, calls: seq<Call>, i: nat, j: nat, d: int, obj: nat)
    requires Trace(states, calls) && i <= j < |states|
    requires forall k :: i <= k <= j ==> Handled(states[k], d, obj)
    requires NamesAtMost(states[i], d, obj)
    ensures NamesAtMostOver(states, i, j, d, obj) <==> NoneBrings(states, calls, i, j, d)
    decreases j - i
  {
    hide Step, Brings, NamesAtMost, Handled;
    if i < j {
      TakenOverFrom(states, calls, i, j - 1, d, obj);
      StepAt(states, calls, j - 1);
      NamesAtMostMore(states, i, j, d, obj);
      NoneBringsMore(states, calls, i, j, d);
      hide Trace, NamesAtMostOver, NoneBrings;
      if NamesAtMost(states[j - 1], d, obj) { TakeOver(states[j - 1], calls[j - 1], states[j], d, obj); }
    }
  }

  lemma {:induction false} StepAt(states: seq<State>, calls: seq<Call>, k: nat)
    requires Trace(states, calls) && k < |calls|
    ensures Step(states[k], calls[k], states[k + 1])
  {
  }

  // One call: a handle that names at most its object is taken over exactly by a call that brings another.
  lemma {:induction false} TakeOver(s: State, call: Call, s': State, d: int, obj: nat)
    requires Handled(s, d, obj) && Step(s, call, s') && NamesAtMost(s, d, obj)
    ensures NamesAtMost(s', d, obj) <==> !Brings(s, call, s', d)
  {
    hide Good, Step, Bound, Brings, Names, Newcomer;
    NamesNext(s, call, s', d);
    if Brings(s, call, s', d) { NewcomerIsAnother(s, call, s', d, obj); }
  }

  lemma {:induction false} NamesAtMostMore(states: seq<State>, i: nat, j: nat, d: int, obj: nat)
    requires i < j < |states|
    ensures NamesAtMostOver(states, i, j, d, obj) <==>
            NamesAtMostOver(states, i, j - 1, d, obj) && NamesAtMost(states[j], d, obj)
    ensures NamesAtMostOver(states, i, j - 1, d, obj) ==> NamesAtMost(states[j - 1], d, obj)
  {
    hide NamesAtMost;
  }

  lemma {:induction false} NoneBringsMore(states: seq<State>, calls: seq<Call>, i: nat, j: nat, d: int)
    requires i < j <= |calls| && |states| == |calls| + 1
    ensures NoneBrings(states, calls, i, j, d) <==>
            NoneBrings(states, calls, i, j - 1, d) && !Brings(states[j - 1], calls[j - 1], states[j], d)
  {
    hide Brings;
  }

  lemma {:induction false} FollowedAt(states: seq<State>, calls: seq<Call>, i: nat, j: nat, p: Str, d: int)
    requires Run(states, calls) && i <= j < |states|
    requires p in states[i].ns && p in states[i].t.a && states[i].t.a[p] == d && d > FIRST
    ensures Good(states[j]) && Bound(states[j], d, states[i].ns[p].id) && states[i].ns[p].id < states[j].next
    ensures d in states[j].t.b
    ensures i == j ==> Names(states[i], d) == Some(states[i].ns[p].id)
  {
    HandlesFollowObjects(states, calls, i, j, p, d);
    EveryRun(states, calls);
    assert Good(states[0]) && Good(states[i]) && Good(states[j]);
    assert Follows(states[i], d, states[i].ns[p].id);
    hide Step;
    StillLeads(states, calls, i, j, d);
    TraceFollows(states, calls, i, j, d, states[i].ns[p].id);
  }

  ghost predicate SilentOver(states: seq<State>, i: nat, j: nat, d: int)
    requires j < |states|
  {
    forall k :: i <= k <= j ==> Names(states[k], d) == None
  }

  // And an id that names nothing goes on naming nothing exactly until such a call.
  lemma {:induction false} SilentUntil(states: seq<State>, calls: seq<Call>, i: nat, j: nat, d: int)
    requires Trace(states, calls) && Good(states[0]) && i <= j < |states|
    requires d in states[i].t.b && d > FIRST && Names(states[i], d) == None
    ensures SilentOver(states, i, j, d) <==> NoneBrings(states, calls, i, j, d)
    decreases j - i
  {
    hide Good, Step, Brings, Names, Newcomer;
    if i < j {
      SilentUntil(states, calls, i, j - 1, d);
      StillLeads(states, calls, i, j - 1, d);
      TraceKeepsGood(states, calls, j - 1);
      var s, call, s' := states[j - 1], calls[j - 1], states[j];
      assert Step(s, call, s');
      assert SilentOver(states, i, j, d) <==> SilentOver(states, i, j - 1, d) && Names(s', d) == None;
      assert SilentOver(states, i, j - 1, d) ==> Names(s, d) == None;
      NoneBringsMore(states, calls, i, j, d);
      hide Trace, SilentOver, NoneBrings;
      NamesNext(s, call, s', d);
    }
  }

  lemma {:induction false} StillLeads(states: seq<State>, calls: seq<Call>, i: nat, j: nat, d: int)
    requires Trace(states, calls) && Good(states[0]) && i <= j < |states|
    requires d in states[i].t.b && d > FIRST
    ensures d in states[j].t.b
    decreases j - i
  {
    hide Good, Step, Led;
    if i < j {
      StillLeads(states, calls, i, j - 1, d);
      TraceKeepsGood(states, calls, j - 1);
      assert Step(states[j - 1], calls[j - 1], states[j]);
      StepLeads(states[j - 1], calls[j - 1], states[j], d);
    }
  }

  lemma {:induction false} StepLeads(s: State, call: Call, s': State, d: int)
    requires Good(s) && Step(s, call, s') && d in s.t.b && d > FIRST
    ensures d in s'.t.b
  {
    hide Good, Led;
    if s' != s { LeadsTo(s, call, s', d); }
  }

  // For instance: from any state with a file at a path that carries id d, REMOVE and CREATE of the
  // same name leave d naming the new file.
  lemma {:induction false} HandleReused(s: State, path: Str, d: int)
    requires Good(s)
    requires var p := Canonicalise(path);
             && p in s.ns && p != ROOT && !s.ns[p].isDir
             && p in s.t.a && s.t.a[p] == d && d > FIRST
    ensures exists gone, again ::
              && Step(s, Call.Remove(path), gone) && Step(gone, Create(path, false), again)
              && Names(s, d) == Some(s.ns[Canonicalise(path)].id)
              && Names(gone, d) == None
              && Names(again, d) == Some(s.next)
  {
    var p := Canonicalise(path);
    hide Canonicalise, Canonical, KeysCanonical;
    var gone := s.(ns := s.ns - {p});
    var again := State(gone.ns[p := Obj(s.next, false)], s.next + 1, s.t);
    assert !Under(p, p);
    assert Removed(s.ns, gone.ns, p);
    assert Created(gone.ns, s.next, again.ns, p, false);
    assert Step(s, Call.Remove(path), gone);
    assert Step(gone, Create(path, false), again);
  }
}

// The Go side as one state machine: the tree of objects together with the handle table, stepped
// by the exported functions. Each receives raw C strings and canonicalises them first.
module Server {
  import opened Bytes
  import opened Paths
  import opened HandleTable
  import opened Namespace

  datatype State = State(ns: Tree, next: nat, t: Table)

  datatype Call =
    | Lstat(path: Str)
    | Readdir(path: Str, names: seq<Str>)
    | Create(path: Str, isDir: bool)
    | CreateOver(path: Str)
    | Remove(path: Str)
    | Rename(from: Str, to: Str)

  ghost predicate Initial(s: State) {
    WellFormed(s.ns, s.next) && s.t == EMPTY
  }

  // READDIR gives every name it lists an id.
  function TrackAll(t: Table, dir: Str, names: seq<Str>): Table
    decreases |names|
  {
    if names == [] then t
    else
      var front := names[..|names| - 1];
      Tracked(TrackAll(t, dir, front), Clean(dir + [SLASH] + names[|names| - 1]))
  }

  // An existing plain file goes first, then a new one is made; either may be as far as it gets.
  ghost predicate Overwritten(s: State, ns: Tree, s': State, p: Str) {
    && (ns == s.ns || (Removed(s.ns, ns, p) && !s.ns[p].isDir))
    && ((s'.ns == ns && s'.next == s.next) || (Created(ns, s.next, s'.ns, p, false) && s'.next == s.next + 1))
  }

  // Tree and table after a successful rename.
  ghost predicate Renames(s: State, s': State, from: Str, to: Str) {
    var op, np := Canonicalise(from), Canonicalise(to);
    && Moved(s.ns, s'.ns, op, np)
    && Replaced(s.t, s'.t, op, np, s.ns[op].isDir)
    && s'.next == s.next
  }

  // A call either fails and changes nothing, or does what the predicate says.
  ghost predicate Step(s: State, call: Call, s': State) {
    s' == s || match call
      case Lstat(path) =>
        s' == s.(t := Tracked(s.t, Canonicalise(path)))
      case Readdir(path, names) =>
        && (forall n :: n in names ==> SLASH !in n)
        && s' == s.(t := TrackAll(s.t, Canonicalise(path), names))
      case Create(path, isDir) =>
        && Created(s.ns, s.next, s'.ns, Canonicalise(path), isDir)
        && s'.next == s.next + 1 && s'.t == s.t
      case CreateOver(path) =>
        && s'.t == s.t
        && exists ns :: Overwritten(s, ns, s', Canonicalise(path))
      case Remove(path) =>
        && Removed(s.ns, s'.ns, Canonicalise(path))
        && s'.next == s.next && s'.t == s.t
      case Rename(from, to) =>
        Renames(s, s', from, to)
  }

  ghost predicate Trace(states: seq<State>, calls: seq<Call>) {
    && |states| == |calls| + 1
    && forall i :: 0 <= i < |calls| ==> Step(states[i], calls[i], states[i + 1])
  }

  ghost predicate Run(states: seq<State>, calls: seq<Call>) {
    Trace(states, calls) && Initial(states[0])
  }

  // Every key the server puts in the table is a canonical absolute path.
  ghost predicate KeysCanonical(t: Table) {
    && (forall p :: p in t.a ==> Canonical(p))
    && (forall d :: d in t.b ==> Canonical(t.b[d]))
  }

  ghost predicate Good(s: State) {
    WellFormed(s.ns, s.next) && Inv(s.t) && KeysCanonical(s.t)
  }

  lemma {:induction false} TwoCalls(a: State, b: State, c: State, calls: seq<Call>)
    requires |calls| == 2 && Step(a, calls[0], b) && Step(b, calls[1], c)
    ensures Trace([a, b, c], calls)
  {
    hide Step;
  }

  lemma {:induction false} FiveCalls(trace: seq<State>, calls: seq<Call>)
    requires |calls| == 5 && |trace| == 6
    requires Step(trace[0], calls[0], trace[1]) && Step(trace[1], calls[1], trace[2])
    requires Step(trace[2], calls[2], trace[3]) && Step(trace[3], calls[3], trace[4])
    requires Step(trace[4], calls[4], trace[5])
    ensures Trace(trace, calls)
  {
    hide Step;
  }

  lemma {:induction false} FourCalls(trace: seq<State>, calls: seq<Call>)
    requires |calls| == 4 && |trace| == 5
    requires Step(trace[0], calls[0], trace[1]) && Step(trace[1], calls[1], trace[2])
    requires Step(trace[2], calls[2], trace[3]) && Step(trace[3], calls[3], trace[4])
    ensures Trace(trace, calls)
  {
    hide Step;
  }

  // ------------------------------------------------------------------ keys stay canonical

  lemma {:induction false} VisitCanonical(t: Table, p: Str, old_: Str, new_: Str)
    requires KeysCanonical(t) && p in t.a && Canonical(old_) && Canonical(new_)
    requires new_ == ROOT ==> old_ == ROOT
    ensures KeysCanonical(Visit(t, p, old_, new_))
  {
    if Under(p, old_) {
      var ds :| Components(ds) && p == Render(ds);
      NothingUnderRoot(ds);
      ImageCanonical(p, old_, new_);
      ReplaceIsImage(p, old_, new_);
    }
  }

  lemma {:induction false} RunCanonical(run: seq<Range>, old_: Str, new_: Str)
    requires RangeRun(run, old_, new_) && KeysCanonical(run[0].t)
    requires Canonical(old_) && Canonical(new_) && (new_ == ROOT ==> old_ == ROOT)
    ensures KeysCanonical(run[|run| - 1].t)
  {
    if |run| > 1 {
      var front := run[..|run| - 1];
      RunCanonical(front, old_, new_);
      var s, s' := run[|run| - 2], run[|run| - 1];
      assert RangeStep(s, s', old_, new_);
      var p :| p in s.pending + s.born && p in s.t.a && s' == Next(s, p, old_, new_);
      VisitCanonical(s.t, p, old_, new_);
    }
  }

  lemma {:induction false} ReplacedCanonical(t: Table, t': Table, old_: Str, new_: Str, isDir: bool)
    requires KeysCanonical(t) && Replaced(t, t', old_, new_, isDir)
    requires Canonical(old_) && Canonical(new_) && (new_ == ROOT ==> old_ == ROOT)
    ensures KeysCanonical(t')
  {
    if isDir {
      var start := Rekey(t, old_, new_);
      var run :| CompleteRun(run, start, t', old_, new_);
      RunCanonical(run, old_, new_);
    }
  }

  // ------------------------------------------------------------------ tracking changes no id

  lemma {:induction false} TrackAllKeeps(t: Table, dir: Str, names: seq<Str>)
    requires Inv(t) && KeysCanonical(t) && Canonical(dir)
    requires forall n :: n in names ==> SLASH !in n
    ensures var t' := TrackAll(t, dir, names);
            && Inv(t') && KeysCanonical(t') && t'.counter >= t.counter
            && (forall p :: p in t.a ==> p in t'.a && t'.a[p] == t.a[p])
            && (forall n :: n in names ==> Clean(dir + [SLASH] + n) in t'.a)
    decreases |names|
  {
    if names != [] {
      var front, last := names[..|names| - 1], names[|names| - 1];
      assert names == front + [last];
      hide Clean, Canonical, Inv, KeysCanonical, Tracked;
      TrackAllKeeps(t, dir, front);
      TrackedKeeps(TrackAll(t, dir, front), dir + [SLASH] + last);
    }
  }

  lemma {:induction false} TrackedKeeps(t: Table, raw: Str)
    requires Inv(t) && KeysCanonical(t)
    ensures var t' := Tracked(t, Clean(raw));
            && Inv(t') && KeysCanonical(t') && t'.counter >= t.counter && Clean(raw) in t'.a
            && (forall p :: p in t.a ==> p in t'.a && t'.a[p] == t.a[p])
  {
    CleanIsCanonical(raw);
    IssueKeeps(t, Clean(raw));
    hide Clean, Canonical, Agree;
  }

  lemma {:induction false} CanonicaliseIsCanonical(raw: Str)
    ensures Canonical(Canonicalise(raw))
  {
    CleanIsCanonical([SLASH] + raw);
  }

  lemma {:induction false} RenameKeepsGood(s: State, from: Str, to: Str, s': State)
    requires Good(s) && Step(s, Rename(from, to), s')
    ensures Good(s')
  {
    var op, np := Canonicalise(from), Canonicalise(to);
    if s' != s {
      CanonicaliseIsCanonical(from);
      CanonicaliseIsCanonical(to);
      MovedKeeps(s.ns, s.next, s'.ns, op, np);
      ReplacedKeeps(s.t, s'.t, op, np, s.ns[op].isDir);
      ReplacedCanonical(s.t, s'.t, op, np, s.ns[op].isDir);
    }
  }

  lemma {:induction false} CreateOverKeepsGood(s: State, path: Str, s': State)
    requires Good(s) && Step(s, CreateOver(path), s')
    ensures Good(s') && s'.next >= s.next && s'.t == s.t
    ensures forall q, x :: x in s.ns && q in s'.ns && s.ns[x].id == s'.ns[q].id ==> x == q
  {
    hide KeysCanonical, Inv;
    if s' != s {
      var pp := Canonicalise(path);
      var ns :| Overwritten(s, ns, s', pp);
      hide Canonicalise;
      OverwrittenKeeps(s, ns, s', pp);
      OverwrittenIds(s, ns, s', pp);
    }
  }

  lemma {:induction false} OverwrittenKeeps(s: State, ns: Tree, s': State, p: Str)
    requires WellFormed(s.ns, s.next) && Overwritten(s, ns, s', p)
    ensures WellFormed(s'.ns, s'.next) && s'.next >= s.next
  {
    hide WellFormed;
    if ns != s.ns { RemovedKeeps(s.ns, s.next, ns, p); }
    if s'.ns != ns { CreatedKeeps(ns, s.next, s'.ns, p, false); }
  }

  // The new file, if any, has an identity of its own.
  lemma {:induction false} OverwrittenIds(s: State, ns: Tree, s': State, p: Str)
    requires WellFormed(s.ns, s.next) && Overwritten(s, ns, s', p)
    ensures forall q, x :: x in s.ns && q in s'.ns && s.ns[x].id == s'.ns[q].id ==> x == q
  {
    hide Canonical, Placeable;
  }

  lemma {:induction false} StepKeepsGood(s: State, call: Call, s': State)
    requires Good(s) && Step(s, call, s')
    ensures Good(s') && s'.next >= s.next
  {
    match call
    case Lstat(path) =>
      CanonicaliseIsCanonical(path);
      IssueKeeps(s.t, Canonicalise(path));
    case Readdir(path, names) =>
      CanonicaliseIsCanonical(path);
      if s' != s { TrackAllKeeps(s.t, Canonicalise(path), names); }
    case Create(path, isDir) =>
      if s' != s { CreatedKeeps(s.ns, s.next, s'.ns, Canonicalise(path), isDir); }
    case CreateOver(path) =>
      CreateOverKeepsGood(s, path, s');
    case Remove(path) =>
      if s' != s { RemovedKeeps(s.ns, s.next, s'.ns, Canonicalise(path)); }
    case Rename(from, to) =>
      RenameKeepsGood(s, from, to, s');
  }

  lemma {:induction false} TraceKeepsGood(states: seq<State>, calls: seq<Call>, i: nat)
    requires Trace(states, calls) && Good(states[0]) && i < |states|
    ensures Good(states[i]) && states[i].next >= states[0].next
  {
    hide Step, Good;
    if i > 0 {
      TraceKeepsGood(states, calls, i - 1);
      assert Step(states[i - 1], calls[i - 1], states[i]);
      StepKeepsGood(states[i - 1], calls[i - 1], states[i]);
    }
  }

  lemma {:induction false} EveryRun(states: seq<State>, calls: seq<Call>)
    requires Run(states, calls)
    ensures forall i :: 0 <= i < |states| ==> Good(states[i])
  {
    assert Good(states[0]);
    hide Good, Step;
    forall i | 0 <= i < |states|
      ensures Good(states[i])
    {
      TraceKeepsGood(states, calls, i);
    }
  }

  // ------------------------------------------------------------------ handles follow objects

  // Id d belongs to the path of object `obj`, wherever that is now; nothing is said once the
  // object is gone.
  ghost predicate Follows(s: State, d: int, obj: nat) {
    forall q :: q in s.ns && s.ns[q].id == obj ==> q in s.t.a && s.t.a[q] == d
  }

  lemma {:induction false} RenameFollows(s: State, from: Str, to: Str, s': State, d: int, obj: nat)
    requires Good(s) && Step(s, Rename(from, to), s')
    requires Follows(s, d, obj)
    ensures Follows(s', d, obj)
  {
    var op, np := Canonicalise(from), Canonicalise(to);
    if s' == s {
    } else if op == np {
      SelfRename(s.t, s'.t, op, s.ns[op].isDir);
    } else {
      forall q | q in s'.ns && s'.ns[q].id == obj
        ensures q in s'.t.a && s'.t.a[q] == d
      {
        var o := Origin(q, op, np);
        assert o in s.ns && s.ns[o].id == obj;
        if AtOrUnder(q, np) { ImageRoundTrip(q, np, op); }
        if s.ns[op].isDir {
          ReplaceIsSubstitution(s.t, s'.t, op, np);
          if q == np { assert Image(np, np, op) == op; }
        } else {
          assert !Under(o, op);
          if q == np { assert Image(np, np, op) == op; }
        }
      }
    }
  }

  lemma {:induction false} StepFollows(s: State, call: Call, s': State, d: int, obj: nat)
    requires Good(s) && Step(s, call, s') && obj < s.next
    requires Follows(s, d, obj)
    ensures Follows(s', d, obj)
  {
    match call
    case Readdir(path, names) =>
      CanonicaliseIsCanonical(path);
      if s' != s { TrackAllKeeps(s.t, Canonicalise(path), names); }
    case Rename(from, to) => RenameFollows(s, from, to, s', d, obj);
    case CreateOver(path) => CreateOverFollows(s, path, s', d, obj);
    case _ =>
  }

  lemma {:induction false} CreateOverFollows(s: State, path: Str, s': State, d: int, obj: nat)
    requires Good(s) && Step(s, CreateOver(path), s') && obj < s.next
    requires Follows(s, d, obj)
    ensures Follows(s', d, obj)
  {
    forall q | q in s'.ns && s'.ns[q].id == obj
      ensures q in s'.t.a && s'.t.a[q] == d
    {
      assert q in s.ns && s.ns[q].id == obj;
    }
  }

  lemma {:induction false} TraceFollows(states: seq<State>, calls: seq<Call>, i: nat, j: nat, d: int, obj: nat)
    requires Trace(states, calls) && Good(states[0]) && i <= j < |states|
    requires obj < states[i].next && Follows(states[i], d, obj)
    ensures Follows(states[j], d, obj) && obj < states[j].next
    decreases j - i
  {
    hide Step, Good, Follows;
    if i < j {
      TraceFollows(states, calls, i, j - 1, d, obj);
      var s, call, s' := states[j - 1], calls[j - 1], states[j];
      TraceKeepsGood(states, calls, j - 1);
      assert Step(s, call, s');
      StepFollows(s, call, s', d, obj);
      StepKeepsGood(s, call, s');
    }
  }

  // The object id d names: the one at the path d resolves to.
  ghost function Names(s: State, d: int): Option<nat> {
    match Resolved(s.t, d)
    case None => None
    case Some(p) => if p in s.ns then Some(s.ns[p].id) else None
  }

  ghost predicate Alive(s: State, obj: nat) {
    exists q :: q in s.ns && s.ns[q].id == obj
  }

  // What a handle promises in state s: if object obj still exists, at q say, then d resolves to q
  // and is q's id; so d names that very object exactly as long as it exists.
  ghost predicate Bound(s: State, d: int, obj: nat) {
    && (forall q :: q in s.ns && s.ns[q].id == obj ==>
          Resolved(s.t, d) == Some(q) && q in s.t.a && s.t.a[q] == d)
    && (Names(s, d) == Some(obj) <==> Alive(s, obj))
  }

  lemma {:induction false} FollowsIsBound(s: State, d: int, obj: nat)
    requires Good(s) && Follows(s, d, obj) && d > FIRST
    ensures Bound(s, d, obj)
  {
    forall q | q in s.ns && s.ns[q].id == obj
      ensures Resolved(s.t, d) == Some(q) && q in s.t.a && s.t.a[q] == d
    {
    }
  }

  // Take any run, and any moment i at which path p holds an object and carries id d. At every
  // later moment d is bound to that object.
  lemma {:induction false} HandlesFollowObjects(states: seq<State>, calls: seq<Call>, i: nat, j: nat, p: Str, d: int)
    requires Run(states, calls) && i <= j < |states|
    requires p in states[i].ns && p in states[i].t.a && states[i].t.a[p] == d && d > FIRST
    ensures Bound(states[j], d, states[i].ns[p].id)
  {
    var obj := states[i].ns[p].id;
    EveryRun(states, calls);
    assert Follows(states[i], d, obj);
    assert Good(states[0]) && Good(states[i]) && Good(states[j]);
    hide Step;
    TraceFollows(states, calls, i, j, d, obj);
    FollowsIsBound(states[j], d, obj);
  }

  // A server at work: one procedure after the other, each of them several calls.
  ghost predicate Session(traces: seq<seq<State>>, calls: seq<seq<Call>>) {
    && |traces| == |calls|
    && (forall k :: 0 <= k < |traces| ==> traces[k] != [] && Trace(traces[k], calls[k]))
    && (traces != [] ==> Initial(traces[0][0]))
    && (forall k :: 0 < k < |traces| ==> traces[k][0] == Last(traces[k - 1]))
  }

  ghost function Last(trace: seq<State>): State
    requires trace != []
  {
    trace[|trace| - 1]
  }

  lemma {:induction false} SessionAt(traces: seq<seq<State>>, calls: seq<seq<Call>>, k: nat)
    requires Session(traces, calls) && k < |traces|
    ensures |traces| == |calls| && traces[k] != [] && Trace(traces[k], calls[k])
    ensures if k == 0 then Initial(traces[0][0]) else traces[k - 1] != [] && traces[k][0] == Last(traces[k - 1])
  {
    assert Trace(traces[k], calls[k]);
    assert k > 0 ==> Trace(traces[k - 1], calls[k - 1]);
  }

  lemma {:induction false} SessionKeepsGood(traces: seq<seq<State>>, calls: seq<seq<Call>>, k: nat)
    requires Session(traces, calls) && k < |traces|
    ensures traces[k] != [] && Trace(traces[k], calls[k]) && Good(traces[k][0])
  {
    SessionAt(traces, calls, k);
    hide Step, Session, Trace;
    if k > 0 {
      hide Good, Initial;
      SessionKeepsGood(traces, calls, k - 1);
      TraceKeepsGood(traces[k - 1], calls[k - 1], |traces[k - 1]| - 1);
    }
  }

  lemma {:induction false} SessionFollows(traces: seq<seq<State>>, calls: seq<seq<Call>>, m: nat, k: nat, d: int,
                                          obj: nat)
    requires Session(traces, calls) && m <= k < |traces|
    requires obj < traces[m][0].next && Follows(traces[m][0], d, obj)
    ensures Follows(traces[k][0], d, obj) && obj < traces[k][0].next
    decreases k - m
  {
    hide Follows, Good, Step, Session, Trace;
    if m < k {
      SessionAt(traces, calls, k);
      SessionKeepsGood(traces, calls, k - 1);
      SessionFollows(traces, calls, m, k - 1, d, obj);
      TraceFollows(traces[k - 1], calls[k - 1], 0, |traces[k - 1]| - 1, d, obj);
    }
  }

  // The same promise over any sequence of procedures, kept from the start of one to any moment
  // within a later one.
  lemma {:induction false} HandlesFollowThroughProcedures(traces: seq<seq<State>>, calls: seq<seq<Call>>, m: nat,
                                                          k: nat, j: nat, p: Str, d: int)
    requires Session(traces, calls) && m <= k < |traces| && j < |traces[k]|
    requires var s := traces[m][0]; p in s.ns && p in s.t.a && s.t.a[p] == d && d > FIRST
    ensures Bound(traces[k][j], d, traces[m][0].ns[p].id)
  {
    var obj := traces[m][0].ns[p].id;
    SessionKeepsGood(traces, calls, m);
    assert Follows(traces[m][0], d, obj) && obj < traces[m][0].next;
    hide Good, Step, Follows, Session;
    SessionFollows(traces, calls, m, k, d, obj);
    SessionKeepsGood(traces, calls, k);
    TraceFollows(traces[k], calls[k], 0, j, d, obj);
    TraceKeepsGood(traces[k], calls[k], j);
    FollowsIsBound(traces[k][j], d, obj);
  }

  // ------------------------------------------------------------------ ids between renames

  lemma {:induction false} IdStays(s: State, call: Call, s': State, p: Str)
    requires Good(s) && Step(s, call, s') && !call.Rename? && p in s.t.a
    ensures p in s'.t.a && s'.t.a[p] == s.t.a[p]
  {
    match call
    case Readdir(path, names) =>
      CanonicaliseIsCanonical(path);
      if s' != s { TrackAllKeeps(s.t, Canonicalise(path), names); }
    case _ =>
  }

  // A path keeps its id for as long as nothing is renamed.
  lemma {:induction false} IdStaysOver(states: seq<State>, calls: seq<Call>, i: nat, j: nat, p: Str)
    requires Trace(states, calls) && Good(states[0]) && i <= j < |states|
    requires forall k :: i <= k < j ==> !calls[k].Rename?
    requires p in states[i].t.a
    ensures p in states[j].t.a && states[j].t.a[p] == states[i].t.a[p]
    decreases j - i
  {
    hide Step, Good;
    if i < j {
      IdStaysOver(states, calls, i, j - 1, p);
      TraceKeepsGood(states, calls, j - 1);
      assert Step(states[j - 1], calls[j - 1], states[j]);
      IdStays(states[j - 1], calls[j - 1], states[j], p);
    }
  }

  // Two live objects never share an id, in any state of any run.
  lemma {:induction false} HandlesTellObjectsApart(states: seq<State>, calls: seq<Call>, j: nat, p: Str, q: Str)
    requires Run(states, calls) && j < |states|
    requires var s := states[j]; p in s.t.a && q in s.t.a && s.t.a[p] == s.t.a[q] > FIRST
    ensures p == q
  {
    EveryRun(states, calls);
    AgreeInjective(states[j].t, p, q);
  }
}

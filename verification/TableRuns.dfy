// Any number of threads using the table at once. GetFD gives up its read lock before it takes
// the write lock, so it is two steps with anything in between; GetPath and ReplacePath hold
// one lock throughout and are one step each.
module TableRuns {
  import opened Bytes
  import opened HandleTable

  // missed: the threads between the two steps of GetFD, with the path each will issue an id for.
  // issued: every id handed out so far, oldest first.
  datatype State = State(t: Table, missed: map<nat, Str>, issued: seq<int>)

  datatype Action =
    | Read(thread: nat, path: Str)
    | Write(thread: nat)
    | GetPath(id: int)
    | Replace(oldpath: Str, newpath: Str, isDir: bool)

  const START := State(EMPTY, map[], [])

  ghost predicate Step(s: State, act: Action, s': State) {
    match act
    case Read(thread, path) =>
      && thread !in s.missed
      && s' == if path in s.t.a then s else s.(missed := s.missed[thread := path])
    case Write(thread) =>
      && thread in s.missed
      && s' == State(Issue(s.t, s.missed[thread]), s.missed - {thread}, s.issued + [s.t.counter + 1])
    case GetPath(_) => s' == s
    case Replace(oldpath, newpath, isDir) =>
      && Replaced(s.t, s'.t, oldpath, newpath, isDir)
      && s'.missed == s.missed && s'.issued == s.issued
  }

  ghost predicate Run(states: seq<State>, acts: seq<Action>) {
    && |states| == |acts| + 1
    && states[0] == START
    && forall i :: 0 <= i < |acts| ==> Step(states[i], acts[i], states[i + 1])
  }

  ghost predicate IdsAmong(t: Table, ids: set<int>) {
    && (forall p :: p in t.a && t.a[p] != 0 ==> t.a[p] in ids)
    && (forall d :: d in t.b && d != 0 ==> d in ids)
  }

  ghost predicate Good(s: State) {
    && Inv(s.t)
    && IdsAmong(s.t, (set d | d in s.issued))
    && (forall i, j :: 0 <= i < j < |s.issued| ==> s.issued[i] < s.issued[j])
    && (forall d :: d in s.issued ==> FIRST < d <= s.t.counter)
  }

  lemma {:induction false} RunIdsAmong(run: seq<Range>, ids: set<int>, old_: Str, new_: Str)
    requires RangeRun(run, old_, new_) && IdsAmong(run[0].t, ids)
    ensures IdsAmong(run[|run| - 1].t, ids)
  {
    if |run| > 1 {
      var front := run[..|run| - 1];
      RunIdsAmong(front, ids, old_, new_);
      assert RangeStep(run[|run| - 2], run[|run| - 1], old_, new_);
    }
  }

  lemma {:induction false} ReplacedIdsAmong(t: Table, t': Table, ids: set<int>, old_: Str, new_: Str, isDir: bool)
    requires IdsAmong(t, ids) && Replaced(t, t', old_, new_, isDir)
    ensures IdsAmong(t', ids)
  {
    if isDir {
      var start := Rekey(t, old_, new_);
      var run :| CompleteRun(run, start, t', old_, new_);
      RunIdsAmong(run, ids, old_, new_);
    }
  }

  lemma {:induction false} StepKeepsGood(s: State, act: Action, s': State)
    requires Good(s) && Step(s, act, s')
    ensures Good(s')
  {
    match act
    case Read(_, _) =>
    case Write(thread) =>
      IssueKeeps(s.t, s.missed[thread]);
      assert forall i :: 0 <= i < |s.issued| ==> s.issued[i] in s.issued;
    case GetPath(_) =>
    case Replace(oldpath, newpath, isDir) =>
      ReplacedKeeps(s.t, s'.t, oldpath, newpath, isDir);
      ReplacedIdsAmong(s.t, s'.t, (set d | d in s.issued), oldpath, newpath, isDir);
  }

  // In every interleaving, and for untracked and overwriting renames too: a path's id above
  // 100 leads back to that path, so no two paths share one; ids only grow and none is handed
  // out twice; and no id is ever in the table that was not handed out, 0 apart.
  lemma {:induction false} EveryInterleaving(states: seq<State>, acts: seq<Action>)
    requires Run(states, acts)
    ensures Good(states[|acts|])
  {
    if |acts| > 0 {
      var n := |acts| - 1;
      EveryInterleaving(states[..n + 1], acts[..n]);
      StepKeepsGood(states[n], acts[n], states[n + 1]);
    }
  }

  // The id a thread is about to be given is greater than every id given out before it, whenever that was.
  lemma {:induction false} FreshIds(states: seq<State>, acts: seq<Action>, i: nat, j: nat)
    requires Run(states, acts) && i < j < |acts|
    requires acts[i].Write? && acts[j].Write?
    ensures states[i].t.counter + 1 < states[j].t.counter + 1
    ensures |states[i + 1].issued| > 0 && states[i + 1].issued <= states[j].issued
  {
    IssuedGrows(states, acts, i + 1, j);
    EveryInterleaving(states[..j + 1], acts[..j]);
    assert Step(states[i], acts[i], states[i + 1]);
    var d := states[i].t.counter + 1;
    assert states[i + 1].issued[|states[i].issued|] == d;
    assert d in states[j].issued;
  }

  lemma {:induction false} IssuedGrows(states: seq<State>, acts: seq<Action>, i: nat, j: nat)
    requires Run(states, acts) && i <= j <= |acts|
    ensures states[i].issued <= states[j].issued
    decreases j - i
  {
    if i < j {
      IssuedGrows(states, acts, i, j - 1);
      assert Step(states[j - 1], acts[j - 1], states[j]);
    }
  }

  // If every rename starts from a path that has an id, no path is ever stuck: in every state,
  // looking a path up and resolving what comes back gives the path.
  lemma {:induction false} TrackedRenames(states: seq<State>, acts: seq<Action>)
    requires Run(states, acts)
    requires forall i :: 0 <= i < |acts| && acts[i].Replace? ==> acts[i].oldpath in states[i].t.a
    ensures TracksAll(states[|acts|].t)
    ensures forall p :: var t' := Tracked(states[|acts|].t, p); p in t'.a && Resolved(t', t'.a[p]) == Some(p)
  {
    if |acts| > 0 {
      var n := |acts| - 1;
      TrackedRenames(states[..n + 1], acts[..n]);
      EveryInterleaving(states[..n + 1], acts[..n]);
      assert Step(states[n], acts[n], states[n + 1]);
      match acts[n]
      case Replace(oldpath, newpath, isDir) =>
        ReplacedTracksAll(states[n].t, states[n + 1].t, oldpath, newpath, isDir);
      case _ =>
    }
    EveryInterleaving(states, acts);
    forall p
      ensures var t' := Tracked(states[|acts|].t, p); p in t'.a && Resolved(t', t'.a[p]) == Some(p)
    {
      LookupRoundTrip(states[|acts|].t, p);
    }
  }

  // The converse does not hold without that: one rename of a path never looked up is enough.
  lemma {:induction false} UntrackedRenameSticks(old_: Str, new_: Str)
    ensures exists states: seq<State>, acts: seq<Action> ::
              && Run(states, acts) && |acts| == 1
              && var t := states[1].t;
                 new_ in t.a && Resolved(Tracked(t, new_), Tracked(t, new_).a[new_]) == None
  {
    var s := START.(t := Rekey(EMPTY, old_, new_));
    var states, acts := [START, s], [Replace(old_, new_, false)];
    assert Step(START, acts[0], s);
    assert Run(states, acts);
    assert states[1].t.a[new_] == 0;
  }

  lemma {:induction false} Race(p: Str) returns (states: seq<State>, acts: seq<Action>)
    ensures Run(states, acts) && |acts| == 4
    ensures states[4].t == Issue(Issue(EMPTY, p), p)
  {
    hide Issue, Replaced;
    acts := [Read(0, p), Read(1, p), Write(0), Write(1)];
    var s1 := START.(missed := map[0 := p]);
    var s2 := START.(missed := map[0 := p, 1 := p]);
    var s3 := State(Issue(EMPTY, p), map[1 := p], [FIRST + 1]);
    var s4 := State(Issue(s3.t, p), map[], [FIRST + 1, s3.t.counter + 1]);
    states := [START, s1, s2, s3, s4];
    assert Step(START, acts[0], s1) && Step(s1, acts[1], s2);
    assert Step(s2, acts[2], s3) by { assert s2.missed - {0} == s3.missed; }
    assert Step(s3, acts[3], s4) by { assert s3.missed - {1} == s4.missed; }
    hide Step;
  }

  // Two threads that miss the same path leave two ids leading to it, of which one is current.
  lemma {:induction false} RaceLeavesTwoIds(p: Str)
    ensures exists states: seq<State>, acts: seq<Action> ::
              && Run(states, acts)
              && var t := states[|acts|].t;
                 && t.a == map[p := FIRST + 2]
                 && t.b == map[FIRST + 1 := p, FIRST + 2 := p]
                 && !Inverse(t)
  {
    var states, acts := Race(p);
    var t := states[4].t;
    assert t.a == map[p := FIRST + 2] && t.b == map[FIRST + 1 := p, FIRST + 2 := p];
    assert t.b[FIRST + 1] == p && t.a[p] == FIRST + 2;
    hide Run;
  }
}

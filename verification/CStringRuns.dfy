// Every path the server works on came as a C string, or from a listing of C strings, so no path in
// the table has a NUL in it and handing it back to C loses nothing.
module CStringRuns {
  import opened Bytes
  import opened Paths
  import opened HandleTable
  import opened Server

  predicate AllNulFree(parts: seq<Str>) {
    forall i :: 0 <= i < |parts| ==> NulFree(parts[i])
  }

  lemma {:induction false} SplitNulFree(s: Str)
    requires NulFree(s)
    ensures AllNulFree(Split(s))
  {
    if s != [] { SplitNulFree(s[1..]); }
  }

  lemma {:induction false} ResolveNulFree(at: seq<Str>, parts: seq<Str>)
    requires AllNulFree(at) && AllNulFree(parts)
    ensures AllNulFree(Resolve(at, parts))
    decreases |parts|
  {
    if parts != [] { ResolveNulFree(Descend(at, parts[0]), parts[1..]); }
  }

  lemma {:induction false} JoinNulFree(cs: seq<Str>)
    requires AllNulFree(cs)
    ensures NulFree(Join(cs))
  {
    if cs != [] { JoinNulFree(cs[1..]); }
  }

  lemma {:induction false} CleanNulFree(p: Str)
    requires NulFree(p)
    ensures NulFree(Clean(p))
  {
    SplitNulFree(p);
    ResolveNulFree([], Split(p));
    JoinNulFree(Resolve([], Split(p)));
  }

  ghost predicate TableNulFree(t: Table) {
    && (forall p :: p in t.a ==> NulFree(p))
    && (forall d :: d in t.b ==> NulFree(t.b[d]))
  }

  predicate FromC(call: Call) {
    match call
    case Lstat(path) => NulFree(path)
    case Readdir(path, names) => NulFree(path) && AllNulFree(names)
    case Create(path, _) => NulFree(path)
    case CreateOver(path) => NulFree(path)
    case Remove(path) => NulFree(path)
    case Rename(from, to) => NulFree(from) && NulFree(to)
  }

  lemma {:induction false} VisitNulFree(t: Table, p: Str, old_: Str, new_: Str)
    requires TableNulFree(t) && p in t.a && NulFree(new_)
    ensures TableNulFree(Visit(t, p, old_, new_))
  {
    if Under(p, old_) {
      ReplaceIsImage(p, old_, new_);
      assert NulFree(Image(p, old_, new_));
    }
  }

  lemma {:induction false} RunNulFree(run: seq<Range>, old_: Str, new_: Str)
    requires RangeRun(run, old_, new_) && TableNulFree(run[0].t) && NulFree(new_)
    ensures TableNulFree(run[|run| - 1].t)
  {
    if |run| > 1 {
      var front := run[..|run| - 1];
      RunNulFree(front, old_, new_);
      var s, s' := run[|run| - 2], run[|run| - 1];
      assert RangeStep(s, s', old_, new_);
      var p :| p in s.pending + s.born && p in s.t.a && s' == Next(s, p, old_, new_);
      VisitNulFree(s.t, p, old_, new_);
    }
  }

  lemma {:induction false} ReplacedNulFree(t: Table, t': Table, old_: Str, new_: Str, isDir: bool)
    requires TableNulFree(t) && Replaced(t, t', old_, new_, isDir) && NulFree(new_)
    ensures TableNulFree(t')
  {
    if isDir {
      var start := Rekey(t, old_, new_);
      var run :| CompleteRun(run, start, t', old_, new_);
      RunNulFree(run, old_, new_);
    }
  }

  lemma {:induction false} TrackAllNulFree(t: Table, dir: Str, names: seq<Str>)
    requires TableNulFree(t) && NulFree(dir) && AllNulFree(names)
    ensures TableNulFree(TrackAll(t, dir, names))
    decreases |names|
  {
    if names != [] {
      var front, last := names[..|names| - 1], names[|names| - 1];
      hide Clean;
      TrackAllNulFree(t, dir, front);
      CleanNulFree(dir + [SLASH] + last);
    }
  }

  lemma {:induction false} StepNulFree(s: State, call: Call, s': State)
    requires TableNulFree(s.t) && Step(s, call, s') && FromC(call)
    ensures TableNulFree(s'.t)
  {
    hide TableNulFree, Clean;
    if s' != s {
      match call
      case Lstat(path) =>
        CleanNulFree([SLASH] + path);
        TrackedNulFree(s.t, Canonicalise(path));
      case Readdir(path, names) =>
        CleanNulFree([SLASH] + path);
        TrackAllNulFree(s.t, Canonicalise(path), names);
      case Rename(from, to) =>
        CleanNulFree([SLASH] + to);
        ReplacedNulFree(s.t, s'.t, Canonicalise(from), Canonicalise(to), s.ns[Canonicalise(from)].isDir);
      case _ =>
    }
  }

  lemma {:induction false} TrackedNulFree(t: Table, p: Str)
    requires TableNulFree(t) && NulFree(p)
    ensures TableNulFree(Tracked(t, p))
  {
  }

  ghost predicate CallsFromC(calls: seq<Call>) {
    forall k :: 0 <= k < |calls| ==> FromC(calls[k])
  }

  lemma {:induction false} TraceNulFree(states: seq<State>, calls: seq<Call>, i: nat)
    requires Trace(states, calls) && CallsFromC(calls) && TableNulFree(states[0].t) && i < |states|
    ensures TableNulFree(states[i].t)
  {
    hide Step, TableNulFree, FromC;
    if i > 0 {
      TraceNulFree(states, calls, i - 1);
      assert Step(states[i - 1], calls[i - 1], states[i]);
      StepNulFree(states[i - 1], calls[i - 1], states[i]);
    }
  }
}

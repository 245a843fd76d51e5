// A file read in several calls while other clients are at work. Contents belong to objects and ids
// follow objects, so it does not matter if the file is renamed, or a directory above it, in between.
module ReadRuns {
  import opened Bytes
  import opened Paths
  import opened HandleTable
  import opened Namespace
  import opened Server
  import opened FileHandle
  import opened CStringRuns
  import opened StaleHandles
  import opened ReadFile

  // The file READ serves a handle from.
  function Served(s: State, contents: Contents, data: seq<Byte>): seq<Byte> {
    FileAt(s.ns, contents, ServedPath(s.t, data))
  }

  function Held(contents: Contents, obj: nat): seq<Byte> {
    if obj in contents then contents[obj] else []
  }

  // The handle given out for a plain file serves that file, for as long as there is one.
  lemma {:induction false} ServesItsFile(states: seq<State>, calls: seq<Call>, contents: Contents, i: nat, j: nat,
                                         p: Str, d: nat, tenth: Byte)
    requires Run(states, calls) && CallsFromC(calls) && i <= j < |states|
    requires IsFile(states[i].ns, p) && p in states[i].t.a && states[i].t.a[p] == d && FIRST < d < 0x8000_0000
    requires Alive(states[j], states[i].ns[p].id)
    ensures Served(states[j], contents, Handle(d, tenth)) == Held(contents, states[i].ns[p].id)
    ensures IsFile(states[j].ns, ServedPath(states[j].t, Handle(d, tenth)))
  {
    var s, obj := states[j], states[i].ns[p].id;
    hide Step, FhDecomp, ServedPath, Handle, FromC, KeysCanonical, WellFormed;
    HandlesFollowObjects(states, calls, i, j, p, d);
    var q :| q in s.ns && s.ns[q].id == obj;
    ServedInEveryRun(states, calls, j, Handle(d, tenth));
    HandleRoundTrip(s.t, d, tenth, []);
    StillAFile(states, calls, i, j, p, q);
  }

  // What an object is does not change.
  lemma {:induction false} StillAFile(states: seq<State>, calls: seq<Call>, i: nat, j: nat, p: Str, q: Str)
    requires Run(states, calls) && i <= j < |states|
    requires p in states[i].ns && q in states[j].ns && states[i].ns[p].id == states[j].ns[q].id
    ensures states[j].ns[q].isDir == states[i].ns[p].isDir
  {
    EveryRun(states, calls);
    assert Good(states[0]) && Good(states[i]);
    KindStays(states, calls, i, j, states[i].ns[p]);
  }

  ghost predicate KindIs(s: State, obj: Obj) {
    obj.id < s.next && forall q :: q in s.ns && s.ns[q].id == obj.id ==> s.ns[q] == obj
  }

  lemma {:induction false} KindStays(states: seq<State>, calls: seq<Call>, i: nat, j: nat, obj: Obj)
    requires Trace(states, calls) && Good(states[0]) && i <= j < |states|
    requires KindIs(states[i], obj)
    ensures KindIs(states[j], obj)
    decreases j - i
  {
    hide Step, Good, KindIs;
    if i < j {
      KindStays(states, calls, i, j - 1, obj);
      TraceKeepsGood(states, calls, j - 1);
      assert Step(states[j - 1], calls[j - 1], states[j]);
      StepKeepsKind(states[j - 1], calls[j - 1], states[j], obj);
    }
  }

  lemma {:induction false} StepKeepsKind(s: State, call: Call, s': State, obj: Obj)
    requires Good(s) && Step(s, call, s') && KindIs(s, obj)
    ensures KindIs(s', obj)
  {
    hide Canonicalise, KeysCanonical, Inv;
    match call
    case Rename(from, to) =>
      if s' != s { MoveKeepsKind(s.ns, s'.ns, Canonicalise(from), Canonicalise(to), obj); }
    case CreateOver(path) =>
      if s' != s {
        var ns :| Overwritten(s, ns, s', Canonicalise(path));
      }
    case _ =>
  }

  lemma {:induction false} MoveKeepsKind(ns: Tree, ns': Tree, op: Str, np: Str, obj: Obj)
    requires Moved(ns, ns', op, np)
    requires forall q :: q in ns && ns[q].id == obj.id ==> ns[q] == obj
    ensures forall q :: q in ns' && ns'[q].id == obj.id ==> ns'[q] == obj
  {
    if op != np {
      forall q | q in ns' && ns'[q].id == obj.id
        ensures ns'[q] == obj
      {
        var o := Origin(q, op, np);
        assert o in ns && ns'[q] == ns[o];
      }
    }
  }

  // What a client collects that reads once from each of these files, each time from where it got to.
  function Pieces(files: seq<seq<Byte>>, off: nat, count: nat): seq<Byte>
    decreases |files|
  {
    if files == [] then []
    else
      var n := Available(files[0], off, count);
      Slice(files[0], off, n) + Pieces(files[1..], off + n, count)
  }

  lemma {:induction false} PiecesMakeTheFile(files: seq<seq<Byte>>, file: seq<Byte>, off: nat, count: nat)
    requires (forall k :: 0 <= k < |files| ==> files[k] == file) && count > 0
    requires |files| == Calls(|file|, off, count)
    ensures Pieces(files, off, count) == From(file, off)
    decreases |files|
  {
    var n := Available(file, off, count);
    hide Available, Slice, From, Between;
    Advance(file, off, off, count);
    if |files| > 1 {
      PiecesMakeTheFile(files[1..], file, off + n, count);
      OneMorePiece(file, off, n);
    } else {
      assert files[1..] == [];
      LastPiece(file, off, count);
    }
  }

  lemma {:induction false} OneMorePiece(file: seq<Byte>, off: nat, n: nat)
    requires off + n <= |file|
    ensures Slice(file, off, n) + From(file, off + n) == From(file, off)
  {
  }

  lemma {:induction false} LastPiece(file: seq<Byte>, off: nat, count: nat)
    requires off + count >= |file|
    ensures Slice(file, off, Available(file, off, count)) == From(file, off)
  {
  }

  // Whatever happens between its reads, a client that makes as many of them as it takes, at moments
  // of a run at which the file still exists, has the file from its start offset on.
  lemma {:induction false} ReadAcrossRenames(states: seq<State>, calls: seq<Call>, contents: Contents, i: nat, p: Str,
                                             d: nat, tenth: Byte, moments: seq<nat>, files: seq<seq<Byte>>,
                                             start: nat, count: nat)
    requires Run(states, calls) && CallsFromC(calls) && i < |states| && count > 0
    requires IsFile(states[i].ns, p) && p in states[i].t.a && states[i].t.a[p] == d && FIRST < d < 0x8000_0000
    requires forall k :: 0 <= k < |moments| ==>
               i <= moments[k] < |states| && Alive(states[moments[k]], states[i].ns[p].id)
    requires |files| == |moments| == Calls(|Held(contents, states[i].ns[p].id)|, start, count)
    requires forall k :: 0 <= k < |moments| ==> files[k] == Served(states[moments[k]], contents, Handle(d, tenth))
    ensures Pieces(files, start, count) == From(Held(contents, states[i].ns[p].id), start)
  {
    var file := Held(contents, states[i].ns[p].id);
    forall k | 0 <= k < |files|
      ensures files[k] == file
    {
      ServesItsFile(states, calls, contents, i, moments[k], p, d, tenth);
    }
    PiecesMakeTheFile(files, file, start, count);
  }
}

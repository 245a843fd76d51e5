// What the Go side takes a handle for. fh_decomp answers NULL for a handle it cannot place, and
// C.GoString makes of that the empty string, which cleans to the root.
module StaleHandles {
  import opened Bytes
  import opened Paths
  import opened HandleTable
  import opened Server
  import opened FileHandle
  import opened PathAttributes
  import opened CStringRuns

  // The path a procedure that passes on what fh_decomp answers works on.
  function ServedPath(t: Table, data: seq<Byte>): Str {
    Canonicalise(OrEmpty(DirOf(t, data)))
  }

  lemma {:induction false} EmptyIsRoot()
    ensures Canonicalise([]) == ROOT
  {
    ResolveRendered([]);
    assert [SLASH] + [] == ROOT;
  }

  // A handle that leads somewhere is served for that path, any other for the root.
  lemma {:induction false} ServedExactly(t: Table, data: seq<Byte>)
    requires KeysCanonical(t) && TableNulFree(t)
    ensures ServedPath(t, data) == match FhDecomp(t, data) case None => ROOT case Some(p) => p
  {
    EmptyIsRoot();
    match FhDecomp(t, data)
    case None =>
    case Some(p) =>
      if p == ROOT {
        ResolveRendered([]);
        assert Components([]) && p == Render([]);
      }
      assert Canonical(p) && NulFree(p);
      hide Canonicalise, Clean, Canonical, FhDecomp;
      ExtraSlash(p);
      CleanIsCanonical(p);
  }

  // So of the handles that do not mean the root, exactly those that are malformed or whose id leads
  // nowhere are served for it, where section 2.6 of RFC 1813 has NFS3ERR_BADHANDLE and NFS3ERR_STALE.
  lemma {:induction false} ServedForRootExactly(t: Table, data: seq<Byte>)
    requires KeysCanonical(t) && TableNulFree(t) && FhDecomp(t, data) != Some(ROOT)
    ensures ServedPath(t, data) == ROOT <==>
            !NfhValid(data) || Resolved(t, ToInt32(FromLittleEndian(data[..8]))) == None
  {
    hide Canonicalise, ToInt32, FromLittleEndian, KeysCanonical, TableNulFree;
    ServedExactly(t, data);
  }

  // In every state of every run, with calls that come from C.
  lemma {:induction false} ServedInEveryRun(states: seq<State>, calls: seq<Call>, i: nat, data: seq<Byte>)
    requires Run(states, calls) && CallsFromC(calls) && i < |states|
    ensures ServedPath(states[i].t, data) == match FhDecomp(states[i].t, data) case None => ROOT case Some(p) => p
  {
    hide Step, ServedPath, FhDecomp, FromC;
    EveryRun(states, calls);
    assert Good(states[i]) && states[0].t == EMPTY;
    assert TableNulFree(EMPTY);
    TraceNulFree(states, calls, i);
    ServedExactly(states[i].t, data);
  }

  // A handle without an id, or with one that is not still to be issued: new ids do not change where
  // it leads.
  predicate Settled(t: Table, data: seq<Byte>) {
    NfhValid(data) && data[8] != 0 ==> ToInt32(FromLittleEndian(data[..8])) <= t.counter
  }

  lemma {:induction false} SettledStays(t: Table, t': Table, data: seq<Byte>)
    requires Settled(t, data) && t'.counter >= t.counter
    requires forall d :: d <= t.counter ==> At(t'.b, d) == At(t.b, d)
    ensures Settled(t', data) && FhDecomp(t', data) == FhDecomp(t, data)
    ensures DirOf(t', data) == DirOf(t, data) && ServedPath(t', data) == ServedPath(t, data)
  {
    hide ToInt32, FromLittleEndian, CString, Canonicalise;
    if NfhValid(data) && data[8] != 0 {
      var d := ToInt32(FromLittleEndian(data[..8]));
      assert At(t'.b, d) == At(t.b, d);
    }
  }

  lemma {:induction false} TrackAllLeaves(t: Table, dir: Str, names: seq<Str>)
    ensures var t' := TrackAll(t, dir, names);
            t'.counter >= t.counter && forall d :: d <= t.counter ==> At(t'.b, d) == At(t.b, d)
    decreases |names|
  {
    if names != [] {
      hide Clean;
      TrackAllLeaves(t, dir, names[..|names| - 1]);
    }
  }

  lemma {:induction false} StatLeavesServed(s: State, s': State, path: Str, data: seq<Byte>)
    requires Step(s, Lstat(path), s') && Settled(s.t, data)
    ensures Settled(s'.t, data) && ServedPath(s'.t, data) == ServedPath(s.t, data)
  {
    hide Settled, ServedPath;
    SettledStays(s.t, s'.t, data);
  }

  // For instance every handle a client kept across a restart of the server.
  lemma {:induction false} AfterRestart(d: nat, tenth: Byte)
    requires d < 0x1_0000_0000_0000_0000
    ensures FhDecomp(EMPTY, Handle(d, tenth)) == None && ServedPath(EMPTY, Handle(d, tenth)) == ROOT
  {
    HandleDecomposes(EMPTY, d, tenth);
    hide FhDecomp, Handle, ToInt32, Canonicalise;
    ServedExactly(EMPTY, Handle(d, tenth));
  }
}

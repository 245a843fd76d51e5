// cat_name: a directory path and an object name put together in the caller's buffer.
module NameJoining {
  import opened Bytes
  import opened Paths
  import opened Status
  import opened HandleTable
  import opened Namespace
  import opened Server

  // None stands for a NULL pointer.
  function JoinStatus(path: Option<Str>, name: Option<Str>): int {
    if path.None? then NFS3ERR_STALE
    else if name.None? || name.value == [] || SLASH in name.value then NFS3ERR_ACCES
    else if |path.value| + |name.value| + 2 > NFS_MAXPATHLEN then NFS3ERR_NAMETOOLONG
    else NFS3_OK
  }

  function Joined(path: Str, name: Str): Str {
    if name == SELF then path else path + [SLASH] + name
  }

  // strcpy, without the terminating NUL.
  method CopyInto(result: array<Byte>, at: nat, s: Str)
    requires at + |s| <= result.Length
    modifies result
    ensures result[..] == Splice(old(result[..]), at, s)
  {
    for i := 0 to |s|
      invariant forall k :: 0 <= k < result.Length ==>
                  result[k] == if at <= k < at + i then s[k - at] else old(result[k])
    {
      result[at + i] := s[i];
    }
  }

  // The caller's buffer is NFS_MAXPATHLEN bytes. On success it holds the joined path and its
  // NUL within that; on failure it is untouched.
  method CatName(path: Option<Str>, name: Option<Str>, result: array<Byte>) returns (status: int)
    requires result.Length == NFS_MAXPATHLEN
    requires path.Some? ==> NulFree(path.value)
    requires name.Some? ==> NulFree(name.value)
    modifies result
    ensures status == JoinStatus(path, name)
    ensures path == None ==> status == 70
    ensures path != None && (name == None || name.value == [] || SLASH in name.value) ==> status == 13
    ensures path.Some? && name.Some? && name.value != [] && SLASH !in name.value ==>
              status == if |path.value| + |name.value| + 2 > 1024 then 63 else 0
    ensures status != NFS3_OK ==> result[..] == old(result[..])
    ensures status == NFS3_OK ==>
              var joined := Joined(path.value, name.value);
              && |joined| < NFS_MAXPATHLEN
              && result[..] == Splice(old(result[..]), 0, joined + [0])
              && CString(result[..]) == joined
  {
    if path.None? {
      return NFS3ERR_STALE;
    }
    if name.None? {
      return NFS3ERR_ACCES;
    }
    if name.value == [] || SLASH in name.value {
      return NFS3ERR_ACCES;
    }
    if |path.value| + |name.value| + 2 > NFS_MAXPATHLEN {
      return NFS3ERR_NAMETOOLONG;
    }
    ghost var joined := Joined(path.value, name.value);
    if name.value == SELF {
      CopyInto(result, 0, path.value + [0]);
    } else {
      CopyInto(result, 0, path.value + [SLASH] + name.value + [0]);
    }
    assert result[..] == joined + [0] + old(result[..])[|joined| + 1..];
    CStringStopsAtNul(joined, old(result[..])[|joined| + 1..]);
    return NFS3_OK;
  }

  // What the joined path means once the Go side has cleaned it: the directory itself for ".",
  // its parent for ".." (the root being its own), and the child otherwise.
  lemma {:induction false} JoinedMeans(cs: seq<Str>, name: Str)
    requires Components(cs) && name != [] && SLASH !in name
    ensures Canonicalise(Joined(Render(cs), name)) ==
            if name == SELF then Render(cs)
            else if name == PARENT then Render(if cs == [] then [] else cs[..|cs| - 1])
            else Render(cs + [name])
  {
    ExtraSlash(Joined(Render(cs), name));
    if name == SELF {
      CleanIsCanonical(Render(cs));
      assert Canonical(Render(cs));
    } else {
      CleanJoined(cs, name);
    }
  }

  // A name of something in a directory is accepted whenever the two fit the buffer with a slash
  // between them and a NUL.
  lemma {:induction false} ListedNameAccepted(ns: Tree, dir: Str, name: Str)
    requires Child(ns, dir, name) && |dir| + |name| + 2 <= 1024
    ensures JoinStatus(Some(dir), Some(name)) == 0
  {
  }

  // A name LOOKUP accepts arrives at the key READDIR listed it under.
  lemma {:induction false} ListedKey(dir: Str, name: Str)
    requires JoinStatus(Some(dir), Some(name)) == NFS3_OK && name != SELF
    ensures Canonicalise(Joined(dir, name)) == Clean(dir + [SLASH] + name)
  {
    ExtraSlash(Joined(dir, name));
  }

  // A directory is listed by call i of a run. For as long as no call is a rename, a LOOKUP of a name
  // that was listed leaves the table alone and reports the id READDIR put in the entry.
  lemma {:induction false} LookupAgreesWithListing(states: seq<State>, calls: seq<Call>, i: nat, j: nat, path: Str,
                                                   names: seq<Str>, name: Str)
    requires Run(states, calls) && i < j <= |calls|
    requires calls[i] == Readdir(path, names) && (forall n :: n in names ==> SLASH !in n)
    requires states[i + 1].t == TrackAll(states[i].t, Canonicalise(path), names)
    requires forall k :: i < k < j ==> !calls[k].Rename?
    requires name in names && name != SELF
    requires JoinStatus(Some(Canonicalise(path)), Some(name)) == NFS3_OK
    ensures var dir := Canonicalise(path);
            var listed, lookedUp := Clean(dir + [SLASH] + name), Canonicalise(Joined(dir, name));
            && listed in states[i + 1].t.a && lookedUp in states[j].t.a
            && states[j].t.a[lookedUp] == states[i + 1].t.a[listed]
            && Tracked(states[j].t, lookedUp) == states[j].t
  {
    var dir := Canonicalise(path);
    EveryRun(states, calls);
    assert Good(states[0]) && Inv(states[i].t) && KeysCanonical(states[i].t);
    CanonicaliseIsCanonical(path);
    hide Good, Step, Canonicalise, Inv, KeysCanonical, Joined, JoinStatus;
    ListedKey(dir, name);
    TrackAllKeeps(states[i].t, dir, names);
    IdStaysOver(states, calls, i + 1, j, Clean(dir + [SLASH] + name));
  }
}

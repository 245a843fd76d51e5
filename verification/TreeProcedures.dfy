// REMOVE, RMDIR and MKDIR of nfs.c. Like LOOKUP, CREATE and RENAME they are shown as the calls they
// make of the Go side.
module TreeProcedures {
  import opened Bytes
  import opened Paths
  import opened Status
  import opened Namespace
  import opened Server
  import opened GoServers
  import opened NameJoining
  import opened FileHandle
  import opened PathAttributes
  import opened Xdr
  import opened NfsTypes
  import opened Results
  import opened Procedures

  // ------------------------------------------------------------------ REMOVE and RMDIR

  function UnlinkCalls(dir: Option<Bytes.Str>, name: Bytes.Str): seq<Call> {
    [Lstat(OrEmpty(dir)), Call.Remove(ObjectPath(dir, name)), Lstat(OrEmpty(dir))]
  }

  ghost predicate Unlinkable(ns: Tree, p: Bytes.Str, directory: bool) {
    if directory then Removable(ns, p) && ns[p].isDir else p in ns && !ns[p].isDir
  }

  // The second of these three calls takes the object away, exactly if the status is success.
  ghost predicate UnlinkAnswers(trace: seq<State>, dir: Option<Bytes.Str>, name: Bytes.Str, directory: bool,
                                status: int, reliable: bool)
    requires |trace| == 4
  {
    var p, refusal := Canonicalise(ObjectPath(dir, name)), JoinStatus(dir, Some(name));
    && (if status == NFS3_OK then Removed(trace[1].ns, trace[2].ns, p) && trace[1].ns[p].isDir == directory
        else trace[2] == trace[1])
    && if refusal != NFS3_OK then status == refusal
       else reliable ==> (status == NFS3_OK <==> Unlinkable(trace[1].ns, p, directory))
  }

  // cat_name, then go_remove or go_rmdir.
  method UnlinkName(server: GoServer, path: Option<Bytes.Str>, name: Bytes.Str, directory: bool, obj: array<Byte>)
    returns (status: int)
    requires server.Valid() && obj.Length == NFS_MAXPATHLEN && NulFree(name) && (path.Some? ==> NulFree(path.value))
    modifies server.ns, obj
    ensures server.Valid() && Fits(Enum, status)
    ensures Step(old(server.Value()), Call.Remove(ObjectPath(path, name)), server.Value())
    ensures var p := Canonicalise(ObjectPath(path, name));
            if status == NFS3_OK
            then Removed(old(server.ns.tree), server.ns.tree, p) && old(server.ns.tree)[p].isDir == directory
            else server.Value() == old(server.Value())
    ensures var p := Canonicalise(ObjectPath(path, name));
            if JoinStatus(path, Some(name)) != NFS3_OK then status == JoinStatus(path, Some(name))
            else server.ns.reliable ==> (status == NFS3_OK <==> Unlinkable(old(server.ns.tree), p, directory))
  {
    hide Canonicalise, Good, Step, Splice, CString, Joined, JoinStatus, Removed;
    FailedStep(server.Value(), Call.Remove(ObjectPath(path, name)));
    status := CatName(path, Some(name), obj);
    JoinStatusFits(path, Some(name));
    if status == NFS3_OK {
      if directory {
        status := server.GoRmdir(CString(obj[..]));
      } else {
        status := server.GoRemove(CString(obj[..]));
      }
    }
  }

  lemma {:induction false} ThreeCalls(trace: seq<State>, calls: seq<Call>)
    requires |calls| == 3 && |trace| == 4
    requires Step(trace[0], calls[0], trace[1]) && Step(trace[1], calls[1], trace[2])
    requires Step(trace[2], calls[2], trace[3])
    ensures Trace(trace, calls)
  {
    hide Step;
  }

  // The two procedures differ in the Go function they call; success and failure both send the
  // directory's attributes.
  method NfsUnlink(server: GoServer, result: StaticResult, data: seq<Byte>, name: Bytes.Str, directory: bool,
                   obj: array<Byte>)
    returns (ghost wcc: Val, ghost trace: seq<State>)
    requires server.Valid() && server.fddb.fdCounter < ID_LIMIT - 1
    requires obj.Length == NFS_MAXPATHLEN && NulFree(name)
    modifies server.ns, server.fddb, result, obj
    ensures server.Valid() && Typed(WCC_DATA, wcc) && wcc.Both?
    ensures Ready(result.status, result.memory, if directory then RMDIR3 else REMOVE3, wcc)
    ensures var dir := DirOf(old(server.fddb.Value()), data);
            && Trace(trace, UnlinkCalls(dir, name))
            && trace[0] == old(server.Value()) && trace[3] == server.Value()
            && UnlinkAnswers(trace, dir, name, directory, result.status, server.ns.reliable)
            && AttributesOf(wcc.snd, server.Value(), dir)
  {
    hide Canonicalise, POST_OP_ATTR, PRE_OP_ATTR, WCC_DATA, Good, Step, Trace, Ready, Typed, Stored, JoinStatus, Joined,
         DirOf, CString, AttributesOf, Unlinkable, Removed;
    ghost var s0 := server.Value();
    var path := Decompose(server.fddb, data);
    DirNulFree(server.fddb.Value(), data);
    var pre := GetPre(server, path);
    ghost var s1 := server.Value();
    var status := UnlinkName(server, path, name, directory, obj);
    ghost var s2 := server.Value();
    result.status := status;
    var after := GetPost(server, path);
    trace := [s0, s1, s2, server.Value()];
    ThreeCalls(trace, UnlinkCalls(path, name));
    WccTyped(pre, after);
    wcc := Both(pre, after);
    StoreOnly(result, Both(pre, after));
  }

  method StoreOnly(result: StaticResult, wcc: Val)
    requires Typed(WCC_DATA, wcc) && Fits(Enum, result.status)
    modifies result`memory
    ensures Ready(result.status, result.memory, REMOVE3, wcc) && Ready(result.status, result.memory, RMDIR3, wcc)
  {
    hide WCC_DATA, Typed;
    result.Store(REMOVE3.resok, 0, wcc);
    OneMember(WCC);
    assert REMOVE3 == RMDIR3;
    assert Upto(1) == [0];
  }

  // ------------------------------------------------------------------ MKDIR

  // fh_comp_type: the handle follows if the path can be stated and is a directory.
  method FhCompType(server: GoServer, path: Bytes.Str, fh: array<Byte>) returns (post: Val)
    requires server.Valid() && server.fddb.fdCounter < ID_LIMIT && fh.Length == 10
    modifies server.fddb, fh
    ensures server.Valid() && server.fddb.fdCounter <= old(server.fddb.fdCounter) + 1 && fh[9] == old(fh[9])
    ensures Step(old(server.Value()), Lstat(path), server.Value())
    ensures Typed(POST_OP_FH3, post) && HandleFollows(post, server.Value(), Canonicalise(path), fh[9])
    ensures server.ns.reliable ==> (post != NO_HANDLE <==> IsDirectory(server.ns.tree, Canonicalise(path)))
    ensures var p := Canonicalise(path);
            post != NO_HANDLE ==>
              && p in server.ns.tree && server.ns.tree[p].isDir && p in server.fddb.pathMapA
              && post.Choice? && post.tag == 1 && post.arm.Str?
              && (100 < server.fddb.pathMapA[p] < 0x8000_0000 ==>
                    FhDecomp(server.fddb.Value(), post.arm.s) == Some(p))
  {
    hide Canonicalise, Good, Step, POST_OP_FH3, LittleEndian, FhDecomp;
    var status, ino := server.GoLstat(path);
    NoHandleTyped();
    if status != NFS3_OK || !server.ns.tree[Canonicalise(path)].isDir {
      return NO_HANDLE;
    }
    IdInRange(server.Value(), Canonicalise(path));
    HandleLeadsTo(server.Value(), Canonicalise(path), fh[9]);
    post := FhCompPost(fh, ino);
    assert fh[..][9] == old(fh[9]);
  }

  const NO_HANDLE := Choice(0, Unit)

  lemma {:induction false} NoHandleTyped()
    ensures Typed(POST_OP_FH3, NO_HANDLE)
  {
    OptionalTyped(NFS_FH3, NO_HANDLE);
  }

  // There is no handle, or it is for the id of the directory at p.
  ghost predicate HandleFollows(handle: Val, s: State, p: Bytes.Str, tenth: Byte) {
    handle != NO_HANDLE ==>
      IsDirectory(s.ns, p) && p in s.t.a && s.t.a[p] >= 0 && handle == Choice(1, Str(Handle(s.t.a[p], tenth)))
  }

  function MkdirCalls(dir: Option<Bytes.Str>, name: Bytes.Str): seq<Call> {
    var obj := ObjectPath(dir, name);
    [Lstat(OrEmpty(dir)), Create(obj, true), Lstat(obj), Lstat(obj), Lstat(OrEmpty(dir))]
  }

  // The second call makes the directory, exactly if the status is success; otherwise nothing more is
  // asked of the object.
  ghost predicate MkdirAnswers(trace: seq<State>, dir: Option<Bytes.Str>, name: Bytes.Str, status: int, reliable: bool)
    requires |trace| == 6
  {
    var p, refusal := Canonicalise(ObjectPath(dir, name)), JoinStatus(dir, Some(name));
    && (if status == NFS3_OK then Created(trace[1].ns, trace[1].next, trace[2].ns, p, true)
        else trace[4] == trace[3] == trace[2] == trace[1])
    && if refusal != NFS3_OK then status == refusal
       else reliable ==> (status == NFS3_OK <==> Vacant(trace[1].ns, p))
  }

  // cat_name, then go_mkdir.
  method MkdirName(server: GoServer, path: Option<Bytes.Str>, name: Bytes.Str, obj: array<Byte>) returns (status: int)
    requires server.Valid() && obj.Length == NFS_MAXPATHLEN && NulFree(name) && (path.Some? ==> NulFree(path.value))
    modifies server.ns, obj
    ensures server.Valid() && Fits(Enum, status)
    ensures Step(old(server.Value()), Create(ObjectPath(path, name), true), server.Value())
    ensures var p := Canonicalise(ObjectPath(path, name));
            if status == NFS3_OK then Created(old(server.ns.tree), old(server.ns.next), server.ns.tree, p, true)
            else server.Value() == old(server.Value())
    ensures if JoinStatus(path, Some(name)) != NFS3_OK then status == JoinStatus(path, Some(name))
            else server.ns.reliable ==>
              (status == NFS3_OK <==> Vacant(old(server.ns.tree), Canonicalise(ObjectPath(path, name))))
    ensures status == NFS3_OK ==> CString(obj[..]) == ObjectPath(path, name)
  {
    hide Canonicalise, Good, Step, Splice, CString, Joined, JoinStatus, Created, Vacant;
    FailedStep(server.Value(), Create(ObjectPath(path, name), true));
    status := CatName(path, Some(name), obj);
    JoinStatusFits(path, Some(name));
    if status == NFS3_OK {
      status := server.GoMkdir(CString(obj[..]));
    }
  }

  // A success answers the handle and attributes of the new directory, if they can still be had, and
  // everything the directory's attributes.
  method NfsMkdir(server: GoServer, result: StaticResult, data: seq<Byte>, name: Bytes.Str, obj: array<Byte>,
                  fh: array<Byte>)
    returns (ghost v: Val, ghost wcc: Val, ghost trace: seq<State>)
    requires server.Valid() && server.fddb.fdCounter < ID_LIMIT - 4
    requires obj.Length == NFS_MAXPATHLEN && fh.Length == 10 && obj != fh && NulFree(name)
    modifies server.ns, server.fddb, result, obj, fh
    ensures server.Valid() && Typed(WCC_DATA, wcc) && wcc.Both?
    ensures Ready(result.status, result.memory, MKDIR3, v)
    ensures var dir := DirOf(old(server.fddb.Value()), data);
            && Trace(trace, MkdirCalls(dir, name))
            && trace[0] == old(server.Value()) && trace[5] == server.Value()
            && MkdirAnswers(trace, dir, name, result.status, server.ns.reliable)
            && AttributesOf(wcc.snd, server.Value(), dir)
    ensures var path := ObjectPath(DirOf(old(server.fddb.Value()), data), name);
            if result.status != NFS3_OK then v == wcc
            else
              && v.Both? && v.snd.Both? && v.snd.snd == wcc
              && HandleFollows(v.fst, trace[3], Canonicalise(path), fh[9])
              && AttributesOf(v.snd.fst, trace[4], Some(path))
  {
    hide Canonicalise, POST_OP_ATTR, PRE_OP_ATTR, POST_OP_FH3, WCC_DATA, Good, Step, Trace, Ready, Typed, Stored,
         JoinStatus, Joined, DirOf, CString, AttributesOf, Created, Vacant, HandleFollows;
    ghost var s0 := server.Value();
    var dirpath := Decompose(server.fddb, data);
    DirNulFree(server.fddb.Value(), data);
    var pre := GetPre(server, dirpath);
    ghost var s1 := server.Value();
    var status := MkdirName(server, dirpath, name, obj);
    ghost var s2, s3, s4 := server.Value(), server.Value(), server.Value();
    result.status := status;
    ghost var was, handle, attr := result.memory, NO_HANDLE, NO_ATTR;
    if status == NFS3_OK {
      var h := FhCompType(server, CString(obj[..]), fh);
      s3 := server.Value();
      var a := GetPost(server, Some(CString(obj[..])));
      s4 := server.Value();
      StoreTwo(result, h, a);
      handle, attr := h, a;
    } else {
      FailedStep(s2, Lstat(ObjectPath(dirpath, name)));
    }
    var after := GetPost(server, dirpath);
    trace := [s0, s1, s2, s3, s4, server.Value()];
    FiveCalls(trace, MkdirCalls(dirpath, name));
    WccTyped(pre, after);
    wcc := Both(pre, after);
    v := StoreMkdirWcc(result, Both(pre, after), was, handle, attr);
  }

  method StoreTwo(result: StaticResult, handle: Val, attr: Val)
    modifies result`memory
    ensures result.memory == Stored(Stored(old(result.memory), MKDIR3.resok, 1, handle), MKDIR3.resok, 2, attr)
  {
    hide Stored;
    result.Store(MKDIR3.resok, 1, handle);
    result.Store(MKDIR3.resok, 2, attr);
  }

  // MKDIR's result struct is laid out and sent like CREATE's.
  method StoreMkdirWcc(result: StaticResult, wcc: Val, ghost was: Cells, ghost handle: Val, ghost attr: Val)
    returns (ghost v: Val)
    requires Typed(WCC_DATA, wcc) && Fits(Enum, result.status)
    requires result.status == NFS3_OK ==>
               && Typed(POST_OP_FH3, handle) && Typed(POST_OP_ATTR, attr)
               && result.memory == Stored(Stored(was, MKDIR3.resok, 1, handle), MKDIR3.resok, 2, attr)
    modifies result`memory
    ensures Ready(result.status, result.memory, MKDIR3, v)
    ensures v == if result.status == NFS3_OK then Both(handle, Both(attr, wcc)) else wcc
  {
    assert MKDIR3 == CREATE3;
    hide MKDIR3, CREATE3, POST_OP_ATTR, POST_OP_FH3, WCC_DATA, Ready, Typed, Stored;
    v := StoreWcc(result, wcc, was, handle, attr);
  }
}

// The LOOKUP, RENAME and CREATE procedures of nfs.c, from the handle bytes to the filled-in result
// struct. Each is shown as the calls it makes of the Go side, one Server step after the other.
module Procedures {
  import opened Bytes
  import opened Paths
  import opened Status
  import opened HandleTable
  import opened Namespace
  import opened Server
  import opened GoServers
  import opened NameJoining
  import opened FileHandle
  import opened PathAttributes
  import opened Xdr
  import opened NfsTypes
  import opened Results

  // The path cat_name makes for a name it accepts.
  function ObjectPath(dir: Option<Bytes.Str>, name: Bytes.Str): Bytes.Str {
    Joined(OrEmpty(dir), name)
  }

  lemma {:induction false} JoinStatusFits(path: Option<Bytes.Str>, name: Option<Bytes.Str>)
    ensures Fits(Enum, JoinStatus(path, name))
    ensures JoinStatus(path, name) == NFS3_OK ==> path.Some?
  {
  }

  lemma {:induction false} DirNulFree(t: Table, data: seq<Byte>)
    ensures DirOf(t, data).Some? ==> NulFree(DirOf(t, data).value)
  {
  }

  // ------------------------------------------------------------------ LOOKUP

  // cat_name, then go_lstat of what it put in the buffer.
  method StatName(server: GoServer, path: Option<Bytes.Str>, name: Bytes.Str, obj: array<Byte>)
    returns (status: int, ino: int)
    requires server.Valid() && server.fddb.fdCounter < ID_LIMIT
    requires obj.Length == NFS_MAXPATHLEN && NulFree(name) && (path.Some? ==> NulFree(path.value))
    modifies server.fddb, obj
    ensures server.Valid() && server.fddb.fdCounter <= old(server.fddb.fdCounter) + 1
    ensures Step(old(server.Value()), Lstat(ObjectPath(path, name)), server.Value())
    ensures Fits(Enum, status)
    ensures JoinStatus(path, Some(name)) != NFS3_OK ==>
              status == JoinStatus(path, Some(name)) && server.Value() == old(server.Value())
    ensures status == NFS3_OK ==> IdOf(server.Value(), Canonicalise(ObjectPath(path, name)), ino)
    ensures server.ns.reliable && JoinStatus(path, Some(name)) == NFS3_OK ==>
              status == if Canonicalise(ObjectPath(path, name)) in server.ns.tree then 0 else 2
  {
    hide Canonicalise, Good, Step, Splice, CString, Joined, JoinStatus;
    FailedStep(server.Value(), Lstat(ObjectPath(path, name)));
    ino := 0;
    status := CatName(path, Some(name), obj);
    JoinStatusFits(path, Some(name));
    if status == NFS3_OK {
      status, ino := server.GoLstat(CString(obj[..]));
      IdInRange(server.Value(), Canonicalise(ObjectPath(path, name)));
    }
  }

  // The object at p exists and p carries this id.
  ghost predicate IdOf(s: State, p: Bytes.Str, ino: int) {
    p in s.ns && p in s.t.a && s.t.a[p] == ino && 0 <= ino <= ID_LIMIT
  }

  // The object's handle and attributes go into the second and third members.
  method StoreObject(result: StaticResult, fh: array<Byte>, ino: int) returns (attr: Val)
    requires fh.Length == 10 && 0 <= ino <= ID_LIMIT
    modifies result`memory, fh
    ensures fh[..] == Handle(ino, old(fh[9])) && fh[9] == old(fh[9]) && Typed(NFS_FH3, Str(fh[..]))
    ensures Typed(POST_OP_ATTR, attr) && Describes(attr, ino)
    ensures result.memory == Stored(Stored(old(result.memory), LOOKUP3.resok, 1, Str(fh[..])), LOOKUP3.resok, 2, attr)
  {
    hide POST_OP_ATTR, Describes;
    FhComp(fh, ino);
    assert fh[..][9] == old(fh[9]);
    result.Store(LOOKUP3.resok, 1, Str(fh[..]));
    attr := GetPostBuf(ino);
    result.Store(LOOKUP3.resok, 2, attr);
  }

  // A handle and attributes for the object at p, by its id, and then those of the directory.
  ghost predicate Answers(s: State, p: Bytes.Str, v: Val, tenth: Byte, post: Val) {
    && p in s.ns && p in s.t.a && s.t.a[p] >= 0 && v.Both? && v.snd.Both?
    && v.fst == Str(Handle(s.t.a[p], tenth))
    && Describes(v.snd.fst, s.t.a[p]) && v.snd.snd == post
  }

  function LookupCalls(dir: Option<Bytes.Str>, name: Bytes.Str): seq<Call> {
    [Lstat(ObjectPath(dir, name)), Lstat(OrEmpty(dir))]
  }

  // On success the handle and the attributes carry the id of the joined path in the table; on
  // failure the reply is the directory's attributes as just read.
  method NfsLookup(server: GoServer, result: StaticResult, data: seq<Byte>, name: Bytes.Str,
                   obj: array<Byte>, fh: array<Byte>)
    returns (ghost v: Val, ghost post: Val, ghost trace: seq<State>)
    requires server.Valid() && server.fddb.fdCounter < ID_LIMIT - 1
    requires obj.Length == NFS_MAXPATHLEN && fh.Length == 10 && obj != fh && NulFree(name)
    modifies server.fddb, result, obj, fh
    ensures server.Valid() && Ready(result.status, result.memory, LOOKUP3, v)
    ensures var dir := DirOf(old(server.fddb.Value()), data);
            && Trace(trace, LookupCalls(dir, name))
            && trace[0] == old(server.Value()) && trace[2] == server.Value()
            && AttributesOf(post, server.Value(), dir)
    ensures Typed(POST_OP_ATTR, post) && (result.status != NFS3_OK ==> v == post)
    ensures var dir := DirOf(old(server.fddb.Value()), data);
            JoinStatus(dir, Some(name)) != NFS3_OK ==>
              result.status == JoinStatus(dir, Some(name)) && trace[1] == trace[0]
    ensures var p := Canonicalise(ObjectPath(DirOf(old(server.fddb.Value()), data), name));
            result.status == NFS3_OK ==> Answers(server.Value(), p, v, fh[9], post)
    ensures var dir := DirOf(old(server.fddb.Value()), data);
            server.ns.reliable && JoinStatus(dir, Some(name)) == NFS3_OK ==>
              result.status == if Canonicalise(ObjectPath(dir, name)) in server.ns.tree then 0 else 2
    // The handle in the reply leads to the object.
    ensures var p := Canonicalise(ObjectPath(DirOf(old(server.fddb.Value()), data), name));
            result.status == 0 ==>
              && p in server.ns.tree && p in server.fddb.pathMapA && v.Both? && v.fst.Str?
              && (100 < server.fddb.pathMapA[p] < 0x8000_0000 ==> FhDecomp(server.fddb.Value(), v.fst.s) == Some(p))
  {
    hide Canonicalise, POST_OP_ATTR, Good, Describes, Ready, Typed, Stored, JoinStatus, Joined, DirOf, Step, Trace;
    hide FhDecomp, Handle;
    ghost var before := server.Value();
    var path := Decompose(server.fddb, data);
    DirNulFree(server.fddb.Value(), data);
    var status, ino := StatName(server, path, name, obj);
    result.status := status;
    ghost var memory, handle, attr := result.memory, Str([]), NO_ATTR;
    if status == NFS3_OK {
      var a := StoreObject(result, fh, ino);
      handle, attr := Str(fh[..]), a;
    }
    ghost var middle := server.Value();
    var after := GetPost(server, path);
    StatKeepsIds(middle, server.Value(), OrEmpty(path), Canonicalise(ObjectPath(path, name)));
    trace := [before, middle, server.Value()];
    TwoCalls(before, middle, server.Value(), LookupCalls(path, name));
    result.Store(LOOKUP3.resok, 0, after);
    post := after;
    if status == NFS3_OK {
      v := Both(handle, Both(attr, after));
      LookupSucceeds(memory, after, handle, attr);
      HandleLeadsTo(server.Value(), Canonicalise(ObjectPath(path, name)), fh[9]);
    } else {
      v := after;
      LookupFails(status, memory, after);
    }
  }

  lemma {:induction false} LookupSucceeds(m: Cells, dirAttr: Val, handle: Val, objAttr: Val)
    requires Typed(POST_OP_ATTR, dirAttr) && Typed(NFS_FH3, handle) && Typed(POST_OP_ATTR, objAttr)
    ensures var m' := Stored(Stored(m, LOOKUP3.resok, 1, handle), LOOKUP3.resok, 2, objAttr);
            Ready(NFS3_OK, Stored(m', LOOKUP3.resok, 0, dirAttr), LOOKUP3, Both(handle, Both(objAttr, dirAttr)))
  {
    ShapesMatch(3);
    hide Typed, Ready, Stored, POST_OP_ATTR;
    SuccessSendsThree(m, LOOKUP3, dirAttr, handle, objAttr);
  }

  lemma {:induction false} LookupFails(status: int, m: Cells, dirAttr: Val)
    requires Typed(POST_OP_ATTR, dirAttr) && status != NFS3_OK && Fits(Enum, status)
    ensures Ready(status, Stored(m, LOOKUP3.resok, 0, dirAttr), LOOKUP3, dirAttr)
  {
    ShapesMatch(3);
    hide Typed, Ready, Stored, POST_OP_ATTR;
    FailureSendsAttributes(status, m, LOOKUP3, dirAttr);
  }

  // ------------------------------------------------------------------ RENAME

  // The target is looked at only if the source was accepted.
  function RenameRefusal(from: Option<Bytes.Str>, fromName: Bytes.Str, to: Option<Bytes.Str>, toName: Bytes.Str): int {
    var first := JoinStatus(from, Some(fromName));
    if first != NFS3_OK then first else JoinStatus(to, Some(toName))
  }

  // cat_name of the target if that of the source succeeded, then go_rename.
  method RenameNames(server: GoServer, from: Option<Bytes.Str>, fromName: Bytes.Str, to: Option<Bytes.Str>,
                     toName: Bytes.Str, fromObj: array<Byte>, toObj: array<Byte>, joined: int)
    returns (status: int)
    requires server.Valid()
    requires fromObj.Length == NFS_MAXPATHLEN && toObj.Length == NFS_MAXPATHLEN && fromObj != toObj
    requires NulFree(toName) && (to.Some? ==> NulFree(to.value))
    requires joined == JoinStatus(from, Some(fromName))
    requires joined == NFS3_OK ==> CString(fromObj[..]) == ObjectPath(from, fromName)
    modifies server.ns, server.fddb, toObj
    ensures server.Valid() && server.fddb.fdCounter == old(server.fddb.fdCounter) && Fits(Enum, status)
    ensures Step(old(server.Value()), Rename(ObjectPath(from, fromName), ObjectPath(to, toName)), server.Value())
    ensures if status == NFS3_OK
            then Renames(old(server.Value()), server.Value(), ObjectPath(from, fromName), ObjectPath(to, toName))
            else server.Value() == old(server.Value())
    ensures var refusal := RenameRefusal(from, fromName, to, toName);
            if refusal != NFS3_OK then status == refusal
            else server.ns.reliable ==>
              (status == NFS3_OK <==> Movable(old(server.ns.tree), Canonicalise(ObjectPath(from, fromName)),
                                              Canonicalise(ObjectPath(to, toName))))
  {
    hide Canonicalise, Good, Step, Splice, CString, Joined, JoinStatus, Renames, Movable;
    FailedStep(server.Value(), Rename(ObjectPath(from, fromName), ObjectPath(to, toName)));
    JoinStatusFits(from, Some(fromName));
    JoinStatusFits(to, Some(toName));
    status := joined;
    if status == NFS3_OK {
      status := CatName(to, Some(toName), toObj);
      if status == NFS3_OK {
        status := server.GoRename(CString(fromObj[..]), CString(toObj[..]));
      }
    }
  }

  function RenameCalls(from: Option<Bytes.Str>, fromName: Bytes.Str, to: Option<Bytes.Str>,
                       toName: Bytes.Str): seq<Call> {
    [Lstat(OrEmpty(from)), Lstat(OrEmpty(to)), Rename(ObjectPath(from, fromName), ObjectPath(to, toName)),
     Lstat(OrEmpty(from)), Lstat(OrEmpty(to))]
  }

  // The five calls in order; the handles are taken apart in the states before their get_pre.
  ghost predicate Renaming(trace: seq<State>, fromData: seq<Byte>, fromName: Bytes.Str, toData: seq<Byte>,
                           toName: Bytes.Str) {
    && |trace| == 6
    && Trace(trace, RenameCalls(DirOf(trace[0].t, fromData), fromName, DirOf(trace[1].t, toData), toName))
  }

  // Between the third and the fourth of these states the object moves, and the table with it,
  // exactly if the status is success.
  ghost predicate RenamingAnswers(trace: seq<State>, fromData: seq<Byte>, fromName: Bytes.Str, toData: seq<Byte>,
                                  toName: Bytes.Str, status: int, reliable: bool)
    requires |trace| == 6
  {
    var from, to := DirOf(trace[0].t, fromData), DirOf(trace[1].t, toData);
    var refusal := RenameRefusal(from, fromName, to, toName);
    && (if status == NFS3_OK then Renames(trace[2], trace[3], ObjectPath(from, fromName), ObjectPath(to, toName))
        else trace[3] == trace[2])
    && if refusal != NFS3_OK then status == refusal
       else reliable ==>
         (status == NFS3_OK <==> Movable(trace[2].ns, Canonicalise(ObjectPath(from, fromName)),
                                         Canonicalise(ObjectPath(to, toName))))
  }

  // Whether it succeeds or fails, the reply is both directories' attributes, each read before
  // and after.
  method NfsRename(server: GoServer, result: StaticResult, fromData: seq<Byte>, fromName: Bytes.Str,
                   toData: seq<Byte>, toName: Bytes.Str, fromObj: array<Byte>, toObj: array<Byte>)
    returns (ghost fromWcc: Val, ghost toWcc: Val, ghost trace: seq<State>)
    requires server.Valid() && server.fddb.fdCounter < ID_LIMIT - 4
    requires fromObj.Length == NFS_MAXPATHLEN && toObj.Length == NFS_MAXPATHLEN && fromObj != toObj
    requires NulFree(fromName) && NulFree(toName)
    modifies server.ns, server.fddb, result, fromObj, toObj
    ensures server.Valid()
    ensures Renaming(trace, fromData, fromName, toData, toName)
    ensures trace[0] == old(server.Value()) && trace[5] == server.Value()
    ensures RenamingAnswers(trace, fromData, fromName, toData, toName, result.status, server.ns.reliable)
    ensures Typed(WCC_DATA, fromWcc) && Typed(WCC_DATA, toWcc) && fromWcc.Both? && toWcc.Both?
    ensures AttributesOf(fromWcc.snd, trace[4], DirOf(trace[0].t, fromData))
    ensures AttributesOf(toWcc.snd, trace[5], DirOf(trace[1].t, toData))
    ensures Ready(result.status, result.memory, RENAME3, Both(fromWcc, toWcc))
  {
    hide Canonicalise, POST_OP_ATTR, PRE_OP_ATTR, WCC_DATA, Good, Step, Trace, Ready, Typed, Stored, JoinStatus, Joined,
         DirOf, Renames, Movable, Splice, CString, AttributesOf, RenameRefusal;
    ghost var s0 := server.Value();
    var from := Decompose(server.fddb, fromData);
    DirNulFree(server.fddb.Value(), fromData);
    var fromPre := GetPre(server, from);
    ghost var s1 := server.Value();
    var joined := CatName(from, Some(fromName), fromObj);
    JoinStatusFits(from, Some(fromName));
    var to := Decompose(server.fddb, toData);
    DirNulFree(server.fddb.Value(), toData);
    var toPre := GetPre(server, to);
    ghost var s2 := server.Value();
    var status := RenameNames(server, from, fromName, to, toName, fromObj, toObj, joined);
    result.status := status;
    ghost var s3 := server.Value();
    var post := GetPost(server, from);
    ghost var s4 := server.Value();
    WccTyped(fromPre, post);
    var after := GetPost(server, to);
    trace := [s0, s1, s2, s3, s4, server.Value()];
    FiveCalls(trace, RenameCalls(from, fromName, to, toName));
    WccTyped(toPre, after);
    fromWcc, toWcc := Both(fromPre, post), Both(toPre, after);
    StoreBoth(result, Both(fromPre, post), Both(toPre, after));
  }

  method StoreBoth(result: StaticResult, fromWcc: Val, toWcc: Val)
    requires Typed(WCC_DATA, fromWcc) && Typed(WCC_DATA, toWcc) && Fits(Enum, result.status)
    modifies result`memory
    ensures Ready(result.status, result.memory, RENAME3, Both(fromWcc, toWcc))
  {
    hide WCC_DATA, Ready, Typed, Stored;
    ghost var memory := result.memory;
    result.Store(RENAME3.resok, 0, fromWcc);
    result.Store(RENAME3.resok, 1, toWcc);
    RenameAnswers(result.status, memory, fromWcc, toWcc);
  }

  lemma {:induction false} RenameAnswers(status: int, m: Cells, fromWcc: Val, toWcc: Val)
    requires Typed(WCC_DATA, fromWcc) && Typed(WCC_DATA, toWcc) && Fits(Enum, status)
    ensures var m' := Stored(Stored(m, RENAME3.resok, 0, fromWcc), RENAME3.resok, 1, toWcc);
            Ready(status, m', RENAME3, Both(fromWcc, toWcc))
  {
    ShapesMatch(14);
    hide Typed, Ready, Stored, WCC_DATA;
    if status == 0 {
      SuccessSendsBoth(m, RENAME3, fromWcc, toWcc);
    } else {
      FailureSendsBoth(status, m, RENAME3, fromWcc, toWcc);
    }
  }

  // ------------------------------------------------------------------ CREATE

  // What go_create is given: the joined path, or, if the name was refused, whatever the buffer on
  // the stack spelled before.
  function CreatePath(dir: Option<Bytes.Str>, name: Bytes.Str, stack: seq<Byte>): Bytes.Str {
    if JoinStatus(dir, Some(name)) == NFS3_OK then ObjectPath(dir, name) else CString(stack)
  }

  // Any path can come of it: a name that is refused, for a slash say, and a buffer that spells the path.
  lemma {:induction false} RefusedNameMakes(dir: Option<Bytes.Str>, name: Bytes.Str, path: Bytes.Str, rest: seq<Byte>)
    requires JoinStatus(dir, Some(name)) != NFS3_OK && NulFree(path)
    ensures CreatePath(dir, name, path + [0] + rest) == path
  {
    CStringStopsAtNul(path, rest);
  }

  // For instance CREATE of "a/b" in the root, with "/x" in the buffer, when there is nothing at /x.
  lemma {:induction false} RefusedNameInstance(rest: seq<Byte>)
    ensures var name, stack := [97, SLASH, 98], [SLASH, 120, 0] + rest;
            var ns := map[ROOT := Obj(0, true)];
            && WellFormed(ns, 1) && JoinStatus(Some(ROOT), Some(name)) == NFS3ERR_ACCES
            && CreatePath(Some(ROOT), name, stack) == [SLASH, 120]
            && Vacant(ns, Canonicalise([SLASH, 120]))
  {
    var name, path := [97, SLASH, 98], [SLASH, 120];
    var ns: Tree := map[ROOT := Obj(0, true)];
    assert name[1] == SLASH;
    RefusedNameMakes(Some(ROOT), name, path, rest);
    assert path + [0] + rest == [SLASH, 120, 0] + rest;
    hide CreatePath;
    assert Components([]) && Render([]) == ROOT;
    assert Component([120]) && Components([[120]]);
    assert Join([[120]]) == [SLASH] + [120] + Join([]) == path;
    assert path == Render([[120]]);
    assert Canonical(path);
    ExtraSlash(path);
    CleanIsCanonical(path);
  }

  function MakeCall(path: Bytes.Str, unchecked: bool): Call {
    if unchecked then CreateOver(path) else Create(path, false)
  }

  ghost predicate Makeable(ns: Tree, p: Bytes.Str, unchecked: bool) {
    if unchecked then Writable(ns, p) else Vacant(ns, p)
  }

  function CreateCalls(dir: Option<Bytes.Str>, path: Bytes.Str, unchecked: bool): seq<Call> {
    [Lstat(OrEmpty(dir)), MakeCall(path, unchecked), Lstat(path), Lstat(OrEmpty(dir))]
  }

  // The new plain file is at p, and handle and attributes are for its id.
  ghost predicate Announces(s: State, p: Bytes.Str, obj: nat, tenth: Byte, handle: Val, attr: Val) {
    && p in s.ns && s.ns[p] == Obj(obj, false) && p in s.t.a && s.t.a[p] >= 0
    && handle == Choice(1, Str(Handle(s.t.a[p], tenth))) && Describes(attr, s.t.a[p])
  }

  // cat_name, whose status is overwritten before anything looks at it, the new file, and its handle
  // and attributes.
  method CreateObject(server: GoServer, result: StaticResult, dirpath: Option<Bytes.Str>, name: Bytes.Str,
                      unchecked: bool, obj: array<Byte>, fh: array<Byte>)
    returns (status: int, ghost handle: Val, ghost attr: Val, ghost made: State)
    requires server.Valid() && server.fddb.fdCounter < ID_LIMIT
    requires obj.Length == NFS_MAXPATHLEN && fh.Length == 10 && obj != fh
    requires NulFree(name) && (dirpath.Some? ==> NulFree(dirpath.value))
    modifies server.ns, server.fddb, result`memory, obj, fh
    ensures server.Valid() && server.fddb.fdCounter <= old(server.fddb.fdCounter) + 1 && Fits(Enum, status)
    ensures var path := CreatePath(dirpath, name, old(obj[..]));
            && Step(old(server.Value()), MakeCall(path, unchecked), made) && Step(made, Lstat(path), server.Value())
            && (server.ns.reliable ==>
                  (status == NFS3_OK <==> Makeable(old(server.ns.tree), Canonicalise(path), unchecked)))
    ensures var p := Canonicalise(CreatePath(dirpath, name, old(obj[..])));
            status == NFS3_OK ==>
              && Typed(POST_OP_FH3, handle) && Typed(POST_OP_ATTR, attr)
              && result.memory == Stored(Stored(old(result.memory), CREATE3.resok, 1, handle), CREATE3.resok, 2, attr)
              && Announces(server.Value(), p, old(server.ns.next), fh[9], handle, attr)
    ensures var p := Canonicalise(CreatePath(dirpath, name, old(obj[..])));
            p in old(server.ns.tree) ==>
              && (!unchecked ==> server.ns.tree == old(server.ns.tree) && status != 0)
              && (!unchecked && server.ns.reliable ==> status == 17)
              && (unchecked && server.ns.reliable ==> status == if old(server.ns.tree)[p].isDir then 21 else 0)
  {
    hide Canonicalise, POST_OP_ATTR, POST_OP_FH3, Good, Step, Typed, Stored, JoinStatus, Joined, Splice, CString,
         Describes, Makeable, MakeCall, Vacant, Writable;
    JoinStatusFits(dirpath, Some(name));
    ghost var path := CreatePath(dirpath, name, obj[..]);
    var _ := CatName(dirpath, Some(name), obj);
    assert CString(obj[..]) == path;
    status := MakeFile(server, CString(obj[..]), unchecked);
    made := server.Value();
    handle, attr := NO_ATTR, NO_ATTR;
    if status == NFS3_OK {
      var h, a;
      status, h, a := StatNew(server, CString(obj[..]), result, fh);
      handle, attr := h, a;
    } else {
      FailedStep(made, Lstat(path));
    }
  }

  // The directory part of the struct is stored last; on failure it is all that is sent, also
  // when the new file was made and only stating it failed.
  method NfsCreate(server: GoServer, result: StaticResult, data: seq<Byte>, name: Bytes.Str, unchecked: bool,
                   obj: array<Byte>, fh: array<Byte>)
    returns (ghost v: Val, ghost wcc: Val, ghost trace: seq<State>)
    requires server.Valid() && server.fddb.fdCounter < ID_LIMIT - 3
    requires obj.Length == NFS_MAXPATHLEN && fh.Length == 10 && obj != fh && NulFree(name)
    modifies server.ns, server.fddb, result, obj, fh
    ensures server.Valid() && Typed(WCC_DATA, wcc) && wcc.Both?
    ensures Ready(result.status, result.memory, CREATE3, v)
    ensures var dir := DirOf(old(server.fddb.Value()), data);
            && Trace(trace, CreateCalls(dir, CreatePath(dir, name, old(obj[..])), unchecked))
            && trace[0] == old(server.Value()) && trace[4] == server.Value()
            && AttributesOf(wcc.snd, server.Value(), dir)
    ensures var dir := DirOf(old(server.fddb.Value()), data);
            var p := Canonicalise(CreatePath(dir, name, old(obj[..])));
            && (server.ns.reliable ==> (result.status == NFS3_OK <==> Makeable(old(server.ns.tree), p, unchecked)))
            && if result.status == NFS3_OK
               then
                 && v.Both? && v.snd.Both? && v.snd.snd == wcc
                 && Announces(server.Value(), p, old(server.ns.next), fh[9], v.fst, v.snd.fst)
               else v == wcc
    ensures var p := Canonicalise(CreatePath(DirOf(old(server.fddb.Value()), data), name, old(obj[..])));
            result.status == 0 ==>
              && p in server.fddb.pathMapA && v.Both? && v.fst.Choice? && v.fst.tag == 1 && v.fst.arm.Str?
              && (100 < server.fddb.pathMapA[p] < 0x8000_0000 ==> FhDecomp(server.fddb.Value(), v.fst.arm.s) == Some(p))
    // A guarded or exclusive CREATE leaves what is there alone; an unchecked one replaces a plain file.
    ensures var p := Canonicalise(CreatePath(DirOf(old(server.fddb.Value()), data), name, old(obj[..])));
            p in old(server.ns.tree) ==>
              && (!unchecked ==> result.status != 0 && server.ns.tree == old(server.ns.tree))
              && (!unchecked && server.ns.reliable ==> result.status == 17)
              && (unchecked && server.ns.reliable ==>
                    result.status == if old(server.ns.tree)[p].isDir then 21 else 0)
  {
    hide FhDecomp, Handle;
    hide Canonicalise, POST_OP_ATTR, PRE_OP_ATTR, POST_OP_FH3, WCC_DATA, Good, Step, Trace, Ready, Typed, Stored,
         JoinStatus, Joined, DirOf, CString, AttributesOf, Makeable, MakeCall, CreatePath, Describes;
    ghost var s0 := server.Value();
    var dirpath := Decompose(server.fddb, data);
    DirNulFree(server.fddb.Value(), data);
    ghost var path := CreatePath(dirpath, name, obj[..]);
    var pre := GetPre(server, dirpath);
    ghost var s1, was := server.Value(), result.memory;
    StatKeepsIds(s0, s1, OrEmpty(dirpath), []);
    var status;
    ghost var handle, attr, s2;
    status, handle, attr, s2 := CreateObject(server, result, dirpath, name, unchecked, obj, fh);
    result.status := status;
    ghost var s3 := server.Value();
    var after := GetPost(server, dirpath);
    trace := [s0, s1, s2, s3, server.Value()];
    FourCalls(trace, CreateCalls(dirpath, path, unchecked));
    StatKeepsIds(s3, server.Value(), OrEmpty(dirpath), Canonicalise(path));
    WccTyped(pre, after);
    wcc := Both(pre, after);
    v := StoreWcc(result, Both(pre, after), was, handle, attr);
    if status == NFS3_OK { HandleLeadsTo(server.Value(), Canonicalise(path), fh[9]); }
  }

  method StoreWcc(result: StaticResult, wcc: Val, ghost was: Cells, ghost handle: Val, ghost attr: Val)
    returns (ghost v: Val)
    requires Typed(WCC_DATA, wcc) && Fits(Enum, result.status)
    requires result.status == NFS3_OK ==>
               && Typed(POST_OP_FH3, handle) && Typed(POST_OP_ATTR, attr)
               && result.memory == Stored(Stored(was, CREATE3.resok, 1, handle), CREATE3.resok, 2, attr)
    modifies result`memory
    ensures Ready(result.status, result.memory, CREATE3, v)
    ensures v == if result.status == NFS3_OK then Both(handle, Both(attr, wcc)) else wcc
  {
    hide POST_OP_ATTR, POST_OP_FH3, WCC_DATA, Ready, Typed, Stored;
    ghost var stored := result.memory;
    result.Store(CREATE3.resok, 0, wcc);
    if result.status == NFS3_OK {
      v := Both(handle, Both(attr, wcc));
      CreateSucceeds(was, wcc, handle, attr);
    } else {
      v := wcc;
      CreateFails(result.status, stored, wcc);
    }
  }

  // go_createover under UNCHECKED, go_create otherwise.
  method MakeFile(server: GoServer, path: Bytes.Str, unchecked: bool) returns (status: int)
    requires server.Valid()
    modifies server.ns
    ensures server.Valid() && 0 <= status <= NFS3ERR_NOTEMPTY
    ensures Step(old(server.Value()), MakeCall(path, unchecked), server.Value())
    ensures status == NFS3_OK ==>
              && Canonicalise(path) in server.ns.tree
              && server.ns.tree[Canonicalise(path)] == Obj(old(server.ns.next), false)
    ensures server.ns.reliable ==>
              (status == NFS3_OK <==> Makeable(old(server.ns.tree), Canonicalise(path), unchecked))
    ensures var p := Canonicalise(path);
            p in old(server.ns.tree) ==>
              && (!unchecked ==> server.Value() == old(server.Value()) && status != 0)
              && (!unchecked && server.ns.reliable ==> status == 17)
              && (unchecked && server.ns.reliable ==> status == if old(server.ns.tree)[p].isDir then 21 else 0)
  {
    hide Canonicalise, Good, Step;
    if unchecked {
      status := server.GoCreateOver(path);
    } else {
      status := server.GoCreate(path);
    }
  }

  // go_lstat of the new file; the handle and attributes are stored whatever it says, from a buffer
  // nothing was written to if it fails.
  method StatNew(server: GoServer, path: Bytes.Str, result: StaticResult, fh: array<Byte>)
    returns (status: int, handle: Val, attr: Val)
    requires server.Valid() && server.fddb.fdCounter < ID_LIMIT && fh.Length == 10
    requires Canonicalise(path) in server.ns.tree
    modifies server.fddb, result`memory, fh
    ensures server.Valid() && server.fddb.fdCounter <= old(server.fddb.fdCounter) + 1
    ensures Step(old(server.Value()), Lstat(path), server.Value())
    ensures Fits(Enum, status) && (server.ns.reliable ==> status == NFS3_OK)
    ensures Typed(POST_OP_FH3, handle) && Typed(POST_OP_ATTR, attr) && fh[9] == old(fh[9])
    ensures result.memory == Stored(Stored(old(result.memory), CREATE3.resok, 1, handle), CREATE3.resok, 2, attr)
    ensures var p := Canonicalise(path);
            status == NFS3_OK ==>
              && p in server.fddb.pathMapA && server.fddb.pathMapA[p] >= 0
              && handle == Choice(1, Str(Handle(server.fddb.pathMapA[p], fh[9])))
              && Describes(attr, server.fddb.pathMapA[p])
  {
    hide Canonicalise, Good, Step, POST_OP_ATTR, POST_OP_FH3, Typed, Stored, Describes, LittleEndian;
    var ino;
    status, ino := server.GoLstat(path);
    IdInRange(server.Value(), Canonicalise(path));
    if status != NFS3_OK {
      ino := 0;
    }
    handle, attr := StoreNewObject(result, fh, ino);
  }

  method StoreNewObject(result: StaticResult, fh: array<Byte>, ino: int) returns (handle: Val, attr: Val)
    requires fh.Length == 10 && 0 <= ino <= ID_LIMIT
    modifies result`memory, fh
    ensures fh[9] == old(fh[9]) && handle == Choice(1, Str(Handle(ino, fh[9]))) && Typed(POST_OP_FH3, handle)
    ensures Typed(POST_OP_ATTR, attr) && Describes(attr, ino)
    ensures result.memory == Stored(Stored(old(result.memory), CREATE3.resok, 1, handle), CREATE3.resok, 2, attr)
  {
    hide POST_OP_ATTR, POST_OP_FH3, Describes, LittleEndian;
    handle := FhCompPost(fh, ino);
    assert fh[..][9] == old(fh[9]);
    result.Store(CREATE3.resok, 1, handle);
    attr := GetPostBuf(ino);
    result.Store(CREATE3.resok, 2, attr);
  }

  lemma {:induction false} CreateSucceeds(m: Cells, wcc: Val, handle: Val, attr: Val)
    requires Typed(WCC_DATA, wcc) && Typed(POST_OP_FH3, handle) && Typed(POST_OP_ATTR, attr)
    ensures var m' := Stored(Stored(m, CREATE3.resok, 1, handle), CREATE3.resok, 2, attr);
            Ready(NFS3_OK, Stored(m', CREATE3.resok, 0, wcc), CREATE3, Both(handle, Both(attr, wcc)))
  {
    ShapesMatch(8);
    hide Typed, Ready, Stored, POST_OP_ATTR, POST_OP_FH3, WCC_DATA;
    SuccessSendsThree(m, CREATE3, wcc, handle, attr);
  }

  lemma {:induction false} CreateFails(status: int, m: Cells, wcc: Val)
    requires Typed(WCC_DATA, wcc) && status != NFS3_OK && Fits(Enum, status)
    ensures Ready(status, Stored(m, CREATE3.resok, 0, wcc), CREATE3, wcc)
  {
    ShapesMatch(8);
    hide Typed, Ready, Stored, WCC_DATA;
    FailureSendsAttributes(status, m, CREATE3, wcc);
  }
}

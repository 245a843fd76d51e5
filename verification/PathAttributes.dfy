// attr.c: the attributes a reply carries for a path, present when it can be stated and carrying the
// path's id. What else is in them is left open.
module PathAttributes {
  import opened Bytes
  import opened Paths
  import opened Status
  import opened Server
  import opened GoServers
  import opened Xdr
  import opened NfsTypes

  const ID_LIMIT := 0x7000_0000_0000_0000

  // What a stat buffer holds besides the id; some of it was never set.
  datatype Stat = Stat(kind: int, mode: int, nlink: int, uid: int, gid: int, size: int, used: int,
                       rdev1: int, rdev2: int, fsid: int, atime: int, mtime: int)

  predicate StatFits(s: Stat) {
    && Fits(Enum, s.kind) && Fits(Uint32, s.mode) && Fits(Uint32, s.nlink) && Fits(Uint32, s.uid)
    && Fits(Uint32, s.gid) && Fits(Uint64, s.size) && Fits(Uint64, s.used) && Fits(Uint32, s.rdev1)
    && Fits(Uint32, s.rdev2) && Fits(Uint64, s.fsid) && Fits(Uint32, s.atime) && Fits(Uint32, s.mtime)
  }

  function Time(seconds: int): Val {
    Both(Num(seconds), Num(0))
  }

  function Tail(s: Stat, fileid: int): Val {
    Both(Both(Num(s.rdev1), Num(s.rdev2)),
      Both(Num(s.fsid), Both(Num(fileid), Both(Time(s.atime), Both(Time(s.mtime), Time(s.mtime))))))
  }

  // post_op_attr with the attributes of s; st_ino becomes the fileid.
  function Attributes(s: Stat, fileid: int): Val {
    Choice(1,
      Both(Num(s.kind), Both(Num(s.mode), Both(Num(s.nlink), Both(Num(s.uid), Both(Num(s.gid),
        Both(Num(s.size), Both(Num(s.used), Tail(s, fileid)))))))))
  }

  const TAIL := Pair(SPECDATA3, Pair(U64, Pair(U64, Pair(NFSTIME3, Pair(NFSTIME3, NFSTIME3)))))

  lemma {:induction false} TailTyped(s: Stat, fileid: int)
    requires StatFits(s) && Fits(Uint64, fileid)
    ensures Typed(TAIL, Tail(s, fileid))
  {
    assert Typed(NFSTIME3, Time(s.mtime)) && Typed(NFSTIME3, Time(s.atime));
    assert Typed(Pair(NFSTIME3, NFSTIME3), Both(Time(s.mtime), Time(s.mtime)));
    var times := Both(Time(s.atime), Both(Time(s.mtime), Time(s.mtime)));
    assert Typed(Pair(NFSTIME3, Pair(NFSTIME3, NFSTIME3)), times);
    assert Typed(Pair(U64, Pair(NFSTIME3, Pair(NFSTIME3, NFSTIME3))), Both(Num(fileid), times));
    assert Typed(SPECDATA3, Both(Num(s.rdev1), Num(s.rdev2)));
  }

  lemma {:induction false} AttributesTyped(s: Stat, fileid: int)
    requires StatFits(s) && Fits(Uint64, fileid)
    ensures Typed(POST_OP_ATTR, Attributes(s, fileid))
  {
    TailTyped(s, fileid);
    hide Tail, TAIL;
    var a := Both(Num(s.used), Tail(s, fileid));
    assert Typed(Pair(U64, TAIL), a);
    var b := Both(Num(s.gid), Both(Num(s.size), a));
    assert Typed(Pair(U64, Pair(U64, TAIL)), Both(Num(s.size), a));
    assert Typed(Pair(U32, Pair(U64, Pair(U64, TAIL))), b);
    var c := Both(Num(s.nlink), Both(Num(s.uid), b));
    assert Typed(Pair(U32, Pair(U32, Pair(U64, Pair(U64, TAIL)))), Both(Num(s.uid), b));
    assert Typed(Pair(U32, Pair(U32, Pair(U32, Pair(U64, Pair(U64, TAIL))))), c);
    FattrIs();
    assert Typed(FATTR3, Both(Num(s.kind), Both(Num(s.mode), c)));
    OptionalTyped(FATTR3, Attributes(s, fileid));
  }

  lemma {:induction false} FattrIs()
    ensures FATTR3 == Pair(ENUM, Pair(U32, Pair(U32, Pair(U32, Pair(U32, Pair(U64, Pair(U64, TAIL)))))))
  {
  }

  // Attributes that are present, for this id.
  ghost predicate Describes(v: Val, fileid: int) {
    exists s :: StatFits(s) && v == Attributes(s, fileid)
  }

  method GetPostBuf(ino: int) returns (v: Val)
    requires Fits(Uint64, ino)
    ensures Typed(POST_OP_ATTR, v) && Describes(v, ino)
  {
    var s: Stat := *;
    if !StatFits(s) {
      s := Stat(1, 0, 0, 0, 0, 0, 0, 0, 0, 0, 0, 0);
    }
    AttributesTyped(s, ino);
    v := Attributes(s, ino);
  }

  // A NULL path reads as the empty string on the Go side.
  function OrEmpty(path: Option<Bytes.Str>): Bytes.Str {
    if path.Some? then path.value else []
  }

  // Attributes are of the path's object, by its id in the table; or there are none.
  ghost predicate AttributesOf(v: Val, s: State, path: Option<Bytes.Str>) {
    var p := Canonicalise(OrEmpty(path));
    v != NO_ATTR ==> p in s.ns && p in s.t.a && Describes(v, s.t.a[p])
  }

  method GetPost(server: GoServer, path: Option<Bytes.Str>) returns (v: Val)
    requires server.Valid() && server.fddb.fdCounter < ID_LIMIT
    modifies server.fddb
    ensures server.Valid() && server.fddb.fdCounter <= old(server.fddb.fdCounter) + 1
    ensures Step(old(server.Value()), Lstat(OrEmpty(path)), server.Value())
    ensures Typed(POST_OP_ATTR, v) && AttributesOf(v, server.Value(), path)
    ensures server.ns.reliable ==> (v != NO_ATTR <==> Canonicalise(OrEmpty(path)) in server.ns.tree)
  {
    hide Canonicalise, Step;
    var status, ino := server.GoLstat(OrEmpty(path));
    if status != NFS3_OK {
      OptionalTyped(FATTR3, NO_ATTR);
      return NO_ATTR;
    }
    IdInRange(server.Value(), Canonicalise(OrEmpty(path)));
    v := GetPostBuf(ino);
  }

  lemma {:induction false} IdInRange(s: State, p: Bytes.Str)
    requires Good(s)
    ensures p in s.t.a ==> 0 <= s.t.a[p] <= s.t.counter
  {
  }

  lemma {:induction false} StatKeepsIds(s: State, s': State, path: Bytes.Str, p: Bytes.Str)
    requires Step(s, Lstat(path), s')
    ensures s'.ns == s.ns && s'.next == s.next
    ensures p in s.t.a ==> p in s'.t.a && s'.t.a[p] == s.t.a[p]
  {
  }

  // Size and times only: no id in it.
  method GetPre(server: GoServer, path: Option<Bytes.Str>) returns (v: Val)
    requires server.Valid() && server.fddb.fdCounter < ID_LIMIT
    modifies server.fddb
    ensures server.Valid() && server.fddb.fdCounter <= old(server.fddb.fdCounter) + 1
    ensures Step(old(server.Value()), Lstat(OrEmpty(path)), server.Value())
    ensures Typed(PRE_OP_ATTR, v)
    ensures server.ns.reliable ==> (v != NO_ATTR <==> Canonicalise(OrEmpty(path)) in server.ns.tree)
  {
    hide Canonicalise, Step;
    var status, _ := server.GoLstat(OrEmpty(path));
    OptionalTyped(WCC_ATTR, NO_ATTR);
    if status != NFS3_OK {
      return NO_ATTR;
    }
    v := GetPreBuf();
  }

  method GetPreBuf() returns (v: Val)
    ensures Typed(PRE_OP_ATTR, v) && v != NO_ATTR
  {
    var size, mtime := *, *;
    if !Fits(Uint64, size) || !Fits(Uint32, mtime) {
      size, mtime := 0, 0;
    }
    v := Choice(1, Both(Num(size), Both(Time(mtime), Time(mtime))));
    assert Typed(NFSTIME3, Time(mtime));
    assert Typed(Pair(NFSTIME3, NFSTIME3), Both(Time(mtime), Time(mtime)));
    assert Typed(WCC_ATTR, v.arm);
    hide NFSTIME3, WCC_ATTR, Time;
    OptionalTyped(WCC_ATTR, v);
  }

  lemma {:induction false} WccTyped(before: Val, after: Val)
    requires Typed(PRE_OP_ATTR, before) && Typed(POST_OP_ATTR, after)
    ensures Typed(WCC_DATA, Both(before, after))
  {
  }
}

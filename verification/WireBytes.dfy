// What the encodings are, byte by byte (RFC 4506, sections 4.1 to 4.19): numbers, strings, lists and
// unions first, and then the messages whose members matter most.
module WireBytes {
  import opened Bytes
  import opened Xdr
  import opened XdrStreams
  import opened NfsTypes
  import opened Memory
  import opened ReaddirReply
  import opened ReadFile
  import opened PathAttributes
  import opened Mounts

  // Four bytes, highest first, in two's complement; eight for a 64-bit number; 0 or 1 for a bool.
  lemma {:induction false} NumberBytes(k: Scalar, n: int)
    requires Fits(k, n)
    ensures k == Uint64 ==>
              EncodeNumber(k, n) ==
              [n / 0x100_0000_0000_0000 % 0x100, n / 0x1_0000_0000_0000 % 0x100,
               n / 0x100_0000_0000 % 0x100, n / 0x1_0000_0000 % 0x100,
               n / 0x100_0000 % 0x100, n / 0x1_0000 % 0x100, n / 0x100 % 0x100, n % 0x100]
    ensures k != Uint64 ==>
              var w := if n < 0 then n + 0x1_0000_0000 else n;
              EncodeNumber(k, n) == [w / 0x100_0000, w / 0x1_0000 % 0x100, w / 0x100 % 0x100, w % 0x100]
  {
    hide BigEndian;
    if k == Uint64 { EightBytes(n); } else { WordBytes(if n < 0 then n + 0x1_0000_0000 else n); }
  }

  lemma {:induction false} SmallNumber(k: Scalar, n: int)
    requires k != Uint64 && Fits(k, n) && 0 <= n < 256
    ensures EncodeNumber(k, n) == [0, 0, 0, n]
  {
    NumberBytes(k, n);
  }

  // The bytes and as many zeros as make them a multiple of four.
  ghost predicate PaddedWith(enc: seq<Byte>, s: seq<Byte>) {
    && |s| <= |enc| < |s| + 4 && |enc| % 4 == 0 && enc[..|s|] == s
    && forall i :: |s| <= i < |enc| ==> enc[i] == 0
  }

  lemma {:induction false} StringBytes(ty: Ty, s: seq<Byte>)
    requires Typed(ty, Str(s))
    ensures ty.Fixed? ==> PaddedWith(Encode(ty, Str(s)), s)
    ensures ty.Opaque? || ty.Text? ==>
              var enc := Encode(ty, Str(s));
              && |enc| >= 4
              && enc[..4] == [|s| / 0x100_0000, |s| / 0x1_0000 % 0x100, |s| / 0x100 % 0x100, |s| % 0x100]
              && PaddedWith(enc[4..], s)
  {
    assert PaddedWith(Padded(s), s);
    hide Padded;
    if ty.Opaque? || ty.Text? {
      WordBytes(|s|);
      var enc := Encode(ty, Str(s));
      assert enc[..4] == BigEndian(|s|, 4) && enc[4..] == Padded(s);
    }
  }

  // A node of a list is a TRUE and the element; a FALSE is the end.
  lemma {:induction false} ListBytes(e: Ty, vs: seq<Val>)
    requires AllTyped(e, vs)
    ensures EncodeList(e, vs) ==
            if vs == [] then [0, 0, 0, 0] else [0, 0, 0, 1] + Encode(e, vs[0]) + EncodeList(e, vs[1..])
  {
    WordBytes(0);
    WordBytes(1);
  }

  // A reply starts with its status, and what follows is resok exactly after success.
  lemma {:induction false} ReplyBytes(resok: Ty, resfail: Ty, status: int, v: Val)
    requires 0 <= status < 256 && Typed(if status == 0 then resok else resfail, v)
    ensures Typed(Reply(resok, resfail), Choice(status, v))
    ensures Encode(Reply(resok, resfail), Choice(status, v)) ==
            [0, 0, 0, status] + Encode(if status == 0 then resok else resfail, v)
  {
    SmallNumber(Enum, status);
    hide Encode, Typed, EncodeNumber;
    if status == 0 { GoodReply(resok, resfail, v); } else { FailedReply(resok, resfail, status, v); }
  }

  // ------------------------------------------------------------------ messages

  // An entry of READDIR: the id, the name, and the cookie after it.
  lemma {:induction false} EntryBytes(e: Entry)
    requires Sendable(e)
    ensures Typed(ENTRY3, EntryVal(e))
    ensures Encode(ENTRY3, EntryVal(e)) ==
            EncodeNumber(Uint64, e.fileid) + (Encode(Text(NO_LIMIT), Str(e.name)) + EncodeNumber(Uint64, e.cookie))
  {
    EntryTyped(e);
    hide BigEndian, Padded;
  }

  // A page: attributes, eight zeros, the entries, and whether that is all.
  lemma {:induction false} PageBytes(attrs: Val, es: seq<Entry>, eof: bool)
    requires Typed(POST_OP_ATTR, attrs) && forall e :: e in es ==> Sendable(e)
    ensures Typed(READDIR3RESOK, Resok(attrs, es, eof)) && AllTyped(ENTRY3, EntryVals(es))
    ensures Encode(READDIR3RESOK, Resok(attrs, es, eof)) ==
            Encode(POST_OP_ATTR, attrs)
              + ([0, 0, 0, 0, 0, 0, 0, 0] + (EncodeList(ENTRY3, EntryVals(es)) + [0, 0, 0, if eof then 1 else 0]))
  {
    ResokTyped(attrs, es, eof);
    ListTyped(es, eof);
    SmallNumber(Bool, if eof then 1 else 0);
    hide POST_OP_ATTR, ENTRY3, EncodeList, EncodeNumber;
    var reply := Both(Items(EntryVals(es)), Num(if eof then 1 else 0));
    assert Padded(ZERO_VERIFIER) == [0, 0, 0, 0, 0, 0, 0, 0];
    assert Encode(Pair(VERIFIER, DIRLIST3), Both(Str(ZERO_VERIFIER), reply))
        == Padded(ZERO_VERIFIER) + (EncodeList(ENTRY3, EntryVals(es)) + [0, 0, 0, if eof then 1 else 0]);
  }

  // READ: attributes, how many bytes, whether that is all, and the bytes.
  lemma {:induction false} ReadBytes(post: Val, n: nat, eof: bool, data: seq<Byte>)
    requires Typed(POST_OP_ATTR, post) && n < 0x1_0000_0000 && |data| < 0x1_0000_0000
    ensures Typed(READ3RESOK, ReadVal(post, n, eof, data))
    ensures Encode(READ3RESOK, ReadVal(post, n, eof, data)) ==
            Encode(POST_OP_ATTR, post)
              + (EncodeNumber(Uint32, n) + ([0, 0, 0, if eof then 1 else 0] + Encode(Opaque(NO_LIMIT), Str(data))))
  {
    ReadTyped(post, Num(n), Num(if eof then 1 else 0), Str(data));
    SmallNumber(Bool, if eof then 1 else 0);
    hide POST_OP_ATTR, BigEndian, Padded;
  }

  // MNT: the status; after success the ten bytes of the handle and one flavour, AUTH_UNIX.
  lemma {:induction false} MountBytes(status: int, handle: seq<Byte>)
    requires 0 <= status < 256 && |handle| == 10
    ensures Typed(MOUNTRES3, MountReply(status, handle))
    ensures Encode(MOUNTRES3, MountReply(status, handle)) ==
            if status == 0 then [0, 0, 0, 0, 0, 0, 0, 10] + handle + [0, 0, 0, 0, 0, 1, 0, 0, 0, 1]
            else [0, 0, 0, status]
  {
    MountReplyTyped(status, handle);
    SmallNumber(Enum, status);
    if status == 0 { GrantedBytes(handle); } else { RefusedBytes(status); }
  }

  lemma {:induction false} RefusedBytes(status: int)
    requires 0 < status < 256
    ensures Typed(MOUNTRES3, Choice(status, Unit)) && Encode(MOUNTRES3, Choice(status, Unit)) == [0, 0, 0, status]
  {
    SmallNumber(Enum, status);
    hide EncodeNumber;
    assert ArmTyped(Default(Void), status, Unit);
    assert EncodeArm(Default(Void), status, Unit) == [];
  }

  lemma {:induction false} GrantedBytes(handle: seq<Byte>)
    requires |handle| == 10
    ensures var v := MountReply(0, handle);
            && Typed(MOUNTRES3, v)
            && Encode(MOUNTRES3, v) == [0, 0, 0, 0, 0, 0, 0, 10] + handle + [0, 0, 0, 0, 0, 1, 0, 0, 0, 1]
  {
    var flavours := Items([Num(1)]);
    var ok := Both(Str(handle), flavours);
    SmallNumber(Enum, 0);
    FlavourBytes();
    TenBytes(handle);
    hide Encode, Typed, EncodeNumber;
    PairBytes(Opaque(64), Array(ENUM), Str(handle), flavours);
    GoodReply(Pair(Opaque(64), Array(ENUM)), Void, ok);
  }

  lemma {:induction false} FlavourBytes()
    ensures Typed(Array(ENUM), Items([Num(1)])) && Encode(Array(ENUM), Items([Num(1)])) == [0, 0, 0, 1, 0, 0, 0, 1]
  {
    SmallNumber(Enum, 1);
    WordBytes(1);
    hide EncodeNumber, BigEndian;
    var vs := [Num(1)];
    assert vs[1..] == [] && AllTyped(ENUM, vs);
    assert EncodeAll(ENUM, vs) == [0, 0, 0, 1];
  }

  lemma {:induction false} TenBytes(handle: seq<Byte>)
    requires |handle| == 10
    ensures Typed(Opaque(64), Str(handle)) && Encode(Opaque(64), Str(handle)) == [0, 0, 0, 10] + (handle + [0, 0])
  {
    WordBytes(10);
    hide BigEndian;
    assert Padded(handle) == handle + [0, 0];
  }

  // LOOKUP: the handle, the object's attributes and the directory's.
  lemma {:induction false} LookupBytes(handle: seq<Byte>, obj: Val, dir: Val)
    requires |handle| <= 64 && Typed(POST_OP_ATTR, obj) && Typed(POST_OP_ATTR, dir)
    ensures var v := Choice(0, Both(Str(handle), Both(obj, dir)));
            && Typed(Result(3), v)
            && Encode(Result(3), v) ==
               [0, 0, 0, 0]
                 + (Encode(Opaque(64), Str(handle)) + (Encode(POST_OP_ATTR, obj) + Encode(POST_OP_ATTR, dir)))
  {
    var v := Both(Str(handle), Both(obj, dir));
    assert Typed(NFS_FH3, Str(handle));
    hide POST_OP_ATTR, NFS_FH3, Encode, Typed;
    PairBytes(POST_OP_ATTR, POST_OP_ATTR, obj, dir);
    PairBytes(NFS_FH3, Pair(POST_OP_ATTR, POST_OP_ATTR), Str(handle), Both(obj, dir));
    ReplyBytes(LOOKUP3RESOK, POST_OP_ATTR, 0, v);
  }

  // CREATE and MKDIR: the optional handle, the object's attributes, and the directory's before and
  // after.
  lemma {:induction false} NewObjectBytes(procedure: nat, handle: Val, obj: Val, before: Val, after: Val)
    requires procedure in {8, 9} && Typed(POST_OP_FH3, handle) && Typed(POST_OP_ATTR, obj)
    requires Typed(PRE_OP_ATTR, before) && Typed(POST_OP_ATTR, after)
    ensures var v := Choice(0, Both(handle, Both(obj, Both(before, after))));
            && Typed(Result(procedure), v)
            && Encode(Result(procedure), v) ==
               [0, 0, 0, 0]
                 + (Encode(POST_OP_FH3, handle)
                      + (Encode(POST_OP_ATTR, obj) + (Encode(PRE_OP_ATTR, before) + Encode(POST_OP_ATTR, after))))
  {
    hide POST_OP_ATTR, PRE_OP_ATTR, POST_OP_FH3, Encode, Typed;
    PairBytes(PRE_OP_ATTR, POST_OP_ATTR, before, after);
    PairBytes(POST_OP_ATTR, WCC_DATA, obj, Both(before, after));
    PairBytes(POST_OP_FH3, Pair(POST_OP_ATTR, WCC_DATA), handle, Both(obj, Both(before, after)));
    ReplyBytes(NEWOBJECT3RESOK, WCC_DATA, 0, Both(handle, Both(obj, Both(before, after))));
  }

  // RENAME, whether it succeeds or fails: the old directory before and after, and the new one.
  lemma {:induction false} RenameBytes(status: int, a: Val, b: Val, c: Val, d: Val)
    requires 0 <= status < 256 && Typed(PRE_OP_ATTR, a) && Typed(POST_OP_ATTR, b)
    requires Typed(PRE_OP_ATTR, c) && Typed(POST_OP_ATTR, d)
    ensures var v := Choice(status, Both(Both(a, b), Both(c, d)));
            && Typed(Result(14), v)
            && Encode(Result(14), v) ==
               [0, 0, 0, status]
                 + ((Encode(PRE_OP_ATTR, a) + Encode(POST_OP_ATTR, b))
                      + (Encode(PRE_OP_ATTR, c) + Encode(POST_OP_ATTR, d)))
  {
    hide POST_OP_ATTR, PRE_OP_ATTR, Encode, Typed;
    PairBytes(PRE_OP_ATTR, POST_OP_ATTR, a, b);
    PairBytes(PRE_OP_ATTR, POST_OP_ATTR, c, d);
    PairBytes(WCC_DATA, WCC_DATA, Both(a, b), Both(c, d));
    ReplyBytes(Pair(WCC_DATA, WCC_DATA), Pair(WCC_DATA, WCC_DATA), status, Both(Both(a, b), Both(c, d)));
  }

  // Attributes that are there: the id is the 64-bit number at byte 56, after the discriminant, type,
  // mode, links, owner, group, size, bytes used, device and file system.
  lemma {:induction false} FileidBytes(s: Stat, fileid: int)
    requires StatFits(s) && Fits(Uint64, fileid)
    ensures Typed(POST_OP_ATTR, Attributes(s, fileid))
    ensures var enc := Encode(POST_OP_ATTR, Attributes(s, fileid));
            && |enc| == 88 && enc[..4] == [0, 0, 0, 1]
            && enc[56..64] == EncodeNumber(Uint64, fileid)
            && enc[4..8] == EncodeNumber(Enum, s.kind) && enc[24..32] == EncodeNumber(Uint64, s.size)
  {
    AttributesTyped(s, fileid);
    PostOpAttrLength(Attributes(s, fileid));
    SmallNumber(Bool, 1);
    var v := Attributes(s, fileid).arm;
    OptionalTyped(FATTR3, Attributes(s, fileid));
    OptionalBytes(FATTR3, v);
    FattrBytes(s, fileid);
  }

  lemma {:induction false} OptionalBytes(ty: Ty, v: Val)
    requires Typed(ty, v)
    ensures Typed(Optional(ty), Choice(1, v)) && Typed(Optional(ty), Choice(0, Unit))
    ensures Encode(Optional(ty), Choice(1, v)) == [0, 0, 0, 1] + Encode(ty, v)
    ensures Encode(Optional(ty), Choice(0, Unit)) == [0, 0, 0, 0]
  {
    OptionalTyped(ty, Choice(1, v));
    OptionalTyped(ty, Choice(0, Unit));
    SmallNumber(Bool, 1);
    SmallNumber(Bool, 0);
    hide EncodeNumber;
    var arms := Case(1, ty, Case(0, Void, Reject));
    assert EncodeArm(arms, 1, v) == Encode(ty, v);
    assert ArmTyped(Case(0, Void, Reject), 0, Unit) && EncodeArm(Case(0, Void, Reject), 0, Unit) == [];
    assert EncodeArm(arms, 0, Unit) == EncodeArm(Case(0, Void, Reject), 0, Unit);
  }

  lemma {:induction false} PairBytes(a: Ty, b: Ty, x: Val, y: Val)
    requires Typed(a, x) && Typed(b, y)
    ensures Typed(Pair(a, b), Both(x, y)) && Encode(Pair(a, b), Both(x, y)) == Encode(a, x) + Encode(b, y)
  {
  }

  lemma {:induction false} FattrBytes(s: Stat, fileid: int)
    requires StatFits(s) && Fits(Uint64, fileid)
    ensures var v := Attributes(s, fileid).arm;
            && Typed(FATTR3, v) && |Encode(FATTR3, v)| == 84
            && Encode(FATTR3, v)[52..60] == EncodeNumber(Uint64, fileid)
            && Encode(FATTR3, v)[..4] == EncodeNumber(Enum, s.kind)
            && Encode(FATTR3, v)[20..28] == EncodeNumber(Uint64, s.size)
  {
    FattrIs();
    TailTyped(s, fileid);
    TailBytes(s, fileid);
    hide BigEndian, Tail, TAIL, FATTR3;
    var tail := Tail(s, fileid);
    PairBytes(U64, TAIL, Num(s.used), tail);
    var used := Pair(U64, TAIL);
    PairBytes(U64, used, Num(s.size), Both(Num(s.used), tail));
    var size, v6 := Pair(U64, used), Both(Num(s.size), Both(Num(s.used), tail));
    PairBytes(U32, size, Num(s.gid), v6);
    var gid, v5 := Pair(U32, size), Both(Num(s.gid), v6);
    PairBytes(U32, gid, Num(s.uid), v5);
    var uid, v4 := Pair(U32, gid), Both(Num(s.uid), v5);
    PairBytes(U32, uid, Num(s.nlink), v4);
    var nlink, v3 := Pair(U32, uid), Both(Num(s.nlink), v4);
    PairBytes(U32, nlink, Num(s.mode), v3);
    PairBytes(ENUM, Pair(U32, nlink), Num(s.kind), Both(Num(s.mode), v3));
    var a, b, c, d, e := EncodeNumber(Enum, s.kind), EncodeNumber(Uint32, s.mode), EncodeNumber(Uint32, s.nlink),
                         EncodeNumber(Uint32, s.uid), EncodeNumber(Uint32, s.gid);
    var f, g, t := EncodeNumber(Uint64, s.size), EncodeNumber(Uint64, s.used), Encode(TAIL, tail);
    assert Encode(FATTR3, Attributes(s, fileid).arm) == a + (b + (c + (d + (e + (f + (g + t))))));
    hide Encode, EncodeNumber;
    EightParts(a, b, c, d, e, f, g, t);
  }

  lemma {:induction false} EightParts(a: seq<Byte>, b: seq<Byte>, c: seq<Byte>, d: seq<Byte>, e: seq<Byte>,
                                      f: seq<Byte>, g: seq<Byte>, t: seq<Byte>)
    requires |a| == |b| == |c| == |d| == |e| == 4 && |f| == |g| == 8 && |t| == 48
    ensures var all := a + (b + (c + (d + (e + (f + (g + t))))));
            |all| == 84 && all[..4] == a && all[20..28] == f && all[52..60] == t[16..24]
  {
    var all := a + (b + (c + (d + (e + (f + (g + t))))));
    assert all[20..] == f + (g + t) && all[36..] == t;
  }

  lemma {:induction false} TimesBytes(a: int, b: int)
    requires Fits(Uint32, a) && Fits(Uint32, b)
    ensures var ty, v := Pair(NFSTIME3, Pair(NFSTIME3, NFSTIME3)), Both(Time(a), Both(Time(b), Time(b)));
            Typed(ty, v) && |Encode(ty, v)| == 24
  {
    TimeBytes(a);
    TimeBytes(b);
    hide Time, NFSTIME3;
    PairBytes(NFSTIME3, NFSTIME3, Time(b), Time(b));
    PairBytes(NFSTIME3, Pair(NFSTIME3, NFSTIME3), Time(a), Both(Time(b), Time(b)));
  }

  lemma {:induction false} TimeBytes(seconds: int)
    requires Fits(Uint32, seconds)
    ensures Typed(NFSTIME3, Time(seconds)) && |Encode(NFSTIME3, Time(seconds))| == 8
  {
    hide BigEndian;
    PairBytes(U32, U32, Num(seconds), Num(0));
  }

  lemma {:induction false} TailBytes(s: Stat, fileid: int)
    requires StatFits(s) && Fits(Uint64, fileid)
    ensures Typed(TAIL, Tail(s, fileid)) && |Encode(TAIL, Tail(s, fileid))| == 48
    ensures Encode(TAIL, Tail(s, fileid))[16..24] == EncodeNumber(Uint64, fileid)
  {
    hide BigEndian;
    var times := Both(Time(s.atime), Both(Time(s.mtime), Time(s.mtime)));
    var three := Pair(NFSTIME3, Pair(NFSTIME3, NFSTIME3));
    TimesBytes(s.atime, s.mtime);
    hide Time, NFSTIME3;
    PairBytes(U64, three, Num(fileid), times);
    PairBytes(U64, Pair(U64, three), Num(s.fsid), Both(Num(fileid), times));
    PairBytes(U32, U32, Num(s.rdev1), Num(s.rdev2));
    PairBytes(SPECDATA3, Pair(U64, Pair(U64, three)), Both(Num(s.rdev1), Num(s.rdev2)),
              Both(Num(s.fsid), Both(Num(fileid), times)));
    var a, b, c, d := Encode(SPECDATA3, Both(Num(s.rdev1), Num(s.rdev2))), EncodeNumber(Uint64, s.fsid),
                      EncodeNumber(Uint64, fileid), Encode(three, times);
    assert Encode(TAIL, Tail(s, fileid)) == a + (b + (c + d)) && |a| == 8 && |b| == 8 && |c| == 8 && |d| == 24;
    hide Encode, EncodeNumber;
    assert (a + (b + (c + d)))[16..24] == c;
  }

  // ------------------------------------------------------------------ calls

  lemma {:induction false} NameBytes(fh: seq<Byte>, name: Str)
    requires |fh| <= 64 && NulFree(name) && |name| < 0x1_0000_0000
    ensures Typed(DIROPARGS3, Both(Val.Str(fh), Val.Str(name)))
    ensures Encode(DIROPARGS3, Both(Val.Str(fh), Val.Str(name))) ==
            Encode(Opaque(64), Val.Str(fh)) + Encode(Text(NO_LIMIT), Val.Str(name))
  {
    PairBytes(Opaque(64), Text(NO_LIMIT), Val.Str(fh), Val.Str(name));
  }

  // LOOKUP, REMOVE and RMDIR take a handle and a name, RENAME two of each.
  lemma {:induction false} NamedCallBytes(fh: seq<Byte>, name: Str, fh2: seq<Byte>, name2: Str)
    requires |fh| <= 64 && NulFree(name) && |name| < 0x1_0000_0000
    requires |fh2| <= 64 && NulFree(name2) && |name2| < 0x1_0000_0000
    ensures Arguments(3) == Arguments(12) == Arguments(13) == DIROPARGS3
    ensures var from, to := Both(Val.Str(fh), Val.Str(name)), Both(Val.Str(fh2), Val.Str(name2));
            && Typed(Arguments(14), Both(from, to)) && Typed(DIROPARGS3, from) && Typed(DIROPARGS3, to)
            && Encode(Arguments(14), Both(from, to)) == Encode(DIROPARGS3, from) + Encode(DIROPARGS3, to)
  {
    NameBytes(fh, name);
    NameBytes(fh2, name2);
    PairBytes(DIROPARGS3, DIROPARGS3, Both(Val.Str(fh), Val.Str(name)), Both(Val.Str(fh2), Val.Str(name2)));
  }

  // READ takes a handle, a 64-bit offset and a 32-bit count.
  lemma {:induction false} ReadCallBytes(fh: seq<Byte>, offset: int, count: int)
    requires |fh| <= 64 && Fits(Uint64, offset) && Fits(Uint32, count)
    ensures var v := Both(Val.Str(fh), Both(Num(offset), Num(count)));
            && Typed(Arguments(6), v)
            && Encode(Arguments(6), v) ==
               Encode(Opaque(64), Val.Str(fh)) + (EncodeNumber(Uint64, offset) + EncodeNumber(Uint32, count))
  {
    PairBytes(U64, U32, Num(offset), Num(count));
    PairBytes(NFS_FH3, Pair(U64, U32), Val.Str(fh), Both(Num(offset), Num(count)));
  }

  // READDIR takes a handle, a cookie, eight bytes of verifier and a 32-bit count.
  lemma {:induction false} ReaddirCallBytes(fh: seq<Byte>, cookie: int, verifier: seq<Byte>, count: int)
    requires |fh| <= 64 && Fits(Uint64, cookie) && |verifier| == 8 && Fits(Uint32, count)
    ensures var v := Both(Val.Str(fh), Both(Num(cookie), Both(Val.Str(verifier), Num(count))));
            && Typed(Arguments(16), v)
            && Encode(Arguments(16), v) ==
               Encode(Opaque(64), Val.Str(fh))
                 + (EncodeNumber(Uint64, cookie) + (verifier + EncodeNumber(Uint32, count)))
  {
    var counted := Both(Val.Str(verifier), Num(count));
    PairBytes(VERIFIER, U32, Val.Str(verifier), Num(count));
    PairBytes(U64, Pair(VERIFIER, U32), Num(cookie), counted);
    PairBytes(NFS_FH3, Pair(U64, Pair(VERIFIER, U32)), Val.Str(fh), Both(Num(cookie), counted));
    assert Padded(verifier) == verifier;
  }

  // CREATE takes a handle and a name, and how: attributes under modes 0 and 1, a verifier under 2.
  lemma {:induction false} CreateCallBytes(fh: seq<Byte>, name: Str, mode: int, how: Val)
    requires |fh| <= 64 && NulFree(name) && |name| < 0x1_0000_0000 && 0 <= mode <= 2
    requires Typed(if mode == 2 then VERIFIER else SATTR3, how)
    ensures var v := Both(Both(Val.Str(fh), Val.Str(name)), Choice(mode, how));
            && Typed(Arguments(8), v) && Typed(DIROPARGS3, v.fst)
            && Encode(Arguments(8), v) ==
               Encode(DIROPARGS3, v.fst) + ([0, 0, 0, mode] + Encode(if mode == 2 then VERIFIER else SATTR3, how))
  {
    hide SATTR3, Encode, Typed;
    NameBytes(fh, name);
    HowBytes(mode, how);
    PairBytes(DIROPARGS3, CREATEHOW3, Both(Val.Str(fh), Val.Str(name)), Choice(mode, how));
  }

  lemma {:induction false} HowBytes(mode: int, how: Val)
    requires 0 <= mode <= 2 && Typed(if mode == 2 then VERIFIER else SATTR3, how)
    ensures Typed(CREATEHOW3, Choice(mode, how))
    ensures Encode(CREATEHOW3, Choice(mode, how)) ==
            [0, 0, 0, mode] + Encode(if mode == 2 then VERIFIER else SATTR3, how)
  {
    SmallNumber(Enum, mode);
    hide SATTR3, EncodeNumber;
    var last := Case(2, VERIFIER, Reject);
    var later := Case(1, SATTR3, last);
    if mode == 2 {
      assert ArmTyped(last, 2, how) && EncodeArm(last, 2, how) == Encode(VERIFIER, how);
    }
    if mode > 0 {
      assert ArmTyped(later, mode, how);
      assert EncodeArm(later, mode, how) == Encode(if mode == 2 then VERIFIER else SATTR3, how);
    }
    assert ArmTyped(Case(0, SATTR3, later), mode, how);
  }
}

// The types of the NFS version 3 and mount protocols, member by member in the order their codec
// functions take them (RFC 1813, sections 2 to 5 and appendix I).
module NfsTypes {
  import opened Bytes
  import opened Xdr

  const U32 := Number(Uint32)
  const U64 := Number(Uint64)
  const ENUM := Number(Enum)
  const BOOL := Number(Bool)

  // bool_t discriminant: TRUE carries ty, FALSE nothing, anything else fails.
  function Optional(ty: Ty): Ty {
    Union(Bool, Case(1, ty, Case(0, Void, Reject)))
  }

  // bool_t discriminant with an empty default.
  function SetIt(ty: Ty): Ty {
    Union(Bool, Case(1, ty, Default(Void)))
  }

  // A reply: resok under NFS3_OK, resfail under every other status.
  function Reply(resok: Ty, resfail: Ty): Ty {
    Union(Enum, Case(0, resok, Default(resfail)))
  }

  const SPECDATA3 := Pair(U32, U32)
  const NFSTIME3 := Pair(U32, U32)
  const NFS_FH3 := Opaque(64)
  const FILENAME3 := Text(NO_LIMIT)
  const NFSPATH3 := Text(NO_LIMIT)
  const VERIFIER := Fixed(8)
  const FATTR3 :=
    Pair(ENUM, Pair(U32, Pair(U32, Pair(U32, Pair(U32, Pair(U64, Pair(U64, Pair(SPECDATA3,
    Pair(U64, Pair(U64, Pair(NFSTIME3, Pair(NFSTIME3, NFSTIME3))))))))))))
  const POST_OP_ATTR := Optional(FATTR3)
  const WCC_ATTR := Pair(U64, Pair(NFSTIME3, NFSTIME3))
  const PRE_OP_ATTR := Optional(WCC_ATTR)
  const WCC_DATA := Pair(PRE_OP_ATTR, POST_OP_ATTR)
  const POST_OP_FH3 := Optional(NFS_FH3)

  // SET_TO_CLIENT_TIME is the one case of time_how that carries a time.
  const SET_TIME := Union(Enum, Case(2, NFSTIME3, Default(Void)))
  const SATTR3 := Pair(SetIt(U32), Pair(SetIt(U32), Pair(SetIt(U32), Pair(SetIt(U64), Pair(SET_TIME, SET_TIME)))))
  const SATTRGUARD3 := Optional(NFSTIME3)
  const DIROPARGS3 := Pair(NFS_FH3, FILENAME3)
  // UNCHECKED and GUARDED carry attributes, EXCLUSIVE a verifier; no other mode is accepted.
  const CREATEHOW3 := Union(Enum, Case(0, SATTR3, Case(1, SATTR3, Case(2, VERIFIER, Reject))))
  const SYMLINKDATA3 := Pair(SATTR3, NFSPATH3)
  const DEVICEDATA3 := Pair(SATTR3, SPECDATA3)
  // NF3CHR, NF3BLK, NF3SOCK, NF3FIFO; other types carry nothing.
  const MKNODDATA3 :=
    Union(Enum, Case(4, DEVICEDATA3, Case(3, DEVICEDATA3, Case(6, SATTR3, Case(7, SATTR3, Default(Void))))))
  const ENTRY3 := Pair(U64, Pair(FILENAME3, U64))
  const DIRLIST3 := Pair(List(ENTRY3), BOOL)
  const ENTRYPLUS3 := Pair(U64, Pair(FILENAME3, Pair(U64, Pair(POST_OP_ATTR, POST_OP_FH3))))
  const DIRLISTPLUS3 := Pair(List(ENTRYPLUS3), BOOL)

  const LOOKUP3RESOK := Pair(NFS_FH3, Pair(POST_OP_ATTR, POST_OP_ATTR))
  const READ3RESOK := Pair(POST_OP_ATTR, Pair(U32, Pair(BOOL, Opaque(NO_LIMIT))))
  const WRITE3RESOK := Pair(WCC_DATA, Pair(U32, Pair(ENUM, VERIFIER)))
  // CREATE, MKDIR, SYMLINK and MKNOD answer alike.
  const NEWOBJECT3RESOK := Pair(POST_OP_FH3, Pair(POST_OP_ATTR, WCC_DATA))
  const READDIR3RESOK := Pair(POST_OP_ATTR, Pair(VERIFIER, DIRLIST3))
  const READDIRPLUS3RESOK := Pair(POST_OP_ATTR, Pair(VERIFIER, DIRLISTPLUS3))
  const FSSTAT3RESOK :=
    Pair(POST_OP_ATTR, Pair(U64, Pair(U64, Pair(U64, Pair(U64, Pair(U64, Pair(U64, U32)))))))
  const FSINFO3RESOK :=
    Pair(POST_OP_ATTR, Pair(U32, Pair(U32, Pair(U32, Pair(U32, Pair(U32, Pair(U32, Pair(U32,
    Pair(U64, Pair(NFSTIME3, U32))))))))))
  const PATHCONF3RESOK := Pair(POST_OP_ATTR, Pair(U32, Pair(U32, Pair(BOOL, Pair(BOOL, Pair(BOOL, BOOL))))))

  // Procedure numbers of section 3 of RFC 1813.
  function Arguments(procedure: nat): Ty {
    match procedure
    case 1 => NFS_FH3
    case 2 => Pair(NFS_FH3, Pair(SATTR3, SATTRGUARD3))
    case 3 => DIROPARGS3
    case 4 => Pair(NFS_FH3, U32)
    case 5 => NFS_FH3
    case 6 => Pair(NFS_FH3, Pair(U64, U32))
    case 7 => Pair(NFS_FH3, Pair(U64, Pair(U32, Pair(ENUM, Opaque(NO_LIMIT)))))
    case 8 => Pair(DIROPARGS3, CREATEHOW3)
    case 9 => Pair(DIROPARGS3, SATTR3)
    case 10 => Pair(DIROPARGS3, SYMLINKDATA3)
    case 11 => Pair(DIROPARGS3, MKNODDATA3)
    case 12 => DIROPARGS3
    case 13 => DIROPARGS3
    case 14 => Pair(DIROPARGS3, DIROPARGS3)
    case 15 => Pair(NFS_FH3, DIROPARGS3)
    case 16 => Pair(NFS_FH3, Pair(U64, Pair(VERIFIER, U32)))
    case 17 => Pair(NFS_FH3, Pair(U64, Pair(VERIFIER, Pair(U32, U32))))
    case 18 => NFS_FH3
    case 19 => NFS_FH3
    case 20 => NFS_FH3
    case 21 => Pair(NFS_FH3, Pair(U64, U32))
    case _ => Void
  }

  function Result(procedure: nat): Ty {
    match procedure
    case 1 => Reply(FATTR3, Void)
    case 2 => Reply(WCC_DATA, WCC_DATA)
    case 3 => Reply(LOOKUP3RESOK, POST_OP_ATTR)
    case 4 => Reply(Pair(POST_OP_ATTR, U32), POST_OP_ATTR)
    case 5 => Reply(Pair(POST_OP_ATTR, NFSPATH3), POST_OP_ATTR)
    case 6 => Reply(READ3RESOK, POST_OP_ATTR)
    case 7 => Reply(WRITE3RESOK, WCC_DATA)
    case 8 => Reply(NEWOBJECT3RESOK, WCC_DATA)
    case 9 => Reply(NEWOBJECT3RESOK, WCC_DATA)
    case 10 => Reply(NEWOBJECT3RESOK, WCC_DATA)
    case 11 => Reply(NEWOBJECT3RESOK, WCC_DATA)
    case 12 => Reply(WCC_DATA, WCC_DATA)
    case 13 => Reply(WCC_DATA, WCC_DATA)
    case 14 => Reply(Pair(WCC_DATA, WCC_DATA), Pair(WCC_DATA, WCC_DATA))
    case 15 => Reply(Pair(POST_OP_ATTR, WCC_DATA), Pair(POST_OP_ATTR, WCC_DATA))
    case 16 => Reply(READDIR3RESOK, POST_OP_ATTR)
    case 17 => Reply(READDIRPLUS3RESOK, POST_OP_ATTR)
    case 18 => Reply(FSSTAT3RESOK, POST_OP_ATTR)
    case 19 => Reply(FSINFO3RESOK, POST_OP_ATTR)
    case 20 => Reply(PATHCONF3RESOK, POST_OP_ATTR)
    case 21 => Reply(Pair(WCC_DATA, VERIFIER), WCC_DATA)
    case _ => Void
  }

  // ------------------------------------------------------------------ the mount protocol

  const HOSTNAME := Text(255)
  const DIRPATH := Text(1024)
  const MOUNTLIST := List(Pair(HOSTNAME, DIRPATH))
  const GROUPS := List(HOSTNAME)
  const EXPORTS := List(Pair(DIRPATH, GROUPS))
  const MOUNTRES3 := Union(Enum, Case(0, Pair(Opaque(64), Array(ENUM)), Default(Void)))

  // ------------------------------------------------------------------ every message

  // No two calls of a procedure, and no two replies, share an encoding or run into one another.
  lemma {:induction false} CallsAndReplies(procedure: nat, args: Val, reply: Val, rest: seq<Byte>)
    requires Typed(Arguments(procedure), args) && Typed(Result(procedure), reply)
    ensures Decode(Arguments(procedure), Encode(Arguments(procedure), args) + rest) == Some((args, rest))
    ensures Decode(Result(procedure), Encode(Result(procedure), reply) + rest) == Some((reply, rest))
    ensures |Encode(Arguments(procedure), args)| % 4 == 0 && |Encode(Result(procedure), reply)| % 4 == 0
  {
    hide Arguments, Result;
    RoundTrip(Arguments(procedure), args, rest);
    RoundTrip(Result(procedure), reply, rest);
    FourByteUnits(Arguments(procedure), args);
    FourByteUnits(Result(procedure), reply);
  }

  // The same for what the mount protocol sends.
  lemma {:induction false} MountMessages(ty: Ty, v: Val, rest: seq<Byte>)
    requires ty in {MOUNTLIST, GROUPS, EXPORTS, MOUNTRES3} && Typed(ty, v)
    ensures Decode(ty, Encode(ty, v) + rest) == Some((v, rest))
    ensures |Encode(ty, v)| % 4 == 0
  {
    hide MOUNTLIST, GROUPS, EXPORTS, MOUNTRES3;
    RoundTrip(ty, v, rest);
    FourByteUnits(ty, v);
  }

  // What follows the status of a failed reply is resfail and nothing else.
  lemma {:induction false} FailedReply(resok: Ty, resfail: Ty, status: int, v: Val)
    requires status != 0 && Fits(Enum, status) && Typed(resfail, v)
    ensures Typed(Reply(resok, resfail), Choice(status, v))
    ensures Encode(Reply(resok, resfail), Choice(status, v)) == EncodeNumber(Enum, status) + Encode(resfail, v)
  {
    assert ArmTyped(Default(resfail), status, v);
    assert ArmTyped(Case(0, resok, Default(resfail)), status, v);
    assert EncodeArm(Case(0, resok, Default(resfail)), status, v) == EncodeArm(Default(resfail), status, v);
  }

  lemma {:induction false} GoodReply(resok: Ty, resfail: Ty, v: Val)
    requires Typed(resok, v)
    ensures Typed(Reply(resok, resfail), Choice(0, v))
    ensures Encode(Reply(resok, resfail), Choice(0, v)) == EncodeNumber(Enum, 0) + Encode(resok, v)
  {
    assert ArmTyped(Case(0, resok, Default(resfail)), 0, v);
  }

  // ------------------------------------------------------------------ attributes

  const NO_ATTR := Choice(0, Unit)

  lemma {:induction false} OptionalTyped(ty: Ty, v: Val)
    ensures Typed(Optional(ty), v) <==> v == Choice(0, Unit) || (v.Choice? && v.tag == 1 && Typed(ty, v.arm))
  {
    if v.Choice? {
      assert ArmTyped(Case(1, ty, Case(0, Void, Reject)), 1, v.arm) <==> Typed(ty, v.arm);
      assert ArmTyped(Case(1, ty, Case(0, Void, Reject)), 0, v.arm) <==> ArmTyped(Case(0, Void, Reject), 0, v.arm);
      assert ArmTyped(Case(0, Void, Reject), 0, v.arm) <==> Typed(Void, v.arm);
    }
  }

  // post_op_attr takes 88 bytes when the attributes follow and 4 when they do not.
  lemma {:induction false} PostOpAttrLength(v: Val)
    requires Typed(POST_OP_ATTR, v)
    ensures |Encode(POST_OP_ATTR, v)| == if v == NO_ATTR then 4 else 88
  {
    OptionalTyped(FATTR3, v);
    var arms := Case(1, FATTR3, Case(0, Void, Reject));
    if v == NO_ATTR {
      assert EncodeArm(arms, 0, Unit) == EncodeArm(Case(0, Void, Reject), 0, Unit) == Encode(Void, Unit);
    } else {
      FattrWidth();
      FixedWidth(FATTR3, v.arm);
      assert EncodeArm(arms, 1, v.arm) == Encode(FATTR3, v.arm);
    }
  }

  lemma {:induction false} FattrWidth()
    ensures Width(FATTR3) == Some(84)
  {
    var times := Pair(NFSTIME3, Pair(NFSTIME3, NFSTIME3));
    assert Width(NFSTIME3) == Some(8);
    assert Width(times) == Some(24);
    hide NFSTIME3;
    var ids := Pair(U64, Pair(U64, times));
    PairWidth(U64, times);
    PairWidth(U64, Pair(U64, times));
    var sizes := Pair(U64, Pair(U64, Pair(SPECDATA3, ids)));
    PairWidth(SPECDATA3, ids);
    PairWidth(U64, Pair(SPECDATA3, ids));
    PairWidth(U64, Pair(U64, Pair(SPECDATA3, ids)));
    var owner := Pair(U32, Pair(U32, sizes));
    PairWidth(U32, sizes);
    PairWidth(U32, Pair(U32, sizes));
    PairWidth(U32, owner);
    PairWidth(U32, Pair(U32, owner));
    PairWidth(ENUM, Pair(U32, Pair(U32, owner)));
  }

  lemma {:induction false} PairWidth(a: Ty, b: Ty)
    requires Width(a).Some? && Width(b).Some?
    ensures Width(Pair(a, b)) == Some(Width(a).value + Width(b).value)
  {
  }
}

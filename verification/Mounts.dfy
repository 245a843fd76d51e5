// The mount daemon's list: nodes linked by pointers, changed in place, with a separate counter.
module Mounts {
  import opened Bytes
  import opened Paths
  import opened Status
  import opened Server
  import opened GoServers
  import opened FileHandle
  import opened PathAttributes
  import opened Xdr
  import opened XdrStreams
  import opened NfsTypes
  import opened MountRuns

  const MNT3_OK := 0
  const MNT3ERR_NOENT := 2
  const MNT3ERR_ACCES := 13
  const MNT3ERR_NOTDIR := 20
  const MNT3ERR_INVAL := 22
  const MNT3ERR_NAMETOOLONG := 63
  const MNTPATHLEN := 1024
  const MNTNAMLEN := 255
  const AUTH_UNIX := 1

  class MountBody {
    const hostname: Bytes.Str
    const directory: Bytes.Str
    var next: MountBody?

    constructor (host: Bytes.Str, path: Bytes.Str)
      ensures hostname == host && directory == path && next == null
    {
      hostname, directory, next := host, path, null;
    }
  }

  function MountOf(node: MountBody): Mount {
    Mount(node.hostname, node.directory)
  }

  function MountsOf(nodes: seq<MountBody>): (ms: seq<Mount>)
    ensures |ms| == |nodes|
  {
    seq(|nodes|, i requires 0 <= i < |nodes| => MountOf(nodes[i]))
  }

  lemma {:induction false} OneLess(nodes: seq<MountBody>, k: nat)
    requires k < |nodes|
    ensures MountsOf(nodes[..k] + nodes[k + 1..]) == MountsOf(nodes)[..k] + MountsOf(nodes)[k + 1..]
  {
  }

  predicate Storable(m: Mount) {
    && NulFree(m.host) && |m.host| <= MNTNAMLEN
    && NulFree(m.dir) && |m.dir| <= MNTPATHLEN
  }

  class MountTable {
    var mountList: MountBody?
    var mountCnt: int
    ghost var nodes: seq<MountBody>

    // The pointers lead through nodes, each once, to null; the counter counts them.
    ghost predicate Valid()
      reads this, nodes
    {
      && mountList == NodeAt(0)
      && (forall i {:trigger nodes[i].next} :: 0 <= i < |nodes| ==> nodes[i].next == NodeAt(i + 1))
      && (forall i, j :: 0 <= i < j < |nodes| ==> nodes[i] != nodes[j])
      && (forall i :: 0 <= i < |nodes| ==> Storable(MountOf(nodes[i])))
      && mountCnt == |nodes|
    }

    ghost function NodeAt(i: nat): MountBody?
      reads this
    {
      if i < |nodes| then nodes[i] else null
    }

    ghost function Contents(): (ms: seq<Mount>)
      reads this
      ensures |ms| == |nodes|
    {
      MountsOf(nodes)
    }

    constructor ()
      ensures Valid() && Contents() == []
    {
      mountList, mountCnt, nodes := null, 0, [];
    }

    method AddMount(path: Bytes.Str, host: Bytes.Str)
      requires Valid() && Storable(Mount(host, path))
      modifies this, nodes
      ensures Valid() && Contents() == old(Contents()) + [Mount(host, path)]
      ensures mountCnt == old(mountCnt) + 1
      ensures forall n :: n in nodes ==> n in old(nodes) || fresh(n)
    {
      var node := new MountBody(host, path);
      var iter := mountList;
      if iter != null {
        ghost var i := 0;
        while iter.next != null
          invariant i < |nodes| && iter == nodes[i]
          decreases |nodes| - i
        {
          iter := iter.next;
          i := i + 1;
        }
        assert i == |nodes| - 1;
        iter.next := node;
      } else {
        mountList := node;
      }
      nodes := nodes + [node];
      mountCnt := mountCnt + 1;
    }

    // iter is at position k of the list and prev is the node before it.
    ghost predicate Cursor(prev: MountBody?, iter: MountBody?, k: nat)
      reads this
    {
      && k <= |nodes| && iter == NodeAt(k)
      && if k == 0 then prev == null else prev == nodes[k - 1]
    }

    lemma {:induction false} AtCursor(prev: MountBody?, iter: MountBody?, k: nat)
      requires Valid() && Cursor(prev, iter, k)
      ensures k <= |nodes|
      ensures iter == null <==> k == |nodes|
      ensures iter != null ==> iter == nodes[k] && Cursor(iter, iter.next, k + 1)
      ensures prev != null ==> prev in nodes
    {
    }

    // One entry taken out: the node before it, or the head, is made to skip it. The guard before
    // the decrement never fails.
    method Unlink(prev: MountBody?, iter: MountBody, ghost k: nat) returns (next: MountBody?)
      requires Valid() && Cursor(prev, iter, k)
      modifies this
      modifies if prev == null then {} else {prev}
      ensures Valid() && k < |old(nodes)| && nodes == old(nodes)[..k] + old(nodes)[k + 1..]
      ensures Cursor(prev, next, k)
      ensures Contents() == old(Contents())[..k] + old(Contents())[k + 1..]
      ensures mountCnt == old(mountCnt) - 1
      ensures forall n :: n in nodes ==> n in old(nodes)
    {
      hide MountsOf, Storable;
      OneLess(nodes, k);
      if prev != null {
        prev.next := iter.next;
      } else {
        mountList := iter.next;
      }
      next := iter.next;
      assert mountCnt > 0;
      if mountCnt > 0 {
        mountCnt := mountCnt - 1;
      }
      nodes := nodes[..k] + nodes[k + 1..];
    }

    lemma {:induction false} ContentAt(k: nat)
      requires k < |nodes|
      ensures Contents()[k] == MountOf(nodes[k])
    {
    }

    // Every entry of the host, for that path or, with no path, for any.
    method RemoveMount(path: Option<Bytes.Str>, host: Bytes.Str)
      requires Valid()
      modifies this, nodes
      ensures Valid() && Contents() == Without(old(Contents()), host, path)
      ensures forall n :: n in nodes ==> n in old(nodes)
    {
      hide MountsOf, Storable;
      var prev: MountBody? := null;
      var iter := mountList;
      ghost var all, k, j := Contents(), 0, 0;
      assert Progress(all, all, 0, 0, host, path);
      while iter != null
        invariant Valid() && Cursor(prev, iter, k)
        invariant forall n :: n in nodes ==> n in old(nodes)
        invariant Progress(Contents(), all, k, j, host, path)
        decreases |nodes| - k
      {
        AtCursor(prev, iter, k);
        hide Contents, Progress, Storable, Valid, Cursor, NodeAt;
        ContentAt(k);
        ProgressStep(Contents(), all, k, j, host, path);
        if iter.hostname == host && (path == None || iter.directory == path.value) {
          iter := Unlink(prev, iter, k);
        } else {
          prev := iter;
          iter := iter.next;
          k := k + 1;
        }
        j := j + 1;
      }
      AtCursor(prev, iter, k);
      Finished(Contents(), all, k, j, host, path);
    }
  }

  // Of the original list the first j mounts are dealt with, and k of them are still there.
  ghost predicate Progress(now: seq<Mount>, all: seq<Mount>, k: nat, j: nat, host: Bytes.Str, path: Option<Bytes.Str>) {
    && k <= |now| && j <= |all|
    && now[..k] == Without(all[..j], host, path)
    && now[k..] == all[j..]
  }

  lemma {:induction false} Finished(now: seq<Mount>, all: seq<Mount>, k: nat, j: nat, host: Bytes.Str,
                                    path: Option<Bytes.Str>)
    requires k == |now| && Progress(now, all, k, j, host, path)
    ensures now == Without(all, host, path)
  {
    assert |now[k..]| == |all[j..]|;
    assert now[..k] == now && all[..j] == all;
  }

  lemma {:induction false} ProgressStep(now: seq<Mount>, all: seq<Mount>, k: nat, j: nat, host: Bytes.Str,
                                        path: Option<Bytes.Str>)
    requires k < |now| && Progress(now, all, k, j, host, path)
    ensures if Matches(now[k], host, path) then Progress(now[..k] + now[k + 1..], all, k, j + 1, host, path)
            else Progress(now, all, k + 1, j + 1, host, path)
  {
    assert |now[k..]| == |all[j..]|;
    assert now[k] == now[k..][0] == all[j..][0] == all[j];
    assert now[k + 1..] == now[k..][1..] == all[j..][1..] == all[j + 1..];
    assert all[..j + 1][..j] == all[..j];
    assert now[..k + 1] == now[..k] + [now[k]];
    var less := now[..k] + now[k + 1..];
    assert less[..k] == now[..k] && less[k..] == now[k + 1..];
  }

  // ------------------------------------------------------------------ the procedures

  // A handle and the one authentication flavour, or the status alone.
  function MountReply(status: int, handle: seq<Byte>): Val {
    Choice(status, if status == MNT3_OK then Both(Str(handle), Items([Num(AUTH_UNIX)])) else Unit)
  }

  lemma {:induction false} MountReplyTyped(status: int, handle: seq<Byte>)
    requires Fits(Enum, status) && |handle| <= 64
    ensures Typed(MOUNTRES3, MountReply(status, handle))
  {
    var ok := Pair(Opaque(64), Array(ENUM));
    if status == MNT3_OK {
      var flavours := Items([Num(AUTH_UNIX)]);
      assert flavours.vs[1..] == [] && Typed(ENUM, flavours.vs[0]);
      assert AllTyped(ENUM, flavours.vs);
      assert Typed(ok, Both(Str(handle), flavours));
    } else {
      assert ArmTyped(Default(Void), status, Unit);
    }
  }

  ghost predicate HandleOf(handle: seq<Byte>, tenth: Byte, s: State, p: Bytes.Str) {
    p in s.t.a && s.t.a[p] >= 0 && handle == Handle(s.t.a[p], tenth)
  }

  // MNT: go_lstat, the checks, a handle for the directory's id, and an entry in the list; a refused
  // request leaves the list alone. `allowed` is what go_accept_mount says of the caller.
  method MountProc(server: GoServer, mounts: MountTable, version: int, allowed: bool, host: Bytes.Str, path: Bytes.Str,
                   fh: array<Byte>, stream: XdrStream)
    returns (status: int)
    requires server.Valid() && mounts.Valid() && Storable(Mount(host, path)) && fh.Length == 10
    requires server.fddb.fdCounter < ID_LIMIT
    modifies server.fddb, mounts, mounts.nodes, fh, stream`data
    ensures server.Valid() && mounts.Valid()
    ensures Step(old(server.Value()), Lstat(path), server.Value())
    ensures mounts.Contents() == Apply(old(mounts.Contents()), Mnt(Mount(host, path), status == MNT3_OK))
    // A mount that succeeds is of an existing directory, and then its handle leads there.
    ensures var pp := Canonicalise(path);
            status == 0 ==>
              && version == 3 && allowed && |path| < 1024
              && pp in server.ns.tree && server.ns.tree[pp].isDir
              && HandleOf(fh[..], old(fh[9]), server.Value(), pp)
              && (100 < server.fddb.pathMapA[pp] < 0x8000_0000 ==> FhDecomp(server.fddb.Value(), fh[..]) == Some(pp))
    // The refusals, each for want of an earlier one.
    ensures version != 3 ==> status == 22
    ensures version == 3 && Canonicalise(path) !in server.ns.tree ==> status == 2
    ensures var pp := Canonicalise(path);
            version == 3 && status != 2 ==>
              && pp in server.ns.tree
              && status == if |path| >= 1024 then 63 else if !allowed then 13
                           else if !server.ns.tree[pp].isDir then 20 else 0
    ensures server.ns.reliable && version == 3 && Canonicalise(path) in server.ns.tree ==> status != 2
    ensures Appended(old(stream.data), stream.data, MOUNTRES3, MountReply(status, fh[..]))
  {
    hide Canonicalise, Good, Step, Typed, Encode, MOUNTRES3, Storable, LittleEndian;
    hide MountTable.Valid, MountTable.Contents, Handle, MountReply, Apply, Appended, FhDecomp;
    ghost var tenth := fh[9];
    status := MountChecks(server, version, allowed, path);
    var ino := 0;
    if status == MNT3_OK {
      ino := server.fddb.pathMapA[Canonicalise(path)];
      IdInRange(server.Value(), Canonicalise(path));
    }
    Grant(mounts, status == MNT3_OK, host, path, fh, ino);
    if status == MNT3_OK {
      HandleLeadsTo(server.Value(), Canonicalise(path), tenth);
    }
    SendMountReply(stream, status, fh[..]);
  }

  method SendMountReply(stream: XdrStream, status: int, handle: seq<Byte>)
    requires Fits(Enum, status) && |handle| <= 64
    modifies stream`data
    ensures Appended(old(stream.data), stream.data, MOUNTRES3, MountReply(status, handle))
  {
    hide Typed, Encode, MOUNTRES3;
    MountReplyTyped(status, handle);
    var _ := stream.Put(MOUNTRES3, MountReply(status, handle));
  }

  // A granted mount gets its handle and its entry.
  method Grant(mounts: MountTable, granted: bool, host: Bytes.Str, path: Bytes.Str, fh: array<Byte>, ino: nat)
    requires mounts.Valid() && Storable(Mount(host, path)) && fh.Length == 10 && ino <= ID_LIMIT
    modifies mounts, mounts.nodes, fh
    ensures mounts.Valid()
    ensures mounts.Contents() == Apply(old(mounts.Contents()), Mnt(Mount(host, path), granted))
    ensures granted ==> fh[..] == Handle(ino, old(fh[9]))
  {
    hide LittleEndian, Storable;
    if granted {
      FhComp(fh, ino);
      mounts.AddMount(path, host);
    }
  }

  // Everything the procedure looks at before it answers.
  method MountChecks(server: GoServer, version: int, allowed: bool, path: Bytes.Str) returns (status: int)
    requires server.Valid()
    modifies server.fddb
    ensures server.Valid() && 0 <= status <= MNT3ERR_NAMETOOLONG
    ensures server.fddb.fdCounter <= old(server.fddb.fdCounter) + 1
    ensures Step(old(server.Value()), Lstat(path), server.Value())
    ensures version != 3 ==> status == 22
    ensures version == 3 && Canonicalise(path) !in server.ns.tree ==> status == 2
    ensures var pp := Canonicalise(path);
            version == 3 && status != 2 ==>
              && pp in server.ns.tree && pp in server.fddb.pathMapA
              && status == if |path| >= 1024 then 63 else if !allowed then 13
                           else if !server.ns.tree[pp].isDir then 20 else 0
    ensures server.ns.reliable && version == 3 && Canonicalise(path) in server.ns.tree ==> status != 2
  {
    hide Canonicalise, Good, Step;
    FailedStep(server.Value(), Lstat(path));
    if version != 3 {
      return MNT3ERR_INVAL;
    }
    var st, _ := server.GoLstat(path);
    if st != NFS3_OK {
      return MNT3ERR_NOENT;
    }
    var isDir := server.ns.tree[Canonicalise(path)].isDir;
    if |path| + 1 > NFS_MAXPATHLEN {
      return MNT3ERR_NAMETOOLONG;
    }
    if !allowed {
      return MNT3ERR_ACCES;
    }
    if !isDir {
      return MNT3ERR_NOTDIR;
    }
    return MNT3_OK;
  }

  method UmntProc(mounts: MountTable, host: Bytes.Str, path: Bytes.Str)
    requires mounts.Valid()
    modifies mounts, mounts.nodes
    ensures mounts.Valid() && mounts.Contents() == Apply(old(mounts.Contents()), Umnt(host, path))
  {
    mounts.RemoveMount(Some(path), host);
  }

  method UmntAllProc(mounts: MountTable, host: Bytes.Str)
    requires mounts.Valid()
    modifies mounts, mounts.nodes
    ensures mounts.Valid() && mounts.Contents() == Apply(old(mounts.Contents()), UmntAll(host))
  {
    mounts.RemoveMount(None, host);
  }

  // ------------------------------------------------------------------ DUMP

  function MountVal(m: Mount): Val {
    Both(Str(m.host), Str(m.dir))
  }

  function MountVals(ms: seq<Mount>): (vs: seq<Val>)
    ensures |vs| == |ms|
  {
    if ms == [] then [] else [MountVal(ms[0])] + MountVals(ms[1..])
  }

  const MOUNTBODY := Pair(HOSTNAME, DIRPATH)

  lemma {:induction false} MountsTyped(ms: seq<Mount>)
    requires forall i :: 0 <= i < |ms| ==> Storable(ms[i])
    ensures AllTyped(MOUNTBODY, MountVals(ms))
  {
    if ms != [] {
      assert Typed(MOUNTBODY, MountVal(ms[0]));
      MountsTyped(ms[1..]);
    }
  }

  // xdr_mountlist and xdr_mountbody, one node after the other along the pointers.
  method PutMounts(stream: XdrStream, mounts: MountTable, node: MountBody?, ghost k: nat)
    requires mounts.Valid() && k <= |mounts.nodes| && node == mounts.NodeAt(k)
    modifies stream`data
    ensures AllTyped(MOUNTBODY, MountVals(mounts.Contents()[k..]))
    ensures stream.data == old(stream.data) + EncodeList(MOUNTBODY, MountVals(mounts.Contents()[k..]))
    decreases |mounts.nodes| - k
  {
    ghost var ms := mounts.Contents()[k..];
    MountsTyped(ms);
    hide Encode, BigEndian, MOUNTBODY;
    if node == null {
      stream.PutNumber(Bool, 0);
      return;
    }
    mounts.ContentAt(k);
    assert ms[0] == MountOf(node) && ms[1..] == mounts.Contents()[k + 1..];
    stream.PutNumber(Bool, 1);
    var ok := stream.Put(MOUNTBODY, Both(Str(node.hostname), Str(node.directory)));
    PutMounts(stream, mounts, node.next, k + 1);
    NodeAppended(old(stream.data), ms);
  }

  lemma {:induction false} NodeAppended(before: seq<Byte>, ms: seq<Mount>)
    requires ms != [] && AllTyped(MOUNTBODY, MountVals(ms))
    ensures before + BigEndian(1, 4) + Encode(MOUNTBODY, MountVal(ms[0])) + EncodeList(MOUNTBODY, MountVals(ms[1..]))
         == before + EncodeList(MOUNTBODY, MountVals(ms))
  {
    hide Encode, BigEndian, MOUNTBODY;
    assert MountVals(ms)[1..] == MountVals(ms[1..]);
    var node, others := Encode(MOUNTBODY, MountVal(ms[0])), EncodeList(MOUNTBODY, MountVals(ms[1..]));
    AppendAssociative(before, BigEndian(1, 4), node);
    AppendAssociative(before, BigEndian(1, 4) + node, others);
  }

  // DUMP sends the list as it stands: whoever decodes the reply reads exactly its contents.
  method DumpProc(stream: XdrStream, mounts: MountTable)
    requires mounts.Valid()
    modifies stream`data
    ensures var v := Items(MountVals(mounts.Contents()));
            && Typed(MOUNTLIST, v)
            && stream.data == old(stream.data) + Encode(MOUNTLIST, v)
            && forall rest :: Decode(MOUNTLIST, Encode(MOUNTLIST, v) + rest) == Some((v, rest))
  {
    PutMounts(stream, mounts, mounts.mountList, 0);
    assert mounts.Contents()[0..] == mounts.Contents();
    ghost var v := Items(MountVals(mounts.Contents()));
    hide Decode, Encode;
    assert Typed(MOUNTLIST, v);
    forall rest: seq<Byte>
      ensures Decode(MOUNTLIST, Encode(MOUNTLIST, v) + rest) == Some((v, rest))
    {
      RoundTrip(MOUNTLIST, v, rest);
    }
    assert Encode(MOUNTLIST, v) == EncodeList(MOUNTBODY, v.vs) by { EncodeOfList(v); }
  }

  lemma {:induction false} EncodeOfList(v: Val)
    requires Typed(MOUNTLIST, v)
    ensures AllTyped(MOUNTBODY, v.vs) && Encode(MOUNTLIST, v) == EncodeList(MOUNTBODY, v.vs)
  {
  }
}

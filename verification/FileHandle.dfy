// NFS file handles: an eight-byte id and a length byte, packed. fh_length reports ten bytes for
// the nine of the struct, so the tenth byte on the wire is whatever follows it in memory.
module FileHandle {
  import opened Bytes
  import opened Paths
  import opened HandleTable
  import opened Server
  import opened FdCaches
  import opened Xdr
  import opened NfsTypes

  const FH_MINLEN := 9

  // The bytes sent for id `ino`.
  function Handle(ino: nat, tenth: Byte): (h: seq<Byte>)
    ensures |h| == 10
  {
    LittleEndian(ino, 8) + [1, tenth]
  }

  function FhLength(data: seq<Byte>): nat
    requires |data| >= FH_MINLEN
  {
    1 + 8 + data[8] as int
  }

  predicate NfhValid(data: seq<Byte>) {
    |data| >= FH_MINLEN && |data| == FhLength(data)
  }

  // A uint64 passed as a C int.
  function ToInt32(n: nat): int {
    var low := n % 0x1_0000_0000;
    if low < 0x8000_0000 then low else low - 0x1_0000_0000
  }

  function FhDecomp(t: Table, data: seq<Byte>): Option<Str> {
    if !NfhValid(data) then None
    else if data[8] == 0 then Some(ROOT)
    else Resolved(t, ToInt32(FromLittleEndian(data[..8])))
  }

  // fh_decomp as the C side sees it: the Go string up to its first NUL, NULL for an error.
  function DirOf(t: Table, data: seq<Byte>): (r: Option<Str>)
    ensures r.Some? ==> NulFree(r.value)
  {
    match FhDecomp(t, data)
    case None => None
    case Some(p) => Some(CString(p))
  }

  method Decompose(fddb: FdCache, data: seq<Byte>) returns (r: Option<Str>)
    ensures r == DirOf(fddb.Value(), data)
  {
    if !NfhValid(data) {
      return None;
    }
    if data[8] == 0 {
      return Some(ROOT);
    }
    var path := fddb.GetPath(ToInt32(FromLittleEndian(data[..8])));
    return if path == None then None else Some(CString(path.value));
  }

  // The static struct, with the byte behind it.
  method FhComp(fh: array<Byte>, ino: nat)
    requires fh.Length == 10 && ino < 0x1_0000_0000_0000_0000
    modifies fh
    ensures fh[..] == Handle(ino, old(fh[9]))
    ensures fh[..8] == LittleEndian(ino, 8) && fh[8] == 1 && fh[9] == old(fh[9])
  {
    var bytes := LittleEndian(ino, 8);
    for i := 0 to 8
      invariant fh[..i] == bytes[..i] && fh[9] == old(fh[9])
    {
      fh[i] := bytes[i];
    }
    fh[8] := 1;
    assert fh[..8] == bytes;
    assert fh[..] == fh[..8] + [fh[8], fh[9]];
  }

  method FhCompPost(fh: array<Byte>, ino: nat) returns (post: Val)
    requires fh.Length == 10 && ino < 0x1_0000_0000_0000_0000
    modifies fh
    ensures fh[..] == Handle(ino, old(fh[9]))
    ensures Typed(POST_OP_FH3, post) && post == Choice(1, Str(Handle(ino, old(fh[9]))))
  {
    FhComp(fh, ino);
    post := Choice(1, Str(fh[..]));
    OptionalTyped(NFS_FH3, post);
  }

  lemma {:induction false} HandleDecomposes(t: Table, ino: nat, tenth: Byte)
    requires ino < 0x1_0000_0000_0000_0000
    ensures NfhValid(Handle(ino, tenth))
    ensures FhDecomp(t, Handle(ino, tenth)) == Resolved(t, ToInt32(ino))
  {
    Powers();
    LittleEndianRoundTrip(ino, 8);
    hide LittleEndian, FromLittleEndian, Pow256;
    assert Handle(ino, tenth)[..8] == LittleEndian(ino, 8);
  }

  // Sent, received and taken apart again, the handle made for an id the server can still tell
  // apart in a C int leads where the id leads, whatever the tenth byte.
  lemma {:induction false} HandleRoundTrip(t: Table, d: nat, tenth: Byte, rest: seq<Byte>)
    requires FIRST < d < 0x8000_0000
    ensures Typed(NFS_FH3, Str(Handle(d, tenth)))
    ensures Decode(NFS_FH3, Encode(NFS_FH3, Str(Handle(d, tenth))) + rest) == Some((Str(Handle(d, tenth)), rest))
    ensures NfhValid(Handle(d, tenth)) && FhDecomp(t, Handle(d, tenth)) == Resolved(t, d)
  {
    hide LittleEndian, BigEndian, Decode, Encode;
    RoundTrip(NFS_FH3, Str(Handle(d, tenth)), rest);
    HandleDecomposes(t, d, tenth);
  }

  // The handle of a path's id leads to the path.
  lemma {:induction false} HandleLeadsTo(s: State, p: Str, tenth: Byte)
    requires Good(s) && p in s.t.a
    ensures 100 < s.t.a[p] < 0x8000_0000 ==> FhDecomp(s.t, Handle(s.t.a[p], tenth)) == Some(p)
  {
    if 100 < s.t.a[p] < 0x8000_0000 { HandleRoundTrip(s.t, s.t.a[p], tenth, []); }
  }

  // For every 64-bit id that leads somewhere: its handle decodes to its path exactly below 2^31, unless
  // the id left of it as a C int leads to the same path; and while the maps are inverse none does.
  lemma {:induction false} HandleSurvivesExactly(t: Table, d: nat, tenth: Byte)
    requires d < 0x1_0000_0000_0000_0000 && Resolved(t, d).Some?
    ensures FhDecomp(t, Handle(d, tenth)) == Resolved(t, ToInt32(d))
    ensures FhDecomp(t, Handle(d, tenth)) == Resolved(t, d) <==>
            d < 0x8000_0000 || Resolved(t, ToInt32(d)) == Resolved(t, d)
    ensures Inverse(t) ==> (FhDecomp(t, Handle(d, tenth)) == Resolved(t, d) <==> d < 0x8000_0000)
  {
    HandleDecomposes(t, d, tenth);
    hide FhDecomp, Handle, Pow256;
    assert d >= 0x8000_0000 ==> ToInt32(d) != d;
    hide ToInt32;
    if Inverse(t) && Resolved(t, ToInt32(d)) == Resolved(t, d) {
      assert t.b[ToInt32(d)] == t.b[d] && t.a[t.b[d]] == d;
    }
  }

  lemma {:induction false} AliasTable(p: Str, q: Str)
    requires p != q
    ensures var d := 0x1_0000_0096; Inv(Table(map[p := d, q := 150], map[d := p, 150 := q], d))
  {
    var d := 0x1_0000_0096;
    var t := Table(map[p := d, q := 150], map[d := p, 150 := q], d);
    assert t.a[p] == d && t.a[q] == 150 && t.b[d] == p && t.b[150] == q;
  }

  // Otherwise another object's path may come of it: that of id 150 for id 2^32 + 150.
  lemma {:induction false} HandleAliases(p: Str, q: Str, tenth: Byte)
    requires p != q
    ensures var d := 0x1_0000_0096;
            var t := Table(map[p := d, q := 150], map[d := p, 150 := q], d);
            Inv(t) && Resolved(t, d) == Some(p) && FhDecomp(t, Handle(d, tenth)) == Some(q)
  {
    var d := 0x1_0000_0096;
    var t := Table(map[p := d, q := 150], map[d := p, 150 := q], d);
    AliasTable(p, q);
    assert Resolved(t, d) == Some(p) && Resolved(t, 150) == Some(q);
    hide Inv, Resolved, FhDecomp, Handle, Pow256;
    HandleDecomposes(t, d, tenth);
    assert ToInt32(d) == 150;
  }

  // Every valid handle whose length byte is zero means the root, whatever its id bytes.
  lemma {:induction false} RootHandles(t: Table, data: seq<Byte>)
    ensures |data| == 9 && data[8] == 0 ==> NfhValid(data) && FhDecomp(t, data) == Some(ROOT)
    ensures NfhValid(data) && data[8] == 0 ==> |data| == 9
    ensures NfhValid(data) ==> 9 <= |data| <= 264
  {
  }

  // The whole path of a handle: given out for the object at p in one state of a run, kept by the
  // client as wire bytes, and presented in a later state while the object exists at q, it is
  // decoded to q.
  lemma {:induction false} KeptHandleFindsObject(states: seq<State>, calls: seq<Call>, i: nat, j: nat, p: Str, d: nat,
                                                 tenth: Byte, rest: seq<Byte>, q: Str)
    requires Run(states, calls) && i <= j < |states|
    requires p in states[i].ns && p in states[i].t.a && states[i].t.a[p] == d
    requires FIRST < d < 0x8000_0000
    requires q in states[j].ns && states[j].ns[q].id == states[i].ns[p].id
    ensures var wire := Encode(NFS_FH3, Str(Handle(d, tenth))) + rest;
            var received := Decode(NFS_FH3, wire);
            && received.Some? && received.value.1 == rest && received.value.0.Str?
            && FhDecomp(states[j].t, received.value.0.s) == Some(q)
  {
    HandleRoundTrip(states[j].t, d, tenth, rest);
    HandlesFollowObjects(states, calls, i, j, p, d);
  }
}

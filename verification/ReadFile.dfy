// READ: go_pread over the back end, the one-byte look-ahead of nfsproc3_read_3_svc, and a client
// that reads a file from end to end.
module ReadFile {
  import opened Bytes
  import opened Paths
  import opened Status
  import opened Server
  import opened GoServers
  import opened FileHandle
  import opened PathAttributes
  import opened StaleHandles
  import opened Namespace
  import opened Xdr
  import opened NfsTypes
  import opened Results

  const NFS_MAXDATA_TCP := 524288
  const NFS_MAXDATA_UDP := 32768

  function Lower(s: string): (r: string)
    ensures |r| == |s|
  {
    seq(|s|, i requires 0 <= i < |s| => if 'A' <= s[i] <= 'Z' then (s[i] as int + 32) as char else s[i])
  }

  // End of file is not an error to go_pread, whatever its exact wording.
  predicate IsFault(err: Option<GoError>) {
    err.Some? && !(err.value.Other? && Contains(Lower(err.value.message), "eof"))
  }

  lemma {:induction false} SaysEof(m: string, i: nat)
    requires i <= |m|
    ensures "eof" <= Lower(m)[i..] <==>
            i + 3 <= |m| && m[i] in "eE" && m[i + 1] in "oO" && m[i + 2] in "fF"
  {
    var rest := Lower(m)[i..];
    if i + 3 <= |m| {
      assert rest[0] == Lower(m)[i] && rest[1] == Lower(m)[i + 1] && rest[2] == Lower(m)[i + 2];
      assert "eof" <= rest <==> rest[0] == 'e' && rest[1] == 'o' && rest[2] == 'f';
    }
  }

  // An error is a fault unless these three letters follow one another in it, whatever their case.
  lemma {:induction false} FaultExactly(err: Option<GoError>)
    ensures IsFault(err) <==>
            && err.Some?
            && (err.value.Other? ==>
                  var m := err.value.message;
                  forall i :: 0 <= i < |m| - 2 ==> !(m[i] in "eE" && m[i + 1] in "oO" && m[i + 2] in "fF"))
  {
    if err.Some? && err.value.Other? {
      var m := err.value.message;
      ContainsExactly(Lower(m), "eof");
      hide Contains, Lower;
      if IsFault(err) {
        forall i | 0 <= i < |m| - 2
          ensures !(m[i] in "eE" && m[i + 1] in "oO" && m[i + 2] in "fF")
        {
          SaysEof(m, i);
        }
      } else {
        var i :| 0 <= i <= |Lower(m)| && "eof" <= Lower(m)[i..];
        SaysEof(m, i);
      }
    }
  }

  lemma {:induction false} EofIsNoFault()
    ensures !IsFault(None) && !IsFault(Some(Other("EOF"))) && !IsFault(Some(Other("unexpected EOF")))
  {
    hide Contains, Lower;
    var long := "unexpected EOF";
    assert long[11] == 'E' && long[12] == 'O' && long[13] == 'F';
    var short := "EOF";
    assert short[0] == 'E' && short[1] == 'O' && short[2] == 'F';
    FaultExactly(Some(Other(short)));
    FaultExactly(Some(Other(long)));
  }

  // How many of count bytes there are from off on.
  function Available(file: seq<Byte>, off: nat, count: nat): (n: nat)
    ensures n <= count && (n > 0 ==> off + n <= |file|)
  {
    if off >= |file| then 0 else if off + count <= |file| then count else |file| - off
  }

  function Slice(file: seq<Byte>, off: nat, n: nat): seq<Byte> {
    if off + n <= |file| then file[off..off + n] else []
  }

  // What the back end answers, given what it has to say of the read itself: a negative offset is
  // refused in any case.
  function Verdict(off: int, outcome: Option<GoError>): Option<GoError> {
    if off < 0 && !IsFault(outcome) then Some(Invalid) else outcome
  }

  // ns.ReadFile: unless it fails it fills the buffer as far as the file goes. How the read turns
  // out is an input.
  method BackendRead(file: seq<Byte>, buf: array<Byte>, count: nat, off: int, outcome: Option<GoError>)
    returns (n: nat, err: Option<GoError>)
    requires count <= buf.Length
    modifies buf
    ensures err == Verdict(off, outcome)
    ensures !IsFault(err) ==> off >= 0 && n == Available(file, off, count) && buf[..n] == Slice(file, off, n)
  {
    n, err := 0, Verdict(off, outcome);
    if off < 0 {
      return;
    }
    n := Available(file, off, count);
    for i := 0 to n
      invariant n > 0 ==> buf[..i] == file[off..off + i]
    {
      buf[i] := file[off + i];
    }
  }

  // A count, or the negated status: the latter exactly for a fault.
  method GoPread(file: seq<Byte>, buf: array<Byte>, count: nat, offset: nat, outcome: Option<GoError>)
    returns (res: int)
    requires count <= buf.Length && count < 0x8000_0000 && offset < 0x1_0000_0000_0000_0000
    modifies buf
    ensures var err := Verdict(ToInt64(offset), outcome);
            if IsFault(err) then res == -ErrTranslator(err).0 && res < 0
            else
              && offset < 0x8000_0000_0000_0000 && res == Available(file, offset, count)
              && buf[..res] == Slice(file, offset, res)
  {
    var off := ToInt64(offset);
    var copiedBytes, err := BackendRead(file, buf, count, off, outcome);
    if IsFault(err) {
      return -ErrTranslator(err).0;
    }
    return copiedBytes;
  }

  function Clamp(count: nat, tcp: bool): nat {
    var maxdata := if tcp then NFS_MAXDATA_TCP else NFS_MAXDATA_UDP;
    if count > maxdata then maxdata else count
  }

  function ReadVal(post: Val, n: nat, eof: bool, data: seq<Byte>): Val {
    Both(post, Both(Num(n), Both(Num(if eof then 1 else 0), Str(data))))
  }

  // The reply's status and the part it selects.
  ghost predicate ReadAnswers(status: int, v: Val, file: seq<Byte>, count: nat, offset: nat, outcome: Option<GoError>,
                              post: Val)
    requires offset < 0x1_0000_0000_0000_0000
  {
    var err := Verdict(ToInt64(offset), outcome);
    if IsFault(err) then status == ErrTranslator(err).0 && status != NFS3_OK && v == post
    else
      var n := Available(file, offset, count);
      status == NFS3_OK && v == ReadVal(post, n, offset + n >= |file|, Slice(file, offset, n))
  }

  // READ in plain terms: what ReadAnswers says without clamping, slices and verdicts.
  ghost predicate ReadServes(status: int, v: Val, file: seq<Byte>, count: nat, offset: nat, tcp: bool,
                             outcome: Option<GoError>, post: Val)
  {
    var most := if tcp then 524288 else 32768;
    var n := if count < most then count else most;
    var bytes := if offset > |file| then []
                 else if offset + n > |file| then file[offset..] else file[offset..offset + n];
    if offset < 0x8000_0000_0000_0000 && !IsFault(outcome) then
      && status == 0
      && v == Both(post, Both(Num(|bytes|), Both(Num(if offset + n >= |file| then 1 else 0), Str(bytes))))
    else status != 0 && v == post
  }

  lemma {:induction false} ReadServesPlainly(status: int, v: Val, file: seq<Byte>, count: nat, offset: nat, tcp: bool,
                                             outcome: Option<GoError>, post: Val)
    requires offset < 0x1_0000_0000_0000_0000
    requires ReadAnswers(status, v, file, Clamp(count, tcp), offset, outcome, post)
    ensures ReadServes(status, v, file, count, offset, tcp, outcome, post)
  {
    hide Contains;
    var n := Available(file, offset, Clamp(count, tcp));
    assert offset < |file| ==> file[offset..|file|] == file[offset..];
    assert offset == |file| ==> file[offset..] == [] == Slice(file, offset, n);
  }

  // What ns.ReadFile may answer for a path: nothing but a plain file is read without a fault.
  predicate ReadFileAnswers(ns: Tree, p: Str, outcome: Option<GoError>) {
    !IsFault(outcome) ==> IsFile(ns, p)
  }

  // Section 3.3.6 of RFC 1813: unless the back end faults, the bytes from the offset, as many as
  // were asked for (within the server's limit) or as there are, and eof exactly when they reach the
  // end of the file: the one at the path the handle is served for.
  method NfsRead(server: GoServer, result: StaticResult, data: seq<Byte>, contents: Contents, outcome: Option<GoError>,
                 buf: array<Byte>, count: nat, offset: nat, tcp: bool)
    returns (ghost v: Val, ghost post: Val)
    requires server.Valid() && server.fddb.fdCounter < ID_LIMIT
    requires ReadFileAnswers(server.ns.tree, ServedPath(server.fddb.Value(), data), outcome)
    requires buf.Length == NFS_MAXDATA_TCP + 1
    requires count < 0x1_0000_0000 && offset < 0x1_0000_0000_0000_0000
    modifies server.fddb, result, buf
    ensures server.Valid() && server.fddb.fdCounter <= old(server.fddb.fdCounter) + 1
    ensures var path := DirOf(old(server.fddb.Value()), data);
            && Step(old(server.Value()), Lstat(OrEmpty(path)), server.Value())
            && AttributesOf(post, server.Value(), path)
    ensures Ready(result.status, result.memory, READ3, v)
    ensures var file := FileAt(server.ns.tree, contents, ServedPath(old(server.fddb.Value()), data));
            && ReadAnswers(result.status, v, file, Clamp(count, tcp), offset, outcome, post)
            && ReadServes(result.status, v, file, count, offset, tcp, outcome, post)
  {
    hide ReadServes, FileAt, DirOf, OrEmpty, Step, POST_OP_ATTR, Ready, Stored, Typed, Canonicalise, AttributesOf;
    var path := Decompose(server.fddb, data);
    ghost var memory := result.memory;
    var file := FileAt(server.ns.tree, contents, Canonicalise(OrEmpty(path)));
    var status, n, eof := ReadInto(result, file, outcome, buf, Clamp(count, tcp), offset);
    ghost var stored := result.memory;
    var after := GetPost(server, path);
    post := after;
    result.status := status;
    result.Store(READ3.resok, 0, after);
    if status == NFS3_OK {
      v := ReadVal(post, n, eof, buf[..n]);
      ReadSucceeds(memory, post, Num(n), Num(if eof then 1 else 0), Str(buf[..n]));
    } else {
      v := post;
      ReadFails(status, stored, post);
    }
    ReadServesPlainly(result.status, v, file, count, offset, tcp, outcome, post);
  }

  // One byte more is read than was asked for; on success the three members other than the
  // attributes are stored.
  method ReadInto(result: StaticResult, file: seq<Byte>, outcome: Option<GoError>, buf: array<Byte>, count: nat,
                  offset: nat)
    returns (status: int, n: nat, eof: bool)
    requires count < buf.Length == NFS_MAXDATA_TCP + 1 && offset < 0x1_0000_0000_0000_0000
    modifies result`memory, buf
    ensures n <= count && 0 <= status <= NFS3ERR_NOTEMPTY
    ensures var err := Verdict(ToInt64(offset), outcome);
            if IsFault(err) then status == ErrTranslator(err).0 && status != NFS3_OK
            else
              && status == NFS3_OK && n == Available(file, offset, count)
              && eof == (offset + n >= |file|) && buf[..n] == Slice(file, offset, n)
    ensures status == NFS3_OK ==> result.memory == ReadStored(old(result.memory), n, eof, buf[..n])
    ensures Typed(U32, Num(n)) && Typed(BOOL, Num(if eof then 1 else 0)) && Typed(Opaque(NO_LIMIT), Str(buf[..n]))
  {
    hide Stored, Contains, Typed;
    var res := GoPread(file, buf, count + 1, offset, outcome);
    n, eof := 0, false;
    if res > -1 {
      status := NFS3_OK;
      eof := res <= count;
      ghost var filled := buf[..res];
      if !eof {
        res := res - 1;
      }
      n := res;
      assert buf[..n] == filled[..n] == Slice(file, offset, n);
      result.Store(READ3.resok, 2, Num(if eof then 1 else 0));
      result.Store(READ3.resok, 1, Num(n));
      result.Store(READ3.resok, 3, Str(buf[..n]));
    } else {
      status := -res;
    }
    PartsTyped(n, eof, buf[..n]);
  }

  ghost function ReadStored(m: Cells, n: nat, eof: bool, data: seq<Byte>): Cells {
    var layout := READ3.resok;
    Stored(Stored(Stored(m, layout, 2, Num(if eof then 1 else 0)), layout, 1, Num(n)), layout, 3, Str(data))
  }

  lemma {:induction false} PartsTyped(n: nat, eof: bool, data: seq<Byte>)
    requires n <= NFS_MAXDATA_TCP + 1 && |data| <= NFS_MAXDATA_TCP + 1
    ensures Typed(U32, Num(n)) && Typed(BOOL, Num(if eof then 1 else 0)) && Typed(Opaque(NO_LIMIT), Str(data))
  {
  }

  lemma {:induction false} ReadFails(status: int, m: Cells, post: Val)
    requires Typed(POST_OP_ATTR, post) && status != NFS3_OK && Fits(Enum, status)
    ensures Ready(status, Stored(m, READ3.resok, 0, post), READ3, post)
  {
    ShapesMatch(6);
    hide Typed, Ready, Stored, POST_OP_ATTR;
    FailureSendsAttributes(status, m, READ3, post);
  }

  lemma {:induction false} ReadSucceeds(m: Cells, post: Val, n: Val, eof: Val, data: Val)
    requires Typed(POST_OP_ATTR, post) && Typed(U32, n) && Typed(BOOL, eof) && Typed(Opaque(NO_LIMIT), data)
    ensures var m3 := Stored(Stored(Stored(m, READ3.resok, 2, eof), READ3.resok, 1, n), READ3.resok, 3, data);
            Ready(NFS3_OK, Stored(m3, READ3.resok, 0, post), READ3, Both(post, Both(n, Both(eof, data))))
  {
    ShapesMatch(6);
    hide POST_OP_ATTR, Typed;
    var layout := READ3.resok;
    var m1 := Stored(m, layout, 2, eof);
    var m2 := Stored(m1, layout, 1, n);
    var m3 := Stored(m2, layout, 3, data);
    var m4 := Stored(m3, layout, 0, post);
    StoredElsewhere(m1, layout, 1, n, 2);
    StoredElsewhere(m2, layout, 3, data, 2);
    StoredElsewhere(m2, layout, 3, data, 1);
    StoredElsewhere(m3, layout, 0, post, 1);
    StoredElsewhere(m3, layout, 0, post, 2);
    StoredElsewhere(m3, layout, 0, post, 3);
    hide Stored, Offset;
    FourInOrder(m4, layout, post, n, eof, data);
    ReadTyped(post, n, eof, data);
    FourMembers(layout);
  }

  lemma {:induction false} FourInOrder(m: Cells, layout: seq<Member>, a: Val, b: Val, c: Val, d: Val)
    requires |layout| == 4
    requires Offset(layout, 0) in m && m[Offset(layout, 0)] == a
    requires Offset(layout, 1) in m && m[Offset(layout, 1)] == b
    requires Offset(layout, 2) in m && m[Offset(layout, 2)] == c
    requires Offset(layout, 3) in m && m[Offset(layout, 3)] == d
    ensures Holds(m, layout, [0, 1, 2, 3], Both(a, Both(b, Both(c, d))))
  {
    hide Offset;
    assert [0, 1, 2, 3][1..] == [1, 2, 3] && [1, 2, 3][1..] == [2, 3] && [2, 3][1..] == [3];
    assert Holds(m, layout, [3], d);
    assert Holds(m, layout, [2, 3], Both(c, d));
    assert Holds(m, layout, [1, 2, 3], Both(b, Both(c, d)));
  }

  lemma {:induction false} ReadTyped(post: Val, n: Val, eof: Val, data: Val)
    requires Typed(POST_OP_ATTR, post) && Typed(U32, n) && Typed(BOOL, eof) && Typed(Opaque(NO_LIMIT), data)
    ensures Typed(READ3RESOK, Both(post, Both(n, Both(eof, data))))
  {
    hide POST_OP_ATTR;
    assert Typed(Pair(BOOL, Opaque(NO_LIMIT)), Both(eof, data));
    assert Typed(Pair(U32, Pair(BOOL, Opaque(NO_LIMIT))), Both(n, Both(eof, data)));
  }

  // ------------------------------------------------------------------ reading to the end

  // How many calls it takes from off on.
  function Calls(size: nat, off: nat, count: nat): (n: nat)
    requires count > 0
    ensures n > 0
    decreases size - off
  {
    if off + count >= size then 1 else 1 + Calls(size, off + count, count)
  }

  // A client that asks for count bytes at a time until eof comes to it after that many calls and has
  // the handle's file from its start offset on, exactly unless the back end faults in one of them.
  // outcomes(k) is how the read of the k-th call turns out.
  method ReadToEnd(server: GoServer, result: StaticResult, data: seq<Byte>, contents: Contents,
                   outcomes: nat -> Option<GoError>, buf: array<Byte>, count: nat, start: nat, tcp: bool)
    returns (content: Option<seq<Byte>>)
    requires server.Valid() && buf.Length == NFS_MAXDATA_TCP + 1 && Settled(server.fddb.Value(), data)
    requires forall k: nat :: ReadFileAnswers(server.ns.tree, ServedPath(server.fddb.Value(), data), outcomes(k))
    requires 1 <= count < 0x1_0000_0000 && start < 0x8000_0000_0000_0000
    requires var size := |FileAt(server.ns.tree, contents, ServedPath(server.fddb.Value(), data))|;
             && size < 0x8000_0000_0000_0000
             && server.fddb.fdCounter + Calls(size, start, Clamp(count, tcp)) < ID_LIMIT
    modifies server.fddb, result, buf
    ensures var file := FileAt(server.ns.tree, contents, ServedPath(old(server.fddb.Value()), data));
            var calls := Calls(|file|, start, Clamp(count, tcp));
            content == if exists k: nat :: k < calls && IsFault(outcomes(k)) then None
                       else Some(From(file, start))
    ensures var file := FileAt(server.ns.tree, contents, ServedPath(old(server.fddb.Value()), data));
            (forall k: nat :: outcomes(k) == None || outcomes(k) == Some(Other("EOF"))) ==>
              content == Some(if start <= |file| then file[start..] else [])
  {
    EofIsNoFault();
    hide Available, Slice, IsFault, Good, ServedPath, FileAt, Settled, ReadFileAnswers, Between, From, Calls;
    ghost var p := ServedPath(server.fddb.Value(), data);
    ghost var file := FileAt(server.ns.tree, contents, p);
    Nothing(file, start);
    var off, got, eof, k := start, [], false, 0;
    ghost var c := Clamp(count, tcp);
    while !eof
      invariant server.Valid() && server.fddb.fdCounter <= old(server.fddb.fdCounter) + k
      invariant ServedPath(server.fddb.Value(), data) == p && Settled(server.fddb.Value(), data)
      invariant start <= off < 0x8000_0000_0000_0000 && got == Between(file, start, off)
      invariant forall i: nat :: i < k ==> !IsFault(outcomes(i))
      invariant if eof then off >= |file| && k == Calls(|file|, start, c)
                else k + Calls(|file|, off, c) == Calls(|file|, start, c)
      decreases !eof, |file| - off
    {
      var bytes, last := ReadOnce(server, result, data, contents, outcomes(k), buf, count, off, tcp);
      if result.status != NFS3_OK {
        return None;
      }
      Advance(file, start, off, c);
      CallsStep(|file|, off, c);
      got, off, eof, k := got + bytes, off + |bytes|, last, k + 1;
    }
    ToTheEnd(file, start, off);
    FromIs(file, start);
    return Some(got);
  }

  lemma {:induction false} CallsStep(size: nat, off: nat, count: nat)
    requires count > 0
    ensures Calls(size, off, count) == if off + count >= size then 1 else 1 + Calls(size, off + count, count)
  {
  }

  lemma {:induction false} Nothing(file: seq<Byte>, lo: nat)
    ensures Between(file, lo, lo) == []
  {
  }

  function From(file: seq<Byte>, lo: nat): seq<Byte> {
    if lo <= |file| then file[lo..] else []
  }

  lemma {:induction false} FromIs(file: seq<Byte>, lo: nat)
    ensures From(file, lo) == if lo <= |file| then file[lo..] else []
  {
  }

  lemma {:induction false} ToTheEnd(file: seq<Byte>, lo: nat, hi: nat)
    requires lo <= hi && |file| <= hi
    ensures Between(file, lo, hi) == From(file, lo)
  {
  }

  // The bytes from lo on, up to hi or to the end.
  function Between(file: seq<Byte>, lo: nat, hi: nat): seq<Byte>
    requires lo <= hi
  {
    if hi < |file| then file[lo..hi] else if lo <= |file| then file[lo..] else []
  }

  lemma {:induction false} Advance(file: seq<Byte>, start: nat, off: nat, count: nat)
    requires start <= off && count > 0
    ensures var n := Available(file, off, count);
            && |Slice(file, off, n)| == n
            && Between(file, start, off) + Slice(file, off, n) == Between(file, start, off + n)
            && (off + n < |file| <==> off + count < |file|)
            && (off + n < |file| ==> n == count)
            && (off < 0x8000_0000_0000_0000 && |file| < 0x8000_0000_0000_0000 ==> off + n < 0x8000_0000_0000_0000)
  {
  }

  // One call, and what the client finds in the reply.
  method ReadOnce(server: GoServer, result: StaticResult, data: seq<Byte>, contents: Contents,
                  outcome: Option<GoError>, buf: array<Byte>, count: nat, off: nat, tcp: bool)
    returns (bytes: seq<Byte>, eof: bool)
    requires server.Valid() && server.fddb.fdCounter < ID_LIMIT && buf.Length == NFS_MAXDATA_TCP + 1
    requires ReadFileAnswers(server.ns.tree, ServedPath(server.fddb.Value(), data), outcome)
    requires count < 0x1_0000_0000 && off < 0x8000_0000_0000_0000 && Settled(server.fddb.Value(), data)
    modifies server.fddb, result, buf
    ensures server.Valid() && server.fddb.fdCounter <= old(server.fddb.fdCounter) + 1
    ensures Settled(server.fddb.Value(), data)
    ensures ServedPath(server.fddb.Value(), data) == ServedPath(old(server.fddb.Value()), data)
    ensures result.status == NFS3_OK <==> !IsFault(outcome)
    ensures result.status == NFS3_OK ==>
              var file := FileAt(server.ns.tree, contents, ServedPath(old(server.fddb.Value()), data));
              var n := Available(file, off, Clamp(count, tcp));
              bytes == Slice(file, off, n) && eof == (off + n >= |file|)
  {
    hide Ready, Step, Canonicalise, AttributesOf, DirOf, IsFault, READ3, Available, Slice, ServedPath, FileAt, Settled,
         ReadFileAnswers;
    ghost var before := server.Value();
    ghost var v, post := NfsRead(server, result, data, contents, outcome, buf, count, off, tcp);
    StatLeavesServed(before, server.Value(), OrEmpty(DirOf(before.t, data)), data);
    bytes, eof := [], false;
    if result.status == NFS3_OK {
      var _, last, content := Received(result, v);
      bytes, eof := content, last;
    }
  }

  // The members of a successful reply.
  method Received(result: StaticResult, ghost v: Val) returns (n: nat, eof: bool, data: seq<Byte>)
    requires Ready(NFS3_OK, result.memory, READ3, v)
    ensures v.Both? && v.snd.Both? && v.snd.snd.Both?
    ensures v.snd.fst == Num(n) && v.snd.snd.fst == Num(if eof then 1 else 0) && v.snd.snd.snd == Str(data)
  {
    var layout := READ3.resok;
    assert [0, 1, 2, 3][1..] == [1, 2, 3] && [1, 2, 3][1..] == [2, 3] && [2, 3][1..] == [3];
    FourMembers(layout);
    n := result.memory[Offset(layout, 1)].n;
    eof := result.memory[Offset(layout, 2)].n == 1;
    data := result.memory[Offset(layout, 3)].s;
  }
}

// nfsproc3_readdir_3_svc: the byte budget, the reply, its encoding straight from the buffers,
// and what a client sees over several calls.
module ReaddirReply {
  import opened Bytes
  import opened Paths
  import opened Status
  import opened HandleTable
  import opened Server
  import opened FdCaches
  import opened GoServers
  import opened FileHandle
  import opened PathAttributes
  import opened StaleHandles
  import opened Namespace
  import opened Results
  import opened Memory
  import opened Readdir
  import opened Xdr
  import opened XdrStreams
  import opened NfsTypes

  const RESOK_SIZE := 104

  function Clamped(count: nat): nat {
    if count > 4096 then 4096 else count
  }

  // count -= RESOK_SIZE in 32 unsigned bits.
  function Budget(count: nat): nat {
    if Clamped(count) >= RESOK_SIZE then Clamped(count) - RESOK_SIZE else Clamped(count) + 0x1_0000_0000 - RESOK_SIZE
  }

  // ------------------------------------------------------------------ the reply as a value

  function EntryVal(e: Entry): Val {
    Both(Num(e.fileid), Both(Str(e.name), Num(e.cookie)))
  }

  function EntryVals(es: seq<Entry>): (vs: seq<Val>)
    ensures |vs| == |es|
  {
    if es == [] then [] else [EntryVal(es[0])] + EntryVals(es[1..])
  }

  const ZERO_VERIFIER: Bytes.Str := [0, 0, 0, 0, 0, 0, 0, 0]

  function Resok(attrs: Val, es: seq<Entry>, eof: bool): Val {
    Both(attrs, Both(Str(ZERO_VERIFIER), Both(Items(EntryVals(es)), Num(if eof then 1 else 0))))
  }

  predicate Sendable(e: Entry) {
    && 0 <= e.fileid < 0x1_0000_0000_0000_0000 && 0 <= e.cookie < 0x1_0000_0000_0000_0000
    && NulFree(e.name) && |e.name| < NFS_MAXPATHLEN
  }

  lemma {:induction false} EntryTyped(e: Entry)
    requires Sendable(e)
    ensures Typed(ENTRY3, EntryVal(e))
  {
    assert Typed(Pair(FILENAME3, U64), Both(Str(e.name), Num(e.cookie)));
  }

  lemma {:induction false} EntriesTyped(es: seq<Entry>)
    requires forall e :: e in es ==> Sendable(e)
    ensures AllTyped(ENTRY3, EntryVals(es))
  {
    if es != [] {
      EntryTyped(es[0]);
      EntriesTyped(es[1..]);
    }
  }

  lemma {:induction false} ResokTyped(attrs: Val, es: seq<Entry>, eof: bool)
    requires Typed(POST_OP_ATTR, attrs) && forall e :: e in es ==> Sendable(e)
    ensures Typed(READDIR3RESOK, Resok(attrs, es, eof))
  {
    hide POST_OP_ATTR, ENTRY3;
    EntriesTyped(es);
    var reply := Both(Items(EntryVals(es)), Num(if eof then 1 else 0));
    assert Typed(List(ENTRY3), reply.fst);
    assert Typed(DIRLIST3, reply);
    assert Typed(Pair(VERIFIER, DIRLIST3), Both(Str(ZERO_VERIFIER), reply));
  }

  // ------------------------------------------------------------------ the size of a reply

  function WireSize(e: Entry): nat {
    24 + |e.name| + PadLength(|e.name|)
  }

  function WireSizes(es: seq<Entry>): nat {
    if es == [] then 0 else WireSize(es[0]) + WireSizes(es[1..])
  }

  lemma {:induction false} EntryLength(e: Entry)
    requires Sendable(e)
    ensures Typed(ENTRY3, EntryVal(e)) && 4 + |Encode(ENTRY3, EntryVal(e))| == WireSize(e)
  {
    EntryTyped(e);
    hide BigEndian, Padded, PadLength;
    var rest := Both(Str(e.name), Num(e.cookie));
    assert |Encode(FILENAME3, Str(e.name))| == 4 + |e.name| + PadLength(|e.name|);
    assert |Encode(Pair(FILENAME3, U64), rest)| == 12 + |e.name| + PadLength(|e.name|);
  }

  lemma {:induction false} ListLength(es: seq<Entry>)
    requires forall e :: e in es ==> Sendable(e)
    ensures AllTyped(ENTRY3, EntryVals(es))
    ensures |EncodeList(ENTRY3, EntryVals(es))| == WireSizes(es) + 4
  {
    EntriesTyped(es);
    if es != [] {
      hide Encode, BigEndian, WireSize;
      EntryLength(es[0]);
      ListLength(es[1..]);
      assert EntryVals(es)[1..] == EntryVals(es[1..]);
    }
  }

  // Attributes, verifier, list with its end, eof: what RESOK_SIZE accounts for, when the
  // attributes are there, is all but the entries.
  lemma {:induction false} ResokLength(attrs: Val, es: seq<Entry>, eof: bool)
    requires Typed(POST_OP_ATTR, attrs) && forall e :: e in es ==> Sendable(e)
    ensures Typed(READDIR3RESOK, Resok(attrs, es, eof))
    ensures |Encode(READDIR3RESOK, Resok(attrs, es, eof))| ==
            WireSizes(es) + if attrs == NO_ATTR then RESOK_SIZE - 84 else RESOK_SIZE
  {
    hide POST_OP_ATTR, ENTRY3, BigEndian;
    ResokTyped(attrs, es, eof);
    PostOpAttrLength(attrs);
    ListLength(es);
    var reply := Both(Items(EntryVals(es)), Num(if eof then 1 else 0));
    assert |Encode(DIRLIST3, reply)| == WireSizes(es) + 8;
    assert |Encode(Pair(VERIFIER, DIRLIST3), Both(Str(ZERO_VERIFIER), reply))| == WireSizes(es) + 16;
  }

  function Costs(arr: seq<Bytes.Str>, start: nat, k: nat): nat
    requires start + k <= |arr|
    decreases k
  {
    if k == 0 then 0 else Cost(arr[start]) + Costs(arr, start + 1, k - 1)
  }

  // The page is the longest run that the budget and the slots allow.
  lemma {:induction false} PageIsGreedy(arr: seq<Bytes.Str>, start: nat, budget: nat, slots: nat)
    requires start <= |arr|
    ensures var k := PageLength(arr, start, budget, slots);
            && Costs(arr, start, k) <= budget
            && (k < slots && start + k < |arr| ==> Costs(arr, start, k) + Cost(arr[start + k]) > budget)
    decreases |arr| - start
  {
    if start < |arr| && budget >= Cost(arr[start]) && slots > 0 {
      PageIsGreedy(arr, start + 1, budget - Cost(arr[start]), slots - 1);
    }
  }

  // XDR spends at most what the budget charged: padding never exceeds the NUL and the pointers.
  lemma {:induction false} ChargedEnough(es: seq<Entry>, arr: seq<Bytes.Str>, start: nat)
    requires start + |es| <= |arr|
    requires forall j :: 0 <= j < |es| ==> es[j].name == arr[start + j]
    ensures WireSizes(es) + 6 * |es| <= Costs(arr, start, |es|)
  {
    if es != [] {
      assert es[0].name == arr[start];
      forall j | 0 <= j < |es[1..]|
        ensures es[1..][j].name == arr[start + 1 + j]
      {
        assert es[1 + j].name == arr[start + (1 + j)];
      }
      ChargedEnough(es[1..], arr, start + 1);
    }
  }

  lemma {:induction false} PageSendable(t: Table, dir: Bytes.Str, arr: seq<Bytes.Str>, start: nat, k: nat)
    requires Inv(t) && t.counter < 0x8000_0000_0000_0000 && start + k <= |arr| < 0x8000_0000_0000_0000
    requires Listable(arr)
    ensures forall e :: e in PageEntries(t, dir, arr, start, k) ==> Sendable(e)
  {
    hide Clean;
    var es := PageEntries(t, dir, arr, start, k);
    forall e | e in es
      ensures Sendable(e)
    {
      var j :| 0 <= j < |es| && es[j] == e;
      assert e == Entry(IdOrZero(t, ListedPath(dir, arr[start + j])), arr[start + j], start + j + 1);
    }
  }

  // Section 3.3.16 of RFC 1813: the reply to a READDIR is no longer than the count the client
  // sent, nor than 4096 bytes. So it is for every count of at least 104; below that, whenever
  // the attributes are sent, it never is, because the budget has wrapped.
  lemma {:induction false} ReplyWithinCount(t: Table, dir: Bytes.Str, arr: seq<Bytes.Str>, cookie: nat, count: nat,
                                            attrs: Val, eof: bool)
    requires Inv(t) && t.counter < 0x8000_0000_0000_0000 && cookie <= |arr| < 0x8000_0000_0000_0000
    requires Listable(arr) && Typed(POST_OP_ATTR, attrs)
    ensures var k := PageLength(arr, cookie, Budget(count), MAX_ENTRIES);
            var v := Resok(attrs, PageEntries(t, dir, arr, cookie, k), eof);
            && Typed(READDIR3RESOK, v)
            && (count >= RESOK_SIZE ==> |Encode(READDIR3RESOK, v)| <= Clamped(count))
            && (attrs != NO_ATTR ==> (|Encode(READDIR3RESOK, v)| <= count <==> count >= RESOK_SIZE))
  {
    hide POST_OP_ATTR, READDIR3RESOK, Typed, Encode, Clean;
    var k := PageLength(arr, cookie, Budget(count), MAX_ENTRIES);
    var es := PageEntries(t, dir, arr, cookie, k);
    PageSendable(t, dir, arr, cookie, k);
    ResokLength(attrs, es, eof);
    PageIsGreedy(arr, cookie, Budget(count), MAX_ENTRIES);
    ChargedEnough(es, arr, cookie);
  }

  // A page in numbers: from count 104 on it holds at least k entries exactly when their names take
  // no more than what is left of the count, or of 4096, after 104 bytes and 33 for each entry.
  lemma {:induction false} PageInNumbers(arr: seq<Bytes.Str>, start: nat, k: nat, count: nat)
    requires start + k <= |arr| && k <= 170 && count >= 104
    ensures PageLength(arr, start, Budget(count), MAX_ENTRIES) >= k <==>
            TotalLength(arr, start, k) + 33 * k <= (if count < 4096 then count else 4096) - 104
  {
    PageReaches(arr, start, Budget(count), MAX_ENTRIES, k);
  }

  // So a name fits a page by itself exactly if it leaves room for 137 bytes more.
  lemma {:induction false} FitsInNumbers(arr: seq<Bytes.Str>, count: nat)
    requires count >= 104
    ensures AllFit(arr, Budget(count), 0) <==>
            forall i :: 0 <= i < |arr| ==> |arr[i]| + 137 <= if count < 4096 then count else 4096
  {
  }

  lemma {:induction false} CostsGrow(arr: seq<Bytes.Str>, start: nat, k: nat)
    requires start + k <= |arr|
    ensures Costs(arr, start, k) >= 33 * k
    decreases k
  {
    if k > 0 { CostsGrow(arr, start + 1, k - 1); }
  }

  lemma {:induction false} SpareSlots(arr: seq<Bytes.Str>, start: nat, budget: int, slots: nat, more: nat)
    requires start <= |arr| && PageLength(arr, start, budget, slots) < slots <= more
    ensures PageLength(arr, start, budget, more) == PageLength(arr, start, budget, slots)
    decreases |arr| - start
  {
    if start < |arr| && budget - Cost(arr[start]) >= 0 {
      SpareSlots(arr, start + 1, budget - Cost(arr[start]), slots - 1, more - 1);
    }
  }

  // With a count of at least 104 no more than 120 entries ever fit the budget, so the limit of
  // 170 slots decides nothing: any larger number would give the same page.
  lemma {:induction false} EntryLimitUnused(arr: seq<Bytes.Str>, cookie: nat, count: nat, slots: nat)
    requires cookie <= |arr| && count >= RESOK_SIZE && slots >= MAX_ENTRIES
    ensures PageLength(arr, cookie, Budget(count), MAX_ENTRIES) <= 120
    ensures PageLength(arr, cookie, Budget(count), slots) == PageLength(arr, cookie, Budget(count), MAX_ENTRIES)
  {
    var k := PageLength(arr, cookie, Budget(count), MAX_ENTRIES);
    PageIsGreedy(arr, cookie, Budget(count), MAX_ENTRIES);
    CostsGrow(arr, cookie, k);
    SpareSlots(arr, cookie, Budget(count), MAX_ENTRIES, slots);
  }

  // ------------------------------------------------------------------ paging

  // What a client collects that starts at a cookie and sends each page's last cookie again until
  // eof; None if it is handed an empty page without eof, which would repeat forever.
  function Collected(arr: seq<Bytes.Str>, budget: nat, slots: nat, cookie: nat): Option<seq<Bytes.Str>>
    requires cookie <= |arr|
    decreases |arr| - cookie
  {
    var k := PageLength(arr, cookie, budget, slots);
    if cookie + k == |arr| then Some(arr[cookie..cookie + k])
    else if k == 0 then None
    else
      match Collected(arr, budget, slots, cookie + k)
      case None => None
      case Some(rest) => Some(arr[cookie..cookie + k] + rest)
  }

  predicate AllFit(arr: seq<Bytes.Str>, budget: nat, from: nat) {
    forall i :: from <= i < |arr| ==> Cost(arr[i]) <= budget
  }

  lemma {:induction false} PageMembersFit(arr: seq<Bytes.Str>, start: nat, budget: nat, slots: nat, i: nat)
    requires start <= |arr| && start <= i < start + PageLength(arr, start, budget, slots)
    ensures Cost(arr[i]) <= budget
    decreases |arr| - start
  {
    if i > start { PageMembersFit(arr, start + 1, budget - Cost(arr[start]), slots - 1, i); }
  }

  // The client gets every remaining name, once each and in order, exactly when each name fits
  // the page budget on its own; otherwise it is stuck.
  lemma {:induction false} PagingExact(arr: seq<Bytes.Str>, budget: nat, slots: nat, cookie: nat)
    requires cookie <= |arr| && slots > 0
    ensures Collected(arr, budget, slots, cookie) == if AllFit(arr, budget, cookie) then Some(arr[cookie..]) else None
    decreases |arr| - cookie
  {
    var k := PageLength(arr, cookie, budget, slots);
    forall i | cookie <= i < cookie + k
      ensures Cost(arr[i]) <= budget
    {
      PageMembersFit(arr, cookie, budget, slots, i);
    }
    if cookie + k == |arr| {
      assert arr[cookie..cookie + k] == arr[cookie..];
    } else if k == 0 {
      PageIsGreedy(arr, cookie, budget, slots);
      assert Cost(arr[cookie]) > budget;
    } else {
      PagingExact(arr, budget, slots, cookie + k);
      assert arr[cookie..cookie + k] + arr[cookie + k..] == arr[cookie..];
      assert AllFit(arr, budget, cookie) <==> AllFit(arr, budget, cookie + k);
    }
  }

  // ------------------------------------------------------------------ the procedure

  // The whole reply, given the table after the call.
  function PageReply(t: Table, dir: Bytes.Str, arr: seq<Bytes.Str>, err: Option<GoError>,
                     cookie: nat, count: nat, attrs: Val): Val
  {
    if err != None then Choice(ErrTranslator(err).0, attrs)
    else if cookie > |arr| then Choice(NFS3ERR_BAD_COOKIE, attrs)
    else
      var k := PageLength(arr, cookie, Budget(count), MAX_ENTRIES);
      Choice(NFS3_OK, Resok(attrs, PageEntries(t, dir, arr, cookie, k), cookie + k == |arr|))
  }

  // xdr_pointer and xdr_entry3, following the pointers of the buffers themselves.
  method PutEntries(stream: XdrStream, m: Buffers, p: nat, fuel: nat, ghost es: seq<Entry>)
    requires Walk(m, p, fuel) == Some(es) && forall e :: e in es ==> Sendable(e)
    modifies stream`data
    ensures AllTyped(ENTRY3, EntryVals(es))
    ensures stream.data == old(stream.data) + EncodeList(ENTRY3, EntryVals(es))
    decreases fuel
  {
    hide Walk, EntryAt, ENTRY3, BigEndian, Encode;
    EntriesTyped(es);
    WalkUnfolds(m, p, fuel, es);
    if p == 0 {
      stream.PutNumber(Bool, 0);
      return;
    }
    var at := EntryAt(m, p);
    var e, next := at.value.0, at.value.1;
    stream.PutNumber(Bool, 1);
    PutEntry(stream, e);
    assert EntryVals(es)[1..] == EntryVals(es[1..]);
    PutEntries(stream, m, next, fuel - 1, es[1..]);
    ListAppended(old(stream.data), es);
  }

  lemma {:induction false} WalkUnfolds(m: Buffers, p: nat, fuel: nat, es: seq<Entry>)
    requires Walk(m, p, fuel) == Some(es)
    ensures if p == 0 then es == []
            else es != [] && fuel > 0 && EntryAt(m, p).Some? && EntryAt(m, p).value.0 == es[0]
                 && Walk(m, EntryAt(m, p).value.1, fuel - 1) == Some(es[1..])
  {
    hide EntryAt;
  }

  lemma {:induction false} ListAppended(before: seq<Byte>, es: seq<Entry>)
    requires es != [] && AllTyped(ENTRY3, EntryVals(es))
    ensures before + BigEndian(1, 4) + Encode(ENTRY3, EntryVal(es[0])) + EncodeList(ENTRY3, EntryVals(es)[1..])
         == before + EncodeList(ENTRY3, EntryVals(es))
  {
    hide Encode, BigEndian;
    var node := Encode(ENTRY3, EntryVal(es[0]));
    AppendAssociative(before, BigEndian(1, 4), node);
    AppendAssociative(before, BigEndian(1, 4) + node, EncodeList(ENTRY3, EntryVals(es)[1..]));
  }

  method PutEntry(stream: XdrStream, e: Entry)
    requires Sendable(e)
    modifies stream`data
    ensures Typed(ENTRY3, EntryVal(e)) && stream.data == old(stream.data) + Encode(ENTRY3, EntryVal(e))
  {
    var ok := stream.Put(ENTRY3, EntryVal(e));
    EntryTyped(e);
  }

  // xdr_READDIR3resok: the list is still in the buffers, at p.
  method PutResok(stream: XdrStream, attrs: Val, verifier: Bytes.Str, m: Buffers, p: nat, eof: bool,
                  ghost es: seq<Entry>)
    requires Walk(m, p, MAX_ENTRIES) == Some(es) && Typed(POST_OP_ATTR, attrs) && verifier == ZERO_VERIFIER
    requires forall e :: e in es ==> Sendable(e)
    modifies stream`data
    ensures Typed(READDIR3RESOK, Resok(attrs, es, eof))
    ensures stream.data == old(stream.data) + (EncodeNumber(Enum, 0) + Encode(READDIR3RESOK, Resok(attrs, es, eof)))
  {
    ResokTyped(attrs, es, eof);
    ListTyped(es, eof);
    hide Laid, Walk, POST_OP_ATTR, ENTRY3, BigEndian;
    stream.PutNumber(Enum, 0);
    var _ := stream.Put(POST_OP_ATTR, attrs);
    stream.PutRaw(Padded(verifier));
    PutEntries(stream, m, p, MAX_ENTRIES, es);
    stream.PutNumber(Bool, if eof then 1 else 0);
    ResokAppended(old(stream.data), attrs, es, eof);
  }

  lemma {:induction false} ListTyped(es: seq<Entry>, eof: bool)
    requires forall e :: e in es ==> Sendable(e)
    ensures AllTyped(ENTRY3, EntryVals(es))
    ensures Typed(DIRLIST3, Both(Items(EntryVals(es)), Num(if eof then 1 else 0)))
    ensures Encode(DIRLIST3, Both(Items(EntryVals(es)), Num(if eof then 1 else 0)))
         == EncodeList(ENTRY3, EntryVals(es)) + EncodeNumber(Bool, if eof then 1 else 0)
  {
    hide ENTRY3, BigEndian;
    EntriesTyped(es);
  }

  lemma {:induction false} ResokAppended(before: seq<Byte>, attrs: Val, es: seq<Entry>, eof: bool)
    requires Typed(POST_OP_ATTR, attrs) && forall e :: e in es ==> Sendable(e)
    ensures Typed(READDIR3RESOK, Resok(attrs, es, eof)) && AllTyped(ENTRY3, EntryVals(es))
    ensures before + EncodeNumber(Enum, 0) + Encode(POST_OP_ATTR, attrs) + Padded(ZERO_VERIFIER)
              + EncodeList(ENTRY3, EntryVals(es)) + EncodeNumber(Bool, if eof then 1 else 0)
         == before + (EncodeNumber(Enum, 0) + Encode(READDIR3RESOK, Resok(attrs, es, eof)))
  {
    ResokTyped(attrs, es, eof);
    ListTyped(es, eof);
    hide POST_OP_ATTR, ENTRY3, BigEndian, EncodeList, EncodeNumber;
    var head, verifier := Encode(POST_OP_ATTR, attrs), Padded(ZERO_VERIFIER);
    var list, end := EncodeList(ENTRY3, EntryVals(es)), EncodeNumber(Bool, if eof then 1 else 0);
    var reply := Both(Items(EntryVals(es)), Num(if eof then 1 else 0));
    assert Encode(Pair(VERIFIER, DIRLIST3), Both(Str(ZERO_VERIFIER), reply)) == verifier + (list + end);
    assert Encode(READDIR3RESOK, Resok(attrs, es, eof)) == head + (verifier + (list + end));
    SixParts(before, EncodeNumber(Enum, 0), head, verifier, list, end);
  }

  lemma {:induction false} SixParts(a: seq<Byte>, b: seq<Byte>, c: seq<Byte>, d: seq<Byte>, e: seq<Byte>, f: seq<Byte>)
    ensures a + b + c + d + e + f == a + (b + (c + (d + (e + f))))
  {
    AppendAssociative(a + b + c + d, e, f);
    AppendAssociative(a + b + c, d, e + f);
    AppendAssociative(a + b, c, d + (e + f));
    AppendAssociative(a, b, c + (d + (e + f)));
  }

  // What the procedure puts in the result struct: verifier, list (as a pointer) and eof, and the
  // attributes last.
  function ListStored(m: Cells, head: nat, eof: bool): Cells {
    var layout := READDIR3.resok;
    Stored(Stored(Stored(m, layout, 1, Str(ZERO_VERIFIER)), layout, 2, Num(head)), layout, 3, Num(if eof then 1 else 0))
  }

  function PageStored(m: Cells, head: nat, eof: bool, attrs: Val): Cells {
    Stored(ListStored(m, head, eof), READDIR3.resok, 0, attrs)
  }

  method StoreList(result: StaticResult, head: nat, eof: bool)
    modifies result`memory
    ensures result.memory == ListStored(old(result.memory), head, eof)
  {
    hide Stored, POST_OP_ATTR, ENTRY3;
    result.Store(READDIR3.resok, 1, Str(ZERO_VERIFIER));
    result.Store(READDIR3.resok, 2, Num(head));
    result.Store(READDIR3.resok, 3, Num(if eof then 1 else 0));
  }

  method StoreDirectory(result: StaticResult, attrs: Val, ghost was: Cells, ghost head: nat, ghost eof: bool)
    requires result.memory == ListStored(was, head, eof)
    modifies result`memory
    ensures result.memory == PageStored(was, head, eof, attrs)
  {
    hide Stored, ListStored, POST_OP_ATTR, ENTRY3;
    result.Store(READDIR3.resok, 0, attrs);
  }

  lemma {:induction false} PageStoredHolds(m: Cells, head: nat, eof: bool, attrs: Val)
    ensures var layout, m' := READDIR3.resok, PageStored(m, head, eof, attrs);
            && Offset(layout, 0) in m' && m'[Offset(layout, 0)] == attrs
            && Offset(layout, 1) in m' && m'[Offset(layout, 1)] == Str(ZERO_VERIFIER)
            && Offset(layout, 2) in m' && m'[Offset(layout, 2)] == Num(head)
            && Offset(layout, 3) in m' && m'[Offset(layout, 3)] == Num(if eof then 1 else 0)
  {
    hide POST_OP_ATTR, ENTRY3;
    var layout := READDIR3.resok;
    var m1 := Stored(m, layout, 1, Str(ZERO_VERIFIER));
    var m2 := Stored(m1, layout, 2, Num(head));
    var m3 := Stored(m2, layout, 3, Num(if eof then 1 else 0));
    StoredElsewhere(m1, layout, 2, Num(head), 1);
    StoredElsewhere(m2, layout, 3, Num(if eof then 1 else 0), 1);
    StoredElsewhere(m2, layout, 3, Num(if eof then 1 else 0), 2);
    StoredElsewhere(m3, layout, 0, attrs, 1);
    StoredElsewhere(m3, layout, 0, attrs, 2);
    StoredElsewhere(m3, layout, 0, attrs, 3);
  }

  // xdr_READDIR3res: by status, resok read back member by member and the list behind its pointer,
  // or resfail overlaid on it.
  method PutReply(stream: XdrStream, result: StaticResult, m: Buffers,
                  ghost was: Cells, ghost attrs: Val, ghost eof: bool, ghost es: seq<Entry>)
    requires Fits(Enum, result.status) && Typed(POST_OP_ATTR, attrs)
    requires Laid(m, es) && forall e :: e in es ==> Sendable(e)
    requires result.memory == PageStored(was, Head(m), eof, attrs)
    modifies stream`data
    ensures var reply := Choice(result.status, if result.status == NFS3_OK then Resok(attrs, es, eof) else attrs);
            Appended(old(stream.data), stream.data, Reply(READDIR3RESOK, POST_OP_ATTR), reply)
  {
    LaidPlaced(m, es);
    hide Laid, Encode, Typed, POST_OP_ATTR, READDIR3RESOK, READDIR3, Ready, PageStored;
    if result.status == NFS3_OK {
      PutPage(stream, result.memory, m, was, attrs, eof, es);
      hide Resok;
      GoodReply(READDIR3RESOK, POST_OP_ATTR, Resok(attrs, es, eof));
    } else {
      PutFailure(stream, result, was, Head(m), eof, attrs);
    }
  }

  method PutFailure(stream: XdrStream, result: StaticResult, ghost was: Cells, ghost head: nat, ghost eof: bool,
                    ghost attrs: Val)
    requires result.status != NFS3_OK && Fits(Enum, result.status) && Typed(POST_OP_ATTR, attrs)
    requires result.memory == PageStored(was, head, eof, attrs)
    modifies stream`data
    ensures Appended(old(stream.data), stream.data, Reply(READDIR3RESOK, POST_OP_ATTR), Choice(result.status, attrs))
  {
    hide Encode, Typed, POST_OP_ATTR, READDIR3RESOK, READDIR3, Ready, PageStored;
    FailureSendsDirectory(result.status, was, head, eof, attrs);
    result.Send(stream, READDIR3, attrs);
  }

  method PutPage(stream: XdrStream, cells: Cells, m: Buffers, ghost was: Cells, ghost attrs: Val, ghost eof: bool,
                 ghost es: seq<Entry>)
    requires Typed(POST_OP_ATTR, attrs) && Laid(m, es) && forall e :: e in es ==> Sendable(e)
    requires cells == PageStored(was, Head(m), eof, attrs)
    modifies stream`data
    ensures Typed(READDIR3RESOK, Resok(attrs, es, eof))
    ensures stream.data == old(stream.data) + (EncodeNumber(Enum, 0) + Encode(READDIR3RESOK, Resok(attrs, es, eof)))
  {
    LaidPlaced(m, es);
    hide Laid, Walk, Encode, Typed, Offset, POST_OP_ATTR, READDIR3RESOK, PageStored;
    var layout := READDIR3.resok;
    PageStoredHolds(was, Head(m), eof, attrs);
    LaidIsList(m, es);
    var dir, verifier := cells[Offset(layout, 0)], cells[Offset(layout, 1)].s;
    var head, end := cells[Offset(layout, 2)].n, cells[Offset(layout, 3)].n != 0;
    PutResok(stream, dir, verifier, m, head, end, es);
  }

  lemma {:induction false} FailureSendsDirectory(status: int, was: Cells, head: nat, eof: bool, attrs: Val)
    requires status != NFS3_OK && Fits(Enum, status) && Typed(POST_OP_ATTR, attrs)
    ensures Ready(status, PageStored(was, head, eof, attrs), READDIR3, attrs)
    ensures Reply(Sequence(READDIR3.resok, READDIR3.wire), Resfail(READDIR3)) == Reply(READDIR3RESOK, POST_OP_ATTR)
  {
    var layout := READDIR3.resok;
    var before := ListStored(was, head, eof);
    assert PageStored(was, head, eof, attrs) == Stored(before, layout, 0, attrs);
    assert FailureType(16) == POST_OP_ATTR;
    hide Stored, Typed, POST_OP_ATTR, READDIR3RESOK, Ready, PageStored, ListStored;
    FailureOnTheWire(16, status, before, attrs);
  }

  // The table once the page is listed.
  function ListedTable(t: Table, path: Option<Bytes.Str>, arr: seq<Bytes.Str>, err: Option<GoError>, cookie: nat,
                       count: nat): Table
  {
    if err == None && cookie <= |arr|
    then
      var k := PageLength(arr, cookie, Budget(count), MAX_ENTRIES);
      TrackAll(t, Canonicalise(OrEmpty(path)), arr[cookie..cookie + k])
    else t
  }

  function ListedNames(arr: seq<Bytes.Str>, err: Option<GoError>, cookie: nat, count: nat): seq<Bytes.Str> {
    if err == None && cookie <= |arr|
    then arr[cookie..cookie + PageLength(arr, cookie, Budget(count), MAX_ENTRIES)]
    else []
  }

  function ReaddirCalls(path: Option<Bytes.Str>, names: seq<Bytes.Str>): seq<Call> {
    [Readdir(OrEmpty(path), names), Lstat(OrEmpty(path))]
  }

  lemma {:induction false} ListedStep(s: State, s': State, path: Option<Bytes.Str>, arr: seq<Bytes.Str>,
                                      err: Option<GoError>, cookie: nat, count: nat)
    requires Good(s) && Listable(arr)
    requires s' == s.(t := ListedTable(s.t, path, arr, err, cookie, count))
    ensures Step(s, Readdir(OrEmpty(path), ListedNames(arr, err, cookie, count)), s') && Good(s')
  {
    var names := ListedNames(arr, err, cookie, count);
    assert forall n :: n in names ==> SLASH !in n;
    assert TrackAll(s.t, Canonicalise(OrEmpty(path)), []) == s.t;
    hide Canonicalise, TrackAll, PageLength, Good;
    StepKeepsGood(s, Readdir(OrEmpty(path), names), s');
  }

  ghost function PageList(t: Table, path: Option<Bytes.Str>, arr: seq<Bytes.Str>, err: Option<GoError>, cookie: nat,
                          count: nat): seq<Entry>
  {
    if err == None && cookie <= |arr|
    then PageEntries(t, Canonicalise(OrEmpty(path)), arr, cookie, PageLength(arr, cookie, Budget(count), MAX_ENTRIES))
    else []
  }

  // The reply's status, and eof for those it matters to; None for a panic.
  ghost predicate Listed(r: Option<(int, bool)>, arr: seq<Bytes.Str>, err: Option<GoError>, cookie: nat, count: nat) {
    if err == None && cookie >= 0x8000_0000_0000_0000 then r == None
    else
      && r != None
      && (err != None ==> r.value.0 == ErrTranslator(err).0)
      && (err == None && cookie > |arr| ==> r.value.0 == NFS3ERR_BAD_COOKIE)
      && (err == None && cookie <= |arr| ==>
            r.value == (NFS3_OK, cookie + PageLength(arr, cookie, Budget(count), MAX_ENTRIES) == |arr|))
  }

  // The budget, go_readdir_full, and what its result is taken to mean.
  method ListPage(fddb: FdCache, path: Option<Bytes.Str>, arr: seq<Bytes.Str>, err: Option<GoError>, cookie: nat,
                  count: nat, names: array<Byte>, entries: array<Byte>, namesAt: nat, entriesAt: nat)
    returns (r: Option<(int, bool)>)
    requires Inv(fddb.Value()) && fddb.fdCounter + |arr| < ID_LIMIT
    requires cookie < 0x1_0000_0000_0000_0000 && count < 0x1_0000_0000 && |arr| < 0x8000_0000_0000_0000
    requires Listable(arr)
    requires names != entries && WellPlaced(Written(names, entries, namesAt, entriesAt))
    modifies fddb, names, entries
    ensures Inv(fddb.Value()) && WellPlaced(Written(names, entries, namesAt, entriesAt))
    ensures fddb.fdCounter <= old(fddb.fdCounter) + |arr|
    ensures Listed(r, arr, err, cookie, count)
    ensures fddb.Value() == ListedTable(old(fddb.Value()), path, arr, err, cookie, count)
    ensures Laid(Written(names, entries, namesAt, entriesAt), PageList(fddb.Value(), path, arr, err, cookie, count))
  {
    hide Laid, Canonicalise, PageEntries, TrackAll, WellPlaced, Inv, Listable;
    var c := count;
    if c > 4096 {
      c := 4096;
    }
    c := (c - RESOK_SIZE) % 0x1_0000_0000;
    assert c == Budget(count);
    hide Budget, PageLength;
    var res := GoReaddirFull(fddb, arr, err, OrEmpty(path), cookie, c, names, entries, namesAt, entriesAt);
    if res == None {
      return None;
    }
    if res.value < 0 {
      return Some((NFS3_OK, false));
    }
    // For an error nothing sets it.
    var eof: bool := *;
    if res.value == NFS3_OK {
      eof := true;
    }
    return Some((res.value, eof));
  }

  lemma {:induction false} PageListSendable(t: Table, path: Option<Bytes.Str>, arr: seq<Bytes.Str>,
                                            err: Option<GoError>, cookie: nat, count: nat)
    requires Inv(t) && t.counter < 0x8000_0000_0000_0000 && |arr| < 0x8000_0000_0000_0000 && Listable(arr)
    ensures forall e :: e in PageList(t, path, arr, err, cookie, count) ==> Sendable(e)
  {
    if err == None && cookie <= |arr| {
      PageSendable(t, Canonicalise(OrEmpty(path)), arr, cookie, PageLength(arr, cookie, Budget(count), MAX_ENTRIES));
    }
  }

  // The entries of a page of a directory are children of it, each with its path's id.
  lemma {:induction false} PageListsChildren(s: State, dir: Bytes.Str, arr: seq<Bytes.Str>, start: nat, k: nat)
    requires Lists(s.ns, dir, arr) && start + k <= |arr|
    requires forall i :: start <= i < start + k ==> ListedPath(dir, arr[i]) in s.t.a
    ensures forall e :: e in PageEntries(s.t, dir, arr, start, k) ==>
              && Child(s.ns, dir, e.name) && ListedPath(dir, e.name) in s.t.a
              && e.fileid == s.t.a[ListedPath(dir, e.name)]
  {
    hide Clean, ListedPath;
    var es := PageEntries(s.t, dir, arr, start, k);
    forall e | e in es
      ensures Child(s.ns, dir, e.name) && ListedPath(dir, e.name) in s.t.a && e.fileid == s.t.a[ListedPath(dir, e.name)]
    {
      var j :| 0 <= j < |es| && es[j] == e;
      var i := start + j;
      assert e == Entry(IdOrZero(s.t, ListedPath(dir, arr[i])), arr[i], i + 1);
      assert arr[i] in arr && ListedPath(dir, arr[i]) in s.t.a;
    }
  }

  // The procedure from handle to wire. The directory's attributes are read after the page is listed.
  // There is no reply exactly when Go panics. arr and err are what ns.ReadDirectory answers for the
  // path the handle is served for.
  method NfsReaddir(server: GoServer, result: StaticResult, data: seq<Byte>, arr: seq<Bytes.Str>, err: Option<GoError>,
                    cookie: nat, count: nat, names: array<Byte>, entries: array<Byte>, namesAt: nat, entriesAt: nat,
                    stream: XdrStream)
    returns (replied: bool, ghost attrs: Val, ghost trace: seq<State>)
    requires server.Valid() && server.fddb.fdCounter + |arr| < ID_LIMIT
    requires cookie < 0x1_0000_0000_0000_0000 && count < 0x1_0000_0000 && |arr| < 0x8000_0000_0000_0000
    requires ReadDirectoryAnswers(server.ns.tree, ServedPath(server.fddb.Value(), data), server.ns.reliable, arr, err)
    requires Listable(arr)
    requires names != entries && WellPlaced(Written(names, entries, namesAt, entriesAt))
    modifies server.fddb, result, names, entries, stream`data
    ensures server.Valid() && WellPlaced(Written(names, entries, namesAt, entriesAt))
    ensures replied <==> !(err == None && cookie >= 0x8000_0000_0000_0000)
    ensures !replied ==> stream.data == old(stream.data) && server.Value() == old(server.Value())
    ensures var path := DirOf(old(server.fddb.Value()), data);
            replied ==>
              && Trace(trace, ReaddirCalls(path, ListedNames(arr, err, cookie, count)))
              && trace[0] == old(server.Value()) && trace[2] == server.Value()
              && trace[1].t == ListedTable(trace[0].t, path, arr, err, cookie, count)
              && Typed(POST_OP_ATTR, attrs) && AttributesOf(attrs, server.Value(), path)
              && Appended(old(stream.data), stream.data, Reply(READDIR3RESOK, POST_OP_ATTR),
                          PageReply(trace[1].t, Canonicalise(OrEmpty(path)), arr, err, cookie, count, attrs))
    ensures err == None && |arr| < cookie < 0x8000_0000_0000_0000 ==> replied && result.status == 10003
    ensures replied && server.ns.reliable ==>
              (result.status == NFS3_OK <==>
                 IsDirectory(server.ns.tree, ServedPath(old(server.fddb.Value()), data)) && cookie <= |arr|)
  {
    hide Laid, Canonicalise, Typed, PageEntries, Step, Trace, AttributesOf, DirOf, Appended, ListStored, PageStored,
         ListedNames, WellPlaced, Sendable, Good, Inv, Listable, TrackAll;
    ghost var s0 := server.Value();
    var path := Decompose(server.fddb, data);
    GoodTable(s0);
    var page := ListPage(server.fddb, path, arr, err, cookie, count, names, entries, namesAt, entriesAt);
    replied, attrs, trace := page != None, NO_ATTR, [];
    if !replied {
      assert server.Value() == s0;
      return;
    }
    ghost var s1 := server.Value();
    ListedStep(s0, s1, path, arr, err, cookie, count);
    PageListSendable(s1.t, path, arr, err, cookie, count);
    var eof := page.value.1;
    result.status := page.value.0;
    var m := Buffers(names[..], entries[..], namesAt, entriesAt);
    ghost var es, was := PageList(s1.t, path, arr, err, cookie, count), result.memory;
    BigEnough(m);
    StoreList(result, Head(m), eof);
    var after := GetPost(server, path);
    StoreDirectory(result, after, was, Head(m), eof);
    attrs, trace := after, [s0, s1, server.Value()];
    TwoCalls(s0, s1, server.Value(), ReaddirCalls(path, ListedNames(arr, err, cookie, count)));
    PutReply(stream, result, m, was, after, eof, es);
  }

  lemma {:induction false} BigEnough(m: Buffers)
    requires WellPlaced(m)
    ensures |m.entries| >= ENTRY_SIZE
  {
  }
}

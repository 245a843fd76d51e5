// A client that lists a directory over the wire: it sends READDIR from cookie 0, decodes each
// reply, and sends the last cookie it was given until it is told eof.
module ReaddirClient {
  import opened Bytes
  import opened Paths
  import opened HandleTable
  import opened Server
  import opened GoServers
  import opened FileHandle
  import opened PathAttributes
  import opened StaleHandles
  import opened Namespace
  import opened Results
  import opened Memory
  import opened Readdir
  import opened Xdr
  import opened XdrStreams
  import opened NfsTypes
  import opened ReaddirReply

  predicate EntryShaped(v: Val) {
    v.Both? && v.snd.Both? && v.snd.fst.Str? && v.snd.snd.Num?
  }

  function NameOf(v: Val): Bytes.Str {
    if EntryShaped(v) then v.snd.fst.s else []
  }

  function NamesOf(vs: seq<Val>): seq<Bytes.Str> {
    seq(|vs|, i requires 0 <= i < |vs| => NameOf(vs[i]))
  }

  lemma {:induction false} EntriesShaped(es: seq<Entry>)
    ensures forall i :: 0 <= i < |es| ==> EntryVals(es)[i] == EntryVal(es[i])
    ensures forall v :: v in EntryVals(es) ==> EntryShaped(v)
  {
    if es != [] {
      EntriesShaped(es[1..]);
      forall i | 0 <= i < |es|
        ensures EntryVals(es)[i] == EntryVal(es[i])
      {
        if i > 0 { assert EntryVals(es)[i] == EntryVals(es[1..])[i - 1]; }
      }
    }
  }

  // What a page looks like to the client: the names of that stretch of the listing, and the
  // position after it as the last cookie.
  lemma {:induction false} PageSeen(t: Table, dir: Bytes.Str, arr: seq<Bytes.Str>, start: nat, k: nat)
    requires start + k <= |arr|
    ensures var vs := EntryVals(PageEntries(t, dir, arr, start, k));
            && NamesOf(vs) == arr[start..start + k]
            && (k > 0 ==> EntryShaped(vs[k - 1]) && vs[k - 1].snd.snd.n == start + k)
  {
    hide Clean;
    var es := PageEntries(t, dir, arr, start, k);
    EntriesShaped(es);
    var names := NamesOf(EntryVals(es));
    forall i | 0 <= i < k
      ensures names[i] == arr[start..start + k][i]
    {
      assert EntryVals(es)[i] == EntryVal(es[i]);
      assert es[i].name == arr[start + i];
    }
  }

  lemma {:induction false} TrackAllCounter(t: Table, dir: Bytes.Str, names: seq<Bytes.Str>)
    ensures t.counter <= TrackAll(t, dir, names).counter <= t.counter + |names|
    decreases |names|
  {
    if names != [] { TrackAllCounter(t, dir, names[..|names| - 1]); }
  }

  // The reply as the client decodes it.
  method Receive(bytes: seq<Byte>, ghost reply: Val) returns (v: Val)
    requires Typed(Reply(READDIR3RESOK, POST_OP_ATTR), reply)
    requires bytes == Encode(Reply(READDIR3RESOK, POST_OP_ATTR), reply)
    ensures v == reply
  {
    hide Encode, READDIR3RESOK, POST_OP_ATTR, Decode, Typed;
    var stream := new XdrStream(bytes);
    RoundTrip(Reply(READDIR3RESOK, POST_OP_ATTR), reply, []);
    assert bytes + [] == bytes;
    assert stream.Remaining() == bytes;
    var r := stream.Get(Reply(READDIR3RESOK, POST_OP_ATTR));
    v := r.value;
  }

  // The back end answers arr for the path the handle is served for, and the handle stays with it.
  ghost predicate Answered(s: State, reliable: bool, data: seq<Byte>, arr: seq<Bytes.Str>) {
    ReadDirectoryAnswers(s.ns, ServedPath(s.t, data), reliable, arr, None) && Settled(s.t, data)
  }

  lemma {:induction false} PageLeavesServed(a: State, b: State, c: State, path: Option<Bytes.Str>, arr: seq<Bytes.Str>,
                                            cookie: nat, count: nat, data: seq<Byte>)
    requires b.t == ListedTable(a.t, path, arr, None, cookie, count) && Step(b, Lstat(OrEmpty(path)), c)
    requires Settled(a.t, data)
    ensures Settled(c.t, data) && ServedPath(c.t, data) == ServedPath(a.t, data)
  {
    hide Settled, ServedPath, Step, TrackAll, PageLength, Canonicalise;
    if cookie <= |arr| {
      var k := PageLength(arr, cookie, Budget(count), MAX_ENTRIES);
      TrackAllLeaves(a.t, Canonicalise(OrEmpty(path)), arr[cookie..cookie + k]);
    }
    SettledStays(a.t, b.t, data);
    StatLeavesServed(b, c, OrEmpty(path), data);
  }

  // One call of READDIR and what the client makes of the reply.
  method Page(server: GoServer, result: StaticResult, data: seq<Byte>, arr: seq<Bytes.Str>, cookie: nat, count: nat,
              names: array<Byte>, entries: array<Byte>, namesAt: nat, entriesAt: nat)
    returns (page: seq<Bytes.Str>, last: nat, eof: bool)
    requires server.Valid() && server.fddb.fdCounter + |arr| < ID_LIMIT
    requires cookie <= |arr| < 0x8000_0000_0000_0000 && count < 0x1_0000_0000
    requires Answered(server.Value(), server.ns.reliable, data, arr) && Listable(arr)
    requires names != entries && WellPlaced(Written(names, entries, namesAt, entriesAt))
    modifies server.fddb, result, names, entries
    ensures server.Valid() && WellPlaced(Written(names, entries, namesAt, entriesAt))
    ensures Answered(server.Value(), server.ns.reliable, data, arr)
    ensures var k := PageLength(arr, cookie, Budget(count), MAX_ENTRIES);
            && page == arr[cookie..cookie + k] && last == cookie + k && (eof <==> cookie + k == |arr|)
            && server.fddb.fdCounter <= old(server.fddb.fdCounter) + k + 1
  {
    hide Encode, Typed, Canonicalise, WellPlaced, READDIR3RESOK, POST_OP_ATTR, TrackAll, PageEntries, Step, Good, DirOf,
         AttributesOf, ReadDirectoryAnswers, Settled, ServedPath;
    var stream := new XdrStream([]);
    ghost var k := PageLength(arr, cookie, Budget(count), MAX_ENTRIES);
    ghost var before, path := server.fddb.Value(), DirOf(server.fddb.Value(), data);
    var _, attrs, trace :=
      NfsReaddir(server, result, data, arr, None, cookie, count, names, entries, namesAt, entriesAt, stream);
    ghost var reply := PageReply(trace[1].t, Canonicalise(OrEmpty(path)), arr, None, cookie, count, attrs);
    var v := Receive(stream.data, reply);
    TrackAllCounter(before, Canonicalise(OrEmpty(path)), arr[cookie..cookie + k]);
    StatCounter(trace[1], trace[2], OrEmpty(path));
    PageLeavesServed(trace[0], trace[1], trace[2], path, arr, cookie, count, data);
    PageSeen(trace[1].t, Canonicalise(OrEmpty(path)), arr, cookie, k);
    var vs := v.arm.snd.snd.fst.vs;
    page := NamesOf(vs);
    last := if vs == [] then cookie else vs[|vs| - 1].snd.snd.n;
    eof := v.arm.snd.snd.snd.n != 0;
  }

  lemma {:induction false} StatCounter(s: State, s': State, path: Bytes.Str)
    requires Step(s, Lstat(path), s')
    ensures s'.t.counter <= s.t.counter + 1
  {
  }

  // Listing an unchanged directory: the names of its children, each once, in the back end's order,
  // exactly when each fits a page by itself; otherwise the client notices that it is getting nowhere.
  method ListDirectory(server: GoServer, result: StaticResult, data: seq<Byte>, arr: seq<Bytes.Str>, count: nat,
                       names: array<Byte>, entries: array<Byte>, namesAt: nat, entriesAt: nat)
    returns (listing: Option<seq<Bytes.Str>>)
    requires server.Valid() && server.fddb.fdCounter + 3 * |arr| + 1 < ID_LIMIT
    requires count < 0x1_0000_0000 && Answered(server.Value(), server.ns.reliable, data, arr) && Listable(arr)
    requires names != entries && WellPlaced(Written(names, entries, namesAt, entriesAt))
    modifies server.fddb, result, names, entries
    ensures listing == if AllFit(arr, Budget(count), 0) then Some(arr) else None
    ensures count >= 104 ==>
              (listing == Some(arr) <==>
                 forall i :: 0 <= i < |arr| ==> |arr[i]| + 137 <= if count < 4096 then count else 4096)
    ensures count >= 4096 ==> listing == Some(arr)
    ensures listing.Some? ==> Lists(server.ns.tree, ServedPath(old(server.fddb.Value()), data), listing.value)
  {
    hide WellPlaced, Listable, PageLength, AllFit, Complete, Budget, Good, Answered, Lists, ServedPath;
    CounterCounts(server.Value());
    if count >= 104 { FitsInNumbers(arr, count); }
    ShortNames(arr);
    AnsweredLists(server.Value(), server.ns.reliable, data, arr);
    var cookie: nat, seen, eof := 0, [], false;
    ghost var all := Complete(arr, Budget(count), 0);
    Outcome(arr, Budget(count));
    while !eof
      invariant cookie <= |arr| && seen == arr[..cookie]
      invariant server.Valid() && Answered(server.Value(), server.ns.reliable, data, arr)
      invariant server.fddb.fdCounter <= old(server.fddb.fdCounter) + 2 * cookie + (if eof then 1 else 0)
      invariant WellPlaced(Written(names, entries, namesAt, entriesAt))
      invariant if eof then cookie == |arr| && all else all == Complete(arr, Budget(count), cookie)
      decreases !eof, |arr| - cookie
    {
      CompleteStep(arr, Budget(count), cookie);
      var page, last;
      page, last, eof := Page(server, result, data, arr, cookie, count, names, entries, namesAt, entriesAt);
      if !eof && last == cookie {
        return None;
      }
      Seen(arr, cookie, last);
      seen, cookie := seen + page, last;
    }
    Seen(arr, 0, |arr|);
    return Some(seen);
  }

  lemma {:induction false} ShortNames(arr: seq<Bytes.Str>)
    requires Listable(arr)
    ensures forall i :: 0 <= i < |arr| ==> |arr[i]| < 1024
  {
  }

  lemma {:induction false} CounterCounts(s: State)
    requires Good(s)
    ensures s.t.counter >= FIRST
  {
  }

  lemma {:induction false} AnsweredLists(s: State, reliable: bool, data: seq<Byte>, arr: seq<Bytes.Str>)
    requires Answered(s, reliable, data, arr)
    ensures Lists(s.ns, ServedPath(s.t, data), arr)
  {
  }

  lemma {:induction false} Seen(arr: seq<Bytes.Str>, lo: nat, hi: nat)
    requires lo <= hi <= |arr|
    ensures arr[..lo] + arr[lo..hi] == arr[..hi] && arr[..|arr|] == arr
  {
  }

  // Whether a client that asks from this cookie on comes to eof.
  ghost predicate Complete(arr: seq<Bytes.Str>, budget: nat, cookie: nat)
    requires cookie <= |arr|
  {
    Collected(arr, budget, MAX_ENTRIES, cookie).Some?
  }

  lemma {:induction false} Outcome(arr: seq<Bytes.Str>, budget: nat)
    ensures Complete(arr, budget, 0) <==> AllFit(arr, budget, 0)
  {
    PagingExact(arr, budget, MAX_ENTRIES, 0);
  }

  lemma {:induction false} CompleteStep(arr: seq<Bytes.Str>, budget: nat, cookie: nat)
    requires cookie <= |arr|
    ensures var k := PageLength(arr, cookie, budget, MAX_ENTRIES);
            Complete(arr, budget, cookie) <==> cookie + k == |arr| || (k > 0 && Complete(arr, budget, cookie + k))
  {
  }
}

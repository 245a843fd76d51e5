// go_readdir_full: one page of a directory written into the two buffers.
module Readdir {
  import opened Bytes
  import opened Paths
  import opened Status
  import opened HandleTable
  import opened Server
  import opened FdCaches
  import opened Memory

  // What an entry is charged: name, NUL, two 64-bit numbers, two 8-byte pointers.
  function Cost(name: Str): nat {
    |name| + 1 + 16 + 16
  }

  // How many entries from `start` on fit.
  function PageLength(arr: seq<Str>, start: nat, budget: int, slots: nat): (k: nat)
    requires start <= |arr|
    ensures start + k <= |arr| && k <= slots
    decreases |arr| - start
  {
    if start == |arr| || budget - Cost(arr[start]) < 0 || slots == 0 then 0
    else 1 + PageLength(arr, start + 1, budget - Cost(arr[start]), slots - 1)
  }

  function TotalLength(arr: seq<Str>, start: nat, k: nat): nat
    requires start + k <= |arr|
    decreases k
  {
    if k == 0 then 0 else |arr[start]| + TotalLength(arr, start + 1, k - 1)
  }

  // A page reaches k entries exactly when their names, and 33 bytes for each, fit the budget.
  lemma {:induction false} PageReaches(arr: seq<Str>, start: nat, budget: nat, slots: nat, k: nat)
    requires start + k <= |arr| && k <= slots
    ensures PageLength(arr, start, budget, slots) >= k <==> TotalLength(arr, start, k) + 33 * k <= budget
    decreases k
  {
    if k > 0 && budget >= Cost(arr[start]) {
      PageReaches(arr, start + 1, budget - Cost(arr[start]), slots - 1, k - 1);
    }
  }

  lemma {:induction false} PagesReach(arr: seq<Str>, start: nat, budget: nat)
    requires start <= |arr|
    ensures forall k: nat {:trigger TotalLength(arr, start, k)} :: start + k <= |arr| && k <= 170 ==>
              (PageLength(arr, start, budget, MAX_ENTRIES) >= k <==> TotalLength(arr, start, k) + 33 * k <= budget)
  {
    forall k: nat | start + k <= |arr| && k <= 170
      ensures PageLength(arr, start, budget, MAX_ENTRIES) >= k <==> TotalLength(arr, start, k) + 33 * k <= budget
    {
      PageReaches(arr, start, budget, MAX_ENTRIES, k);
    }
  }

  // The entries of a page, with the ids the table holds.
  function PageEntries(t: Table, dir: Str, arr: seq<Str>, start: nat, k: nat): (es: seq<Entry>)
    requires start + k <= |arr|
    ensures |es| == k
  {
    seq(k, j requires 0 <= j < k => Entry(IdOrZero(t, ListedPath(dir, arr[start + j])), arr[start + j], start + j + 1))
  }

  // Names a back end lists: C strings that fit a slot, without a slash.
  predicate Listable(arr: seq<Str>) {
    forall i :: 0 <= i < |arr| ==> NulFree(arr[i]) && |arr[i]| < NFS_MAXPATHLEN && SLASH !in arr[i]
  }

  ghost function Written(names: array<Byte>, entries: array<Byte>, namesAt: nat, entriesAt: nat): Buffers
    reads names, entries
  {
    Buffers(names[..], entries[..], namesAt, entriesAt)
  }

  method PutUint64(a: array<Byte>, at: nat, v: nat)
    requires at + 8 <= a.Length
    modifies a
    ensures a[..] == Store(old(a[..]), at, v)
  {
    CopyBytes(a, at, LittleEndian(v, 8));
  }

  method CopyBytes(a: array<Byte>, at: nat, bs: seq<Byte>)
    requires at + |bs| <= a.Length
    modifies a
    ensures a[..] == Splice(old(a[..]), at, bs)
  {
    for i := 0 to |bs|
      invariant forall k :: 0 <= k < a.Length ==> a[k] == if at <= k < at + i then bs[k - at] else old(a[k])
    {
      a[at + i] := bs[i];
    }
  }

  method ClearBuffer(a: array<Byte>)
    modifies a
    ensures forall i :: 0 <= i < a.Length ==> a[i] == 0
  {
    for i := 0 to a.Length
      invariant forall j :: 0 <= j < i ==> a[j] == 0
    {
      a[i] := 0;
    }
  }

  lemma {:induction false} ZeroLoad(s: seq<Byte>, at: nat)
    requires at + 8 <= |s| && forall i :: 0 <= i < |s| ==> s[i] == 0
    ensures Load(s, at) == 0
  {
    ZeroNumber(s[at..at + 8]);
  }

  lemma {:induction false} ZeroNumber(bs: seq<Byte>)
    requires forall i :: 0 <= i < |bs| ==> bs[i] == 0
    ensures FromLittleEndian(bs) == 0
  {
    if bs != [] { ZeroNumber(bs[1..]); }
  }

  // One iteration's stores. The first pointer written back-patches the entry before.
  method AddEntry(names: array<Byte>, entries: array<Byte>, namesAt: nat, entriesAt: nat,
                  k: nat, fd: nat, name: Str, cookie: nat)
    requires names != entries && WellPlaced(Written(names, entries, namesAt, entriesAt))
    requires k < MAX_ENTRIES && |name| < NFS_MAXPATHLEN
    modifies names, entries
    ensures Written(names, entries, namesAt, entriesAt) ==
            Added(old(Written(names, entries, namesAt, entriesAt)), k, Entry(fd, name, cookie))
  {
    hide FromLittleEndian, LittleEndian, Splice, Store;
    ghost var m := Written(names, entries, namesAt, entriesAt);
    var ebIndex, nbIndex := 32 * k, 1024 * k;
    if k != 0 {
      PutUint64(entries, ebIndex - 8, entriesAt + ebIndex);
    }
    assert entries[..] == Linked(m, k);
    ghost var s := entries[..];
    PutUint64(entries, ebIndex, fd);
    ebIndex := ebIndex + 8;
    PutUint64(entries, ebIndex, namesAt + nbIndex);
    ebIndex := ebIndex + 8;
    ghost var s2 := entries[..];
    assert s2 == Store(Store(s, 32 * k, fd), 32 * k + 8, namesAt + nbIndex);
    CopyBytes(names, nbIndex, name + [0]);
    assert entries[..] == s2;
    PutUint64(entries, ebIndex, cookie);
    ebIndex := ebIndex + 8;
    PutUint64(entries, ebIndex, 0);
    assert entries[..] == Store(Store(s2, 32 * k + 16, cookie), 32 * k + 24, 0);
  }

  // One iteration once the entry is known to fit: an id for the path, then the stores.
  method ListOne(fddb: FdCache, dirp: Str, arr: seq<Str>, start: nat, names: array<Byte>, entries: array<Byte>,
                 namesAt: nat, entriesAt: nat, i: nat, ghost es: seq<Entry>)
    returns (ghost e: Entry)
    requires Inv(fddb.Value()) && fddb.fdCounter < 0x8000_0000_0000_0000
    requires names != entries && Laid(Written(names, entries, namesAt, entriesAt), es)
    requires Matches(es, fddb.Value(), dirp, arr, start)
    requires i == start + |es| < |arr| < 0x8000_0000_0000_0000 && |es| < MAX_ENTRIES
    requires NulFree(arr[i]) && |arr[i]| < NFS_MAXPATHLEN
    modifies fddb, names, entries
    ensures Inv(fddb.Value()) && fddb.fdCounter <= old(fddb.fdCounter) + 1
    ensures fddb.Value() == Tracked(old(fddb.Value()), ListedPath(dirp, arr[i]))
    ensures Laid(Written(names, entries, namesAt, entriesAt), es + [e])
    ensures Matches(es + [e], fddb.Value(), dirp, arr, start)
  {
    hide Laid, Added;
    ghost var t, m := fddb.Value(), Written(names, entries, namesAt, entriesAt);
    var fd := fddb.GetFD(Clean(dirp + [SLASH] + arr[i]));
    e := Entry(fd, arr[i], i + 1);
    MatchesMore(es, t, fddb.Value(), dirp, arr, start, e);
    LaidPlaced(m, es);
    AddedIsLaid(m, es, e);
    AddEntry(names, entries, namesAt, entriesAt, i - start, fd, arr[i], i + 1);
  }

  lemma {:induction false} TrackOneMore(t: Table, dir: Str, arr: seq<Str>, lo: nat, hi: nat)
    requires lo <= hi < |arr|
    ensures TrackAll(t, dir, arr[lo..hi + 1]) == Tracked(TrackAll(t, dir, arr[lo..hi]), ListedPath(dir, arr[hi]))
  {
    assert arr[lo..hi + 1][..hi - lo] == arr[lo..hi];
  }

  lemma {:induction false} PageStep(arr: seq<Str>, start: nat, budget: int, slots: nat)
    requires start <= |arr|
    ensures PageLength(arr, start, budget, slots) ==
            if start == |arr| || budget - Cost(arr[start]) < 0 || slots == 0 then 0
            else 1 + PageLength(arr, start + 1, budget - Cost(arr[start]), slots - 1)
  {
  }

  lemma {:induction false} NothingListed(t: Table, dir: Str, arr: seq<Str>, start: nat)
    requires start <= |arr|
    ensures Matches([], t, dir, arr, start) && TrackAll(t, dir, arr[start..start]) == t
  {
    assert arr[start..start] == [];
  }

  lemma {:induction false} ListableAt(arr: seq<Str>, i: nat)
    requires Listable(arr) && i < |arr|
    ensures NulFree(arr[i]) && |arr[i]| < NFS_MAXPATHLEN
  {
  }

  // The loop of go_readdir_full. maxByteCount may go below zero only on the way out.
  method FillPage(fddb: FdCache, dirp: Str, arr: seq<Str>, cookie: nat, count: nat,
                  names: array<Byte>, entries: array<Byte>, namesAt: nat, entriesAt: nat)
    returns (res: int)
    requires Inv(fddb.Value()) && fddb.fdCounter + |arr| < 0x8000_0000_0000_0000
    requires cookie <= |arr| < 0x8000_0000_0000_0000 && Listable(arr)
    requires names != entries && Laid(Written(names, entries, namesAt, entriesAt), [])
    modifies fddb, names, entries
    ensures Inv(fddb.Value()) && fddb.fdCounter <= old(fddb.fdCounter) + |arr|
    ensures var k := PageLength(arr, cookie, count, MAX_ENTRIES);
            && res == (if cookie + k == |arr| then NFS3_OK else -1)
            && fddb.Value() == TrackAll(old(fddb.Value()), dirp, arr[cookie..cookie + k])
            && Laid(Written(names, entries, namesAt, entriesAt), PageEntries(fddb.Value(), dirp, arr, cookie, k))
    ensures forall k: nat {:trigger TotalLength(arr, cookie, k)} :: cookie + k <= |arr| && k <= 170 ==>
              (PageLength(arr, cookie, count, MAX_ENTRIES) >= k <==> TotalLength(arr, cookie, k) + 33 * k <= count)
  {
    hide Laid, Clean, Matches, Inv, TrackAll, PageEntries, PageLength, TotalLength, Tracked, WellPlaced, Listable;
    PagesReach(arr, cookie, count);
    var maxByteCount: int := count;
    ghost var es: seq<Entry> := [];
    NothingListed(fddb.Value(), dirp, arr, cookie);
    var i := cookie;
    while i < |arr|
      invariant cookie <= i <= |arr| && |es| == i - cookie <= MAX_ENTRIES
      invariant PageLength(arr, cookie, count, MAX_ENTRIES) ==
          |es| + PageLength(arr, i, maxByteCount, MAX_ENTRIES - |es|)
      invariant Inv(fddb.Value()) && fddb.fdCounter <= old(fddb.fdCounter) + |es|
      invariant fddb.Value() == TrackAll(old(fddb.Value()), dirp, arr[cookie..i])
      invariant Matches(es, fddb.Value(), dirp, arr, cookie)
      invariant Laid(Written(names, entries, namesAt, entriesAt), es)
    {
      PageStep(arr, i, maxByteCount, MAX_ENTRIES - |es|);
      ListableAt(arr, i);
      maxByteCount := maxByteCount - (|arr[i]| + 1 + 16 + 2 * 8);
      if maxByteCount < 0 || i - cookie >= MAX_ENTRIES {
        MatchesPage(es, fddb.Value(), dirp, arr, cookie);
        return -1;
      }
      ghost var e := ListOne(fddb, dirp, arr, cookie, names, entries, namesAt, entriesAt, i, es);
      TrackOneMore(old(fddb.Value()), dirp, arr, cookie, i);
      es := es + [e];
      i := i + 1;
    }
    PageStep(arr, i, maxByteCount, MAX_ENTRIES - |es|);
    MatchesPage(es, fddb.Value(), dirp, arr, cookie);
    return NFS3_OK;
  }

  // arr and err are what ns.ReadDirectory returned. Every store is inside its buffer, whatever
  // the count; the buffers end up holding the page as a list, also when the loop stops early.
  // A cookie of 2^63 or more is negative as an int: it passes the test for bad cookies and the first
  // index into the listing panics, so there is no result.
  method GoReaddirFull(fddb: FdCache, arr: seq<Str>, err: Option<GoError>, dirpath: Str, cookie: nat, count: nat,
                       names: array<Byte>, entries: array<Byte>, namesAt: nat, entriesAt: nat)
    returns (res: Option<int>)
    requires Inv(fddb.Value()) && fddb.fdCounter + |arr| < 0x8000_0000_0000_0000
    requires cookie < 0x1_0000_0000_0000_0000 && count < 0x1_0000_0000 && |arr| < 0x8000_0000_0000_0000
    requires Listable(arr)
    requires names != entries && WellPlaced(Written(names, entries, namesAt, entriesAt))
    modifies fddb, names, entries
    ensures Inv(fddb.Value()) && fddb.fdCounter <= old(fddb.fdCounter) + |arr|
    ensures WellPlaced(Written(names, entries, namesAt, entriesAt))
    ensures res == None <==> err == None && cookie >= 0x8000_0000_0000_0000
    ensures err != None || cookie > |arr| ==>
              && fddb.Value() == old(fddb.Value())
              && Laid(Written(names, entries, namesAt, entriesAt), [])
              && (res != None ==> res.value == if err != None then ErrTranslator(err).0 else NFS3ERR_BAD_COOKIE)
    ensures err == None && cookie <= |arr| ==>
              var k := PageLength(arr, cookie, count, MAX_ENTRIES);
              var dir := Canonicalise(dirpath);
              && res == Some(if cookie + k == |arr| then NFS3_OK else -1)
              && fddb.Value() == TrackAll(old(fddb.Value()), dir, arr[cookie..cookie + k])
              && Laid(Written(names, entries, namesAt, entriesAt), PageEntries(fddb.Value(), dir, arr, cookie, k))
  {
    hide Laid, Clean, Resolve;
    var startCookie := ToInt64(cookie);
    ClearBuffer(names);
    ClearBuffer(entries);
    ZeroLoad(entries[..], 8);
    NothingLaid(Written(names, entries, namesAt, entriesAt));
    var dirp := Canonicalise(dirpath);
    if err != None {
      return Some(ErrTranslator(err).0);
    }
    if startCookie > |arr| {
      return Some(NFS3ERR_BAD_COOKIE);
    }
    if startCookie < 0 {
      // arr[startCookie], the first thing the loop does.
      return None;
    }
    var page := FillPage(fddb, dirp, arr, startCookie, count, names, entries, namesAt, entriesAt);
    res := Some(page);
    LaidPlaced(Written(names, entries, namesAt, entriesAt),
               PageEntries(fddb.Value(), dirp, arr, cookie, PageLength(arr, cookie, count, MAX_ENTRIES)));
  }

  // Entry e carries name i of the listing and what the table says now of its path.
  ghost predicate Recorded(e: Entry, t: Table, dir: Str, arr: seq<Str>, i: nat)
    requires i < |arr|
  {
    && ListedPath(dir, arr[i]) in t.a
    && e == Entry(t.a[ListedPath(dir, arr[i])], arr[i], i + 1)
  }

  ghost predicate Matches(es: seq<Entry>, t: Table, dir: Str, arr: seq<Str>, start: nat) {
    && start + |es| <= |arr|
    && forall j :: 0 <= j < |es| ==> Recorded(es[j], t, dir, arr, start + j)
  }

  lemma {:induction false} MatchesMore(es: seq<Entry>, t: Table, t': Table, dir: Str, arr: seq<Str>, start: nat,
                                       e: Entry)
    requires Matches(es, t, dir, arr, start) && start + |es| < |arr|
    requires t' == Tracked(t, ListedPath(dir, arr[start + |es|]))
    requires Recorded(e, t', dir, arr, start + |es|)
    ensures Matches(es + [e], t', dir, arr, start)
  {
    hide Clean;
    forall j | 0 <= j < |es + [e]|
      ensures Recorded((es + [e])[j], t', dir, arr, start + j)
    {
      if j < |es| {
        assert Recorded(es[j], t, dir, arr, start + j);
      }
    }
  }

  lemma {:induction false} MatchesPage(es: seq<Entry>, t: Table, dir: Str, arr: seq<Str>, start: nat)
    requires Matches(es, t, dir, arr, start)
    ensures es == PageEntries(t, dir, arr, start, |es|)
  {
    hide Clean;
    var page := PageEntries(t, dir, arr, start, |es|);
    forall j | 0 <= j < |es|
      ensures es[j] == page[j]
    {
      assert Recorded(es[j], t, dir, arr, start + j);
    }
  }
}

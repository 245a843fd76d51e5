// The two flat buffers READDIR answers from, and how C reads them: an array of 32-byte entry3
// structs linked by pointers, and an array of name slots of NFS_MAXPATHLEN (1024) bytes. Pointers are eight bytes.
module Memory {
  import opened Bytes
  import opened Paths

  const MAX_ENTRIES := 170
  const ENTRY_SIZE := 32         // sizeof(entry3)

  datatype Entry = Entry(fileid: int, name: Str, cookie: int)

  // The contents of the buffers and the addresses they start at.
  datatype Buffers = Buffers(names: seq<Byte>, entries: seq<Byte>, namesAt: nat, entriesAt: nat)

  predicate WellPlaced(m: Buffers) {
    && |m.names| == 1024 * 170
    && |m.entries| == 32 * 170
    && 0 < m.namesAt && m.namesAt + |m.names| < 0x1_0000_0000_0000_0000
    && 0 < m.entriesAt && m.entriesAt + |m.entries| < 0x1_0000_0000_0000_0000
  }

  function Load(s: seq<Byte>, at: nat): nat
    requires at + 8 <= |s|
  {
    FromLittleEndian(s[at..at + 8])
  }

  // The string a char pointer leads to; None if it leaves the buffer.
  function NameAt(m: Buffers, p: nat): Option<Str> {
    if m.namesAt <= p < m.namesAt + |m.names| && 0 in m.names[p - m.namesAt..]
    then Some(CString(m.names[p - m.namesAt..])) else None
  }

  // struct entry3 at an offset of its buffer: fileid, name, cookie, nextentry.
  function Fields(m: Buffers, at: nat): Option<(Entry, nat)>
    requires at + ENTRY_SIZE <= |m.entries|
  {
    match NameAt(m, Load(m.entries, at + 8))
    case None => None
    case Some(name) =>
      Some((Entry(Load(m.entries, at), name, Load(m.entries, at + 16)), Load(m.entries, at + 24)))
  }

  function EntryAt(m: Buffers, p: nat): Option<(Entry, nat)> {
    if m.entriesAt <= p && p + ENTRY_SIZE <= m.entriesAt + |m.entries| then Fields(m, p - m.entriesAt) else None
  }

  // Following nextentry from p to the null pointer, over at most `fuel` entries.
  function Walk(m: Buffers, p: nat, fuel: nat): Option<seq<Entry>>
    decreases fuel
  {
    if p == 0 then Some([])
    else if fuel == 0 then None
    else
      match EntryAt(m, p)
      case None => None
      case Some((e, next)) =>
        match Walk(m, next, fuel - 1)
        case None => None
        case Some(es) => Some([e] + es)
  }

  // The list READDIR hands to the encoder: none if the first name pointer is still null.
  function Head(m: Buffers): nat
    requires |m.entries| >= ENTRY_SIZE
  {
    if Load(m.entries, 8) != 0 then m.entriesAt else 0
  }

  // ------------------------------------------------------------------ slots

  function Address(m: Buffers, j: nat): nat {
    m.entriesAt + 32 * j
  }

  ghost predicate Slot(m: Buffers, j: nat, e: Entry, next: nat)
    requires WellPlaced(m) && j < MAX_ENTRIES
  {
    && Load(m.entries, 32 * j) == e.fileid
    && Load(m.entries, 32 * j + 8) == m.namesAt + 1024 * j
    && Load(m.entries, 32 * j + 16) == e.cookie
    && Load(m.entries, 32 * j + 24) == next
    && NulFree(e.name) && |e.name| < 1024
    && m.names[1024 * j..1024 * j + |e.name| + 1] == e.name + [0]
  }

  // The first k slots hold es as a list, the rest of the first slot's name pointers are null.
  ghost predicate Laid(m: Buffers, es: seq<Entry>)
  {
    && WellPlaced(m) && |es| <= MAX_ENTRIES
    && (forall j :: 0 <= j < |es| ==> Slot(m, j, es[j], After(m, es, j)))
    && (es == [] ==> Load(m.entries, 8) == 0)
  }

  // struct entry3 in memory: fileid, a pointer to the name, the cookie and a pointer to the next
  // entry, eight bytes each, and the name with its NUL in a slot of its own.
  lemma {:induction false} LaidBytes(m: Buffers, es: seq<Entry>, j: nat)
    requires Laid(m, es) && j < |es|
    ensures var at, e := 32 * j, es[j];
            && m.entries[at..at + 8] == LittleEndian(e.fileid, 8)
            && m.entries[at + 8..at + 16] == LittleEndian(m.namesAt + 1024 * j, 8)
            && m.entries[at + 16..at + 24] == LittleEndian(e.cookie, 8)
            && m.entries[at + 24..at + 32] ==
               LittleEndian(if j + 1 < |es| then m.entriesAt + 32 * (j + 1) else 0, 8)
            && m.names[1024 * j..1024 * j + |e.name| + 1] == e.name + [0]
  {
    var at := 32 * j;
    assert Slot(m, j, es[j], After(m, es, j));
    hide FromLittleEndian, LittleEndian;
    LittleEndianBack(m.entries[at..at + 8]);
    LittleEndianBack(m.entries[at + 8..at + 16]);
    LittleEndianBack(m.entries[at + 16..at + 24]);
    LittleEndianBack(m.entries[at + 24..at + 32]);
  }

  lemma {:induction false} LaidPlaced(m: Buffers, es: seq<Entry>)
    requires Laid(m, es)
    ensures WellPlaced(m) && |es| <= MAX_ENTRIES
  {
  }

  lemma {:induction false} NothingLaid(m: Buffers)
    requires WellPlaced(m) && Load(m.entries, 8) == 0
    ensures Laid(m, [])
  {
  }

  lemma {:induction false} NameInSlot(names: seq<Byte>, at: nat, name: Str)
    requires NulFree(name) && at + |name| + 1 <= |names|
    requires names[at..at + |name| + 1] == name + [0]
    ensures 0 in names[at..] && CString(names[at..]) == name
  {
    var s, tail := names[at..], names[at + |name| + 1..];
    assert s == names[at..at + |name| + 1] + tail;
    CStringStopsAtNul(name, tail);
    assert s[|name|] == 0;
  }

  lemma {:induction false} SlotName(m: Buffers, j: nat, name: Str)
    requires WellPlaced(m) && j < MAX_ENTRIES && NulFree(name) && |name| < 1024
    requires m.names[1024 * j..1024 * j + |name| + 1] == name + [0]
    ensures NameAt(m, m.namesAt + 1024 * j) == Some(name)
  {
    hide CString;
    NameInSlot(m.names, 1024 * j, name);
  }

  lemma {:induction false} SlotFields(m: Buffers, j: nat, e: Entry, next: nat)
    requires WellPlaced(m) && j < MAX_ENTRIES && Slot(m, j, e, next)
    ensures Fields(m, 32 * j) == Some((e, next))
  {
    hide FromLittleEndian, CString, NameAt;
    SlotName(m, j, e.name);
  }

  lemma {:induction false} SlotIsEntry(m: Buffers, j: nat, e: Entry, next: nat)
    requires WellPlaced(m) && j < MAX_ENTRIES && Slot(m, j, e, next)
    ensures EntryAt(m, Address(m, j)) == Some((e, next))
  {
    hide Fields;
    SlotFields(m, j, e, next);
    assert Address(m, j) - m.entriesAt == 32 * j;
  }

  lemma {:induction false} WalkStep(m: Buffers, p: nat, fuel: nat, e: Entry, next: nat, rest: seq<Entry>)
    requires p != 0 && fuel > 0 && EntryAt(m, p) == Some((e, next))
    requires Walk(m, next, fuel - 1) == Some(rest)
    ensures Walk(m, p, fuel) == Some([e] + rest)
  {
  }

  ghost function After(m: Buffers, es: seq<Entry>, j: nat): nat {
    if j + 1 < |es| then Address(m, j + 1) else 0
  }

  ghost predicate Chained(m: Buffers, es: seq<Entry>) {
    m.entriesAt > 0 && forall j {:trigger es[j]} :: 0 <= j < |es| ==>
        EntryAt(m, Address(m, j)) == Some((es[j], After(m, es, j)))
  }

  lemma {:induction false} WalkFrom(m: Buffers, es: seq<Entry>, j: nat, fuel: nat)
    requires Chained(m, es) && j < |es| && fuel >= |es| - j
    ensures Walk(m, Address(m, j), fuel) == Some(es[j..])
    decreases |es| - j
  {
    hide EntryAt;
    var next := After(m, es, j);
    assert Walk(m, next, fuel - 1) == Some(es[j + 1..]) by {
      if j + 1 < |es| {
        WalkFrom(m, es, j + 1, fuel - 1);
      } else {
        assert es[j + 1..] == [];
      }
    }
    assert es[j..] == [es[j]] + es[j + 1..];
    WalkStep(m, Address(m, j), fuel, es[j], next, es[j + 1..]);
  }

  lemma {:induction false} NoEntries(m: Buffers)
    ensures Walk(m, 0, MAX_ENTRIES) == Some([])
  {
  }

  // Buffers laid out this way, read as C reads them, are exactly that list.
  lemma {:induction false} LaidIsList(m: Buffers, es: seq<Entry>)
    requires Laid(m, es)
    ensures Walk(m, Head(m), MAX_ENTRIES) == Some(es)
  {
    hide EntryAt, Walk, FromLittleEndian, CString;
    if es == [] {
      NoEntries(m);
    } else {
      assert Slot(m, 0, es[0], After(m, es, 0));
      forall j | 0 <= j < |es|
        ensures EntryAt(m, Address(m, j)) == Some((es[j], After(m, es, j)))
      {
        SlotIsEntry(m, j, es[j], After(m, es, j));
      }
      WalkFrom(m, es, 0, MAX_ENTRIES);
      assert es[0..] == es;
    }
  }

  // ------------------------------------------------------------------ stores

  // A store leaves the loads around it alone.
  lemma {:induction false} LoadElsewhere(s: seq<Byte>, at: nat, bs: seq<Byte>, lo: nat)
    requires at + |bs| <= |s| && lo + 8 <= |s|
    requires lo + 8 <= at || at + |bs| <= lo
    ensures Load(Splice(s, at, bs), lo) == Load(s, lo)
  {
    SpliceElsewhere(s, at, bs, lo, lo + 8);
  }

  lemma {:induction false} LoadBack(s: seq<Byte>, at: nat, v: nat)
    requires at + 8 <= |s| && v < 0x1_0000_0000_0000_0000
    ensures Load(Splice(s, at, LittleEndian(v, 8)), at) == v
  {
    Powers();
    LittleEndianRoundTrip(v, 8);
  }

  function Store(s: seq<Byte>, at: nat, v: nat): (r: seq<Byte>)
    requires at + 8 <= |s|
    ensures |r| == |s|
  {
    Splice(s, at, LittleEndian(v, 8))
  }

  // The five stores that add entry e in slot k, in program order.
  function Linked(m: Buffers, k: nat): seq<Byte>
    requires WellPlaced(m) && k < MAX_ENTRIES
  {
    if k == 0 then m.entries else Store(m.entries, 32 * k - 8, Address(m, k))
  }

  function Added(m: Buffers, k: nat, e: Entry): Buffers
    requires WellPlaced(m) && k < MAX_ENTRIES
    requires e.fileid >= 0 && e.cookie >= 0 && |e.name| < NFS_MAXPATHLEN
  {
    var s1 := Store(Linked(m, k), 32 * k, e.fileid);
    var s2 := Store(s1, 32 * k + 8, m.namesAt + 1024 * k);
    var s3 := Store(s2, 32 * k + 16, e.cookie);
    var s4 := Store(s3, 32 * k + 24, 0);
    m.(entries := s4, names := Splice(m.names, 1024 * k, e.name + [0]))
  }

  lemma {:induction false} StoreLoad(s: seq<Byte>, at: nat, v: nat, lo: nat)
    requires at + 8 <= |s| && lo + 8 <= |s| && v < 0x1_0000_0000_0000_0000
    requires lo + 8 <= at || at + 8 <= lo || lo == at
    ensures Load(Store(s, at, v), lo) == if lo == at then v else Load(s, lo)
  {
    if lo == at { LoadBack(s, at, v); } else { LoadElsewhere(s, at, LittleEndian(v, 8), lo); }
  }

  // Four consecutive words stored one after the other are there in the end.
  lemma {:induction false} FourStores(s: seq<Byte>, at: nat, a: nat, b: nat, c: nat, d: nat)
    requires at + 32 <= |s|
    requires a < 0x1_0000_0000_0000_0000 && b < 0x1_0000_0000_0000_0000
    requires c < 0x1_0000_0000_0000_0000 && d < 0x1_0000_0000_0000_0000
    ensures var r := Store(Store(Store(Store(s, at, a), at + 8, b), at + 16, c), at + 24, d);
            Load(r, at) == a && Load(r, at + 8) == b && Load(r, at + 16) == c && Load(r, at + 24) == d
  {
    var s1 := Store(s, at, a);
    ThreeStores(s1, at + 8, b, c, d, at);
    StoreLoad(s, at, a, at);
    var s2 := Store(s1, at + 8, b);
    var s3 := Store(s2, at + 16, c);
    StoreLoad(s3, at + 24, d, at + 24);
    StoreLoad(s3, at + 24, d, at + 16);
    StoreLoad(s2, at + 16, c, at + 16);
    StoreLoad(s3, at + 24, d, at + 8);
    StoreLoad(s2, at + 16, c, at + 8);
    StoreLoad(s1, at + 8, b, at + 8);
  }

  // Three consecutive words stored above or below leave a load alone.
  lemma {:induction false} ThreeStores(s: seq<Byte>, at: nat, b: nat, c: nat, d: nat, lo: nat)
    requires at + 24 <= |s| && lo + 8 <= at
    requires b < 0x1_0000_0000_0000_0000 && c < 0x1_0000_0000_0000_0000 && d < 0x1_0000_0000_0000_0000
    ensures Load(Store(Store(Store(s, at, b), at + 8, c), at + 16, d), lo) == Load(s, lo)
  {
    StoreLoad(s, at, b, lo);
    StoreLoad(Store(s, at, b), at + 8, c, lo);
    StoreLoad(Store(Store(s, at, b), at + 8, c), at + 16, d, lo);
  }

  lemma {:induction false} AddedSlot(m: Buffers, k: nat, e: Entry)
    requires WellPlaced(m) && k < MAX_ENTRIES
    requires 0 <= e.fileid < 0x1_0000_0000_0000_0000 && 0 <= e.cookie < 0x1_0000_0000_0000_0000
    requires NulFree(e.name) && |e.name| < NFS_MAXPATHLEN
    ensures WellPlaced(Added(m, k, e)) && Slot(Added(m, k, e), k, e, 0)
  {
    hide FromLittleEndian, LittleEndian;
    FourStores(Linked(m, k), 32 * k, e.fileid, m.namesAt + 1024 * k, e.cookie, 0);
  }

  // Any load below the new slot, except the back-patched pointer, sees what was there.
  lemma {:induction false} AddedElsewhere(m: Buffers, k: nat, e: Entry, lo: nat)
    requires WellPlaced(m) && k < MAX_ENTRIES
    requires e.fileid >= 0 && e.cookie >= 0 && |e.name| < NFS_MAXPATHLEN
    requires lo + 8 <= 32 * k
    ensures lo + 16 <= 32 * k ==> Load(Added(m, k, e).entries, lo) == Load(m.entries, lo)
    ensures lo + 8 == 32 * k ==> Load(Added(m, k, e).entries, lo) == Address(m, k)
  {
    hide FromLittleEndian, LittleEndian;
    var s0, at := Linked(m, k), 32 * k;
    var s1 := Store(s0, at, e.fileid);
    var s2 := Store(s1, at + 8, m.namesAt + 1024 * k);
    var s3 := Store(s2, at + 16, e.cookie);
    LoadElsewhere(s0, at, LittleEndian(e.fileid, 8), lo);
    LoadElsewhere(s1, at + 8, LittleEndian(m.namesAt + 1024 * k, 8), lo);
    LoadElsewhere(s2, at + 16, LittleEndian(e.cookie, 8), lo);
    LoadElsewhere(s3, at + 24, LittleEndian(0, 8), lo);
    if lo + 16 <= 32 * k {
      LoadElsewhere(m.entries, at - 8, LittleEndian(Address(m, k), 8), lo);
    } else if lo + 8 == 32 * k {
      LoadBack(m.entries, at - 8, Address(m, k));
    }
  }

  lemma {:induction false} AddedOtherSlot(m: Buffers, k: nat, e: Entry, j: nat, f: Entry, next: nat)
    requires WellPlaced(m) && j < k < MAX_ENTRIES
    requires e.fileid >= 0 && e.cookie >= 0 && |e.name| < NFS_MAXPATHLEN
    requires Slot(m, j, f, next)
    ensures WellPlaced(Added(m, k, e))
    ensures Slot(Added(m, k, e), j, f, if j + 1 == k then Address(m, k) else next)
  {
    hide Load, LittleEndian;
    AddedElsewhere(m, k, e, 32 * j);
    AddedElsewhere(m, k, e, 32 * j + 8);
    AddedElsewhere(m, k, e, 32 * j + 16);
    AddedElsewhere(m, k, e, 32 * j + 24);
    SpliceElsewhere(m.names, 1024 * k, e.name + [0], 1024 * j, 1024 * j + |f.name| + 1);
  }

  // Adding an entry to a list already laid out extends the list by it.
  lemma {:induction false} AddedIsLaid(m: Buffers, es: seq<Entry>, e: Entry)
    requires Laid(m, es) && |es| < MAX_ENTRIES
    requires 0 <= e.fileid < 0x1_0000_0000_0000_0000 && 0 <= e.cookie < 0x1_0000_0000_0000_0000
    requires NulFree(e.name) && |e.name| < NFS_MAXPATHLEN
    ensures Laid(Added(m, |es|, e), es + [e])
  {
    var k, m', es' := |es|, Added(m, |es|, e), es + [e];
    forall j | 0 <= j < |es'|
      ensures Slot(m', j, es'[j], After(m', es', j))
    {
      AddedEverySlot(m, es, e, j);
    }
  }

  lemma {:induction false} AddedEverySlot(m: Buffers, es: seq<Entry>, e: Entry, j: nat)
    requires Laid(m, es) && j <= |es| < MAX_ENTRIES
    requires 0 <= e.fileid < 0x1_0000_0000_0000_0000 && 0 <= e.cookie < 0x1_0000_0000_0000_0000
    requires NulFree(e.name) && |e.name| < NFS_MAXPATHLEN
    ensures WellPlaced(Added(m, |es|, e))
    ensures Slot(Added(m, |es|, e), j, (es + [e])[j], if j < |es| then Address(m, j + 1) else 0)
  {
    if j < |es| {
      AddedOtherSlot(m, |es|, e, j, es[j], After(m, es, j));
    } else {
      AddedSlot(m, |es|, e);
    }
  }
}

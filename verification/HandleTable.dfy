// The file-descriptor table fdCache: a map from path to id, a map from id to path, and a
// counter. Table is its abstract value; the object itself is in FdCaches.
module HandleTable {
  import opened Bytes
  import opened Paths

  // go_init starts the counter here; ids handed out are greater.
  const FIRST: int := 100

  datatype Table = Table(a: map<Str, int>, b: map<int, Str>, counter: int)

  const EMPTY := Table(map[], map[], FIRST)

  // A path that carries a real id is what that id resolves to. (Id 0 is what a rename of a
  // path without an id reads from the Go map; nothing is claimed of it.)
  ghost predicate Agree(t: Table) {
    forall p :: p in t.a && t.a[p] > FIRST ==> t.a[p] in t.b && t.b[t.a[p]] == p
  }

  ghost predicate InRange(t: Table) {
    && t.counter >= FIRST
    && (forall p :: p in t.a ==> t.a[p] == 0 || FIRST < t.a[p] <= t.counter)
    && (forall id :: id in t.b ==> id == 0 || FIRST < id <= t.counter)
  }

  ghost predicate Inv(t: Table) {
    Agree(t) && InRange(t)
  }

  // Hence an id above 100 belongs to one path.
  lemma {:induction false} AgreeInjective(t: Table, p: Str, q: Str)
    requires Agree(t) && p in t.a && q in t.a
    requires t.a[p] == t.a[q] > FIRST
    ensures p == q
  {
    assert t.b[t.a[p]] == p && t.b[t.a[q]] == q;
  }

  // ------------------------------------------------------------------ the operations

  // GetPath, total: None stands for os.ErrInvalid.
  function Resolved(t: Table, id: int): Option<Str> {
    if id < FIRST then None else if id in t.b then Some(t.b[id]) else None
  }

  // The write step of GetFD: it never looks again whether the path got an id meanwhile.
  function Issue(t: Table, p: Str): Table {
    var id := t.counter + 1;
    Table(t.a[p := id], t.b[id := p], id)
  }

  // GetFD with no other thread between its two steps.
  function Tracked(t: Table, p: Str): Table {
    if p in t.a then t else Issue(t, p)
  }

  // What Go's map read yields, zero when the key is missing.
  function IdOrZero(t: Table, p: Str): int {
    if p in t.a then t.a[p] else 0
  }

  // ReplacePath before its loop.
  function Rekey(t: Table, old_: Str, new_: Str): Table {
    var id := IdOrZero(t, old_);
    Table((t.a - {old_})[new_ := id], (t.b - {id})[id := new_], t.counter)
  }

  // One key of the loop over PathMapA: the body when the prefix matches, nothing otherwise.
  function Visit(t: Table, p: Str, old_: Str, new_: Str): Table
    requires p in t.a
  {
    if Under(p, old_) then
      var id := t.a[p];
      var image := ReplaceFirst(p, old_ + [SLASH], new_ + [SLASH]);
      Table((t.a - {p})[image := id], (t.b - {id})[id := image], t.counter)
    else t
  }

  // Ranging over a Go map that the body changes: `pending` are the entries present at the
  // start that were not produced yet, `born` the ones created since. Every pending entry is
  // produced; a born one may or may not be. Nothing fixes the order.
  datatype Range = Range(t: Table, pending: set<Str>, born: set<Str>)

  function Next(s: Range, p: Str, old_: Str, new_: Str): Range
    requires p in s.t.a
  {
    var t' := Visit(s.t, p, old_, new_);
    var created := t'.a.Keys - (s.t.a.Keys - (if Under(p, old_) then {p} else {}));
    Range(t', s.pending - {p}, (s.born - {p}) + created)
  }

  ghost predicate RangeStep(s: Range, s': Range, old_: Str, new_: Str) {
    exists p :: p in s.pending + s.born && p in s.t.a && s' == Next(s, p, old_, new_)
  }

  ghost predicate RangeRun(run: seq<Range>, old_: Str, new_: Str) {
    && |run| > 0
    && forall i :: 0 <= i < |run| - 1 ==> RangeStep(run[i], run[i + 1], old_, new_)
  }

  // A run of the whole loop: it may end as soon as nothing is pending.
  ghost predicate CompleteRun(run: seq<Range>, start: Table, t': Table, old_: Str, new_: Str) {
    && RangeRun(run, old_, new_)
    && run[0] == Range(start, start.a.Keys, {})
    && run[|run| - 1].pending == {} && run[|run| - 1].t == t'
  }

  // t' is a possible result of ReplacePath on t.
  ghost predicate Replaced(t: Table, t': Table, old_: Str, new_: Str, isDir: bool) {
    var start := Rekey(t, old_, new_);
    if isDir then
      exists run :: CompleteRun(run, start, t', old_, new_)
    else t' == start
  }

  // ------------------------------------------------------------------ what every step keeps

  lemma {:induction false} IssueKeeps(t: Table, p: Str)
    requires Inv(t)
    ensures Inv(Issue(t, p))
  {
  }

  lemma {:induction false} RekeyKeeps(t: Table, old_: Str, new_: Str)
    requires Inv(t)
    ensures Inv(Rekey(t, old_, new_))
  {
    var t', id := Rekey(t, old_, new_), IdOrZero(t, old_);
    forall p | p in t'.a && t'.a[p] > FIRST
      ensures t'.a[p] in t'.b && t'.b[t'.a[p]] == p
    {
      if p != new_ && t.a[p] == id {
        AgreeInjective(t, p, old_);
      }
    }
  }

  lemma {:induction false} VisitKeeps(t: Table, p: Str, old_: Str, new_: Str)
    requires Inv(t) && p in t.a
    ensures Inv(Visit(t, p, old_, new_))
  {
    var t' := Visit(t, p, old_, new_);
    if Under(p, old_) {
      var image := ReplaceFirst(p, old_ + [SLASH], new_ + [SLASH]);
      forall q | q in t'.a && t'.a[q] > FIRST
        ensures t'.a[q] in t'.b && t'.b[t'.a[q]] == q
      {
        if q != image && t.a[q] == t.a[p] {
          AgreeInjective(t, p, q);
        }
      }
    }
  }

  // Holds part-way through the loop too, for any two paths: no relation between them is assumed.
  lemma {:induction false} RunKeeps(run: seq<Range>, old_: Str, new_: Str)
    requires RangeRun(run, old_, new_) && Inv(run[0].t)
    ensures Inv(run[|run| - 1].t)
    ensures run[|run| - 1].t.counter == run[0].t.counter
  {
    if |run| > 1 {
      var front := run[..|run| - 1];
      RunKeeps(front, old_, new_);
      var s, s' := run[|run| - 2], run[|run| - 1];
      assert RangeStep(s, s', old_, new_);
      var p :| p in s.pending + s.born && p in s.t.a && s' == Next(s, p, old_, new_);
      VisitKeeps(s.t, p, old_, new_);
    }
  }

  lemma {:induction false} ReplacedKeeps(t: Table, t': Table, old_: Str, new_: Str, isDir: bool)
    requires Inv(t) && Replaced(t, t', old_, new_, isDir)
    ensures Inv(t') && t'.counter == t.counter
  {
    RekeyKeeps(t, old_, new_);
    if isDir {
      var start := Rekey(t, old_, new_);
      var run :| CompleteRun(run, start, t', old_, new_);
      RunKeeps(run, old_, new_);
    }
  }

  // No path is stuck at id 0.
  ghost predicate TracksAll(t: Table) {
    0 !in t.b && forall p :: p in t.a ==> t.a[p] != 0
  }

  lemma {:induction false} RunTracksAll(run: seq<Range>, old_: Str, new_: Str)
    requires RangeRun(run, old_, new_) && TracksAll(run[0].t)
    ensures TracksAll(run[|run| - 1].t)
  {
    if |run| > 1 {
      var front := run[..|run| - 1];
      RunTracksAll(front, old_, new_);
      assert RangeStep(run[|run| - 2], run[|run| - 1], old_, new_);
    }
  }

  // Only renaming a path without an id puts 0 into the table.
  lemma {:induction false} ReplacedTracksAll(t: Table, t': Table, old_: Str, new_: Str, isDir: bool)
    requires TracksAll(t) && Replaced(t, t', old_, new_, isDir)
    ensures old_ in t.a ==> TracksAll(t')
  {
    var start := Rekey(t, old_, new_);
    if isDir && old_ in t.a {
      var run :| CompleteRun(run, start, t', old_, new_);
      RunTracksAll(run, old_, new_);
    }
  }

  // ------------------------------------------------------------------ the simultaneous substitution

  function At<K, V>(m: map<K, V>, k: K): Option<V> {
    if k in m then Some(m[k]) else None
  }

  predicate AtOrUnder(p: Str, dir: Str) {
    p == dir || Under(p, dir)
  }

  // Part of the loop done: `a` started as `was`, and the keys under `old` that have left it
  // are found at their images, which overwrote what was there. Nothing else has changed.
  ghost predicate Substituting(was: map<Str, int>, a: map<Str, int>, old_: Str, new_: Str) {
    && (forall q :: Under(q, old_) && q in a ==> q in was && a[q] == was[q])
    && (forall q :: !Under(q, old_) && !Under(q, new_) ==>
          (q in a <==> q in was) && (q in a ==> a[q] == was[q]))
    && (forall q :: Under(q, new_) ==> Arrived(was, a, q, Image(q, new_, old_)))
  }

  // q, below the new path, and its counterpart o below the old one.
  ghost predicate Arrived(was: map<Str, int>, a: map<Str, int>, q: Str, o: Str) {
    if o in was && o !in a then q in a && a[q] == was[o]
    else (q in a <==> q in was) && (q in a ==> a[q] == was[q])
  }

  // An id whose path is under `old` when the loop starts.
  ghost predicate Mover(t: Table, id: int, old_: Str) {
    id in t.b && t.b[id] in t.a && t.a[t.b[id]] == id && Under(t.b[id], old_)
  }

  // Where the ids above 100 lead meanwhile.
  ghost predicate Leading(t: Table, s: Table, old_: Str, new_: Str) {
    forall id :: id > FIRST ==>
      At(s.b, id) == if Mover(t, id, old_) && t.b[id] !in s.a
                     then Some(Image(t.b[id], old_, new_)) else At(t.b, id)
  }

  // The forward-map half, which alone makes the loop terminate.
  ghost predicate Reachable(t: Table, s: Range, old_: Str, new_: Str) {
    && s.t.counter == t.counter
    && s.pending <= s.t.a.Keys
    && (forall q :: Under(q, old_) && q in s.t.a ==> q in s.pending)
    && Substituting(t.a, s.t.a, old_, new_)
  }

  ghost predicate Partial(t: Table, s: Range, old_: Str, new_: Str) {
    && Reachable(t, s, old_, new_)
    && Leading(t, s.t, old_, new_)
  }

  lemma {:induction false} SubstitutingStep(was: map<Str, int>, s: Table, p: Str, old_: Str, new_: Str)
    requires Unrelated(old_, new_) && Under(p, old_) && p in s.a
    requires Substituting(was, s.a, old_, new_)
    ensures Substituting(was, Visit(s, p, old_, new_).a, old_, new_)
  {
    var a, image := s.a, Image(p, old_, new_);
    var a' := Visit(s, p, old_, new_).a;
    ReplaceIsImage(p, old_, new_);
    ImageInverse(p, old_, new_);
    assert a' == (a - {p})[image := a[p]];
    assert !Under(image, old_) by { if Under(image, old_) { UnrelatedSubtrees(image, old_, new_); } }
    forall q | Under(q, new_)
      ensures Arrived(was, a', q, Image(q, new_, old_))
    {
      ImageInverse(q, new_, old_);
      if Under(q, old_) { UnrelatedSubtrees(q, old_, new_); }
      assert Arrived(was, a, q, Image(q, new_, old_));
    }
    assert !Under(p, new_) by { UnrelatedSubtrees(p, old_, new_); }
  }

  lemma {:induction false} LeadingStep(t: Table, s: Table, p: Str, old_: Str, new_: Str)
    requires Unrelated(old_, new_) && Under(p, old_) && p in s.a
    requires Agree(t) && Substituting(t.a, s.a, old_, new_) && Leading(t, s, old_, new_)
    ensures Leading(t, Visit(s, p, old_, new_), old_, new_)
  {
    var s', image := Visit(s, p, old_, new_), Image(p, old_, new_);
    ReplaceIsImage(p, old_, new_);
    UnrelatedSubtrees(p, old_, new_);
    assert s.a[p] == t.a[p];
    forall id | id > FIRST
      ensures At(s'.b, id) == if Mover(t, id, old_) && t.b[id] !in s'.a
                              then Some(Image(t.b[id], old_, new_)) else At(t.b, id)
    {
      if id == t.a[p] {
        assert t.b[id] == p;
        assert Under(image, new_) && p != image;
      } else if Mover(t, id, old_) {
        var q := t.b[id];
        if Under(image, old_) { UnrelatedSubtrees(image, old_, new_); }
        assert q != image && q != p;
      }
    }
  }

  lemma {:induction false} ReachableStep(t: Table, s: Range, p: Str, old_: Str, new_: Str)
    requires Unrelated(old_, new_)
    requires Reachable(t, s, old_, new_) && p in s.t.a
    ensures Reachable(t, Next(s, p, old_, new_), old_, new_)
    ensures p !in s.pending ==> Next(s, p, old_, new_) == s.(born := s.born - {p})
  {
    if Under(p, old_) {
      var image := Image(p, old_, new_);
      SubstitutingStep(t.a, s.t, p, old_, new_);
      ReplaceIsImage(p, old_, new_);
      if Under(image, old_) { UnrelatedSubtrees(image, old_, new_); }
    } else {
      assert s.t.a.Keys - (s.t.a.Keys - {}) == {};
    }
  }

  lemma {:induction false} RunIsPartial(run: seq<Range>, t: Table, old_: Str, new_: Str)
    requires Unrelated(old_, new_) && Agree(t)
    requires RangeRun(run, old_, new_) && run[0] == Range(t, t.a.Keys, {})
    ensures Partial(t, run[|run| - 1], old_, new_)
  {
    if |run| > 1 {
      var front := run[..|run| - 1];
      RunIsPartial(front, t, old_, new_);
      var s, s' := run[|run| - 2], run[|run| - 1];
      assert RangeStep(s, s', old_, new_);
      var p :| p in s.pending + s.born && p in s.t.a && s' == Next(s, p, old_, new_);
      ReachableStep(t, s, p, old_, new_);
      if Under(p, old_) { LeadingStep(t, s.t, p, old_, new_); }
    } else {
      InitiallyPartial(t, old_, new_);
    }
  }

  lemma {:induction false} InitiallyPartial(t: Table, old_: Str, new_: Str)
    requires Unrelated(old_, new_)
    ensures Partial(t, Range(t, t.a.Keys, {}), old_, new_)
  {
  }

  // The rename as one simultaneous substitution: keys at or below `old` are gone, keys at or
  // below `new` carry the id of their counterpart below `old` where there is one (and 0 for
  // `new` itself when `old` had no id), every other key is untouched.
  ghost predicate Renamed(a: map<Str, int>, a': map<Str, int>, old_: Str, new_: Str) {
    && (forall q :: AtOrUnder(q, old_) ==> q !in a')
    && (new_ in a' && a'[new_] == if old_ in a then a[old_] else 0)
    && (forall q :: Under(q, new_) ==>
          var o := Image(q, new_, old_);
          if o in a then q in a' && a'[q] == a[o]
          else (q in a' <==> q in a) && (q in a' ==> a'[q] == a[q]))
    && (forall q :: !AtOrUnder(q, old_) && !AtOrUnder(q, new_) ==>
          (q in a' <==> q in a) && (q in a' ==> a'[q] == a[q]))
  }

  // Whether the id d is its path's current id.
  ghost predicate Current(t: Table, d: int) {
    d in t.b && t.b[d] in t.a && t.a[t.b[d]] == d
  }

  // Where id d leads after the rename: a current id of a path at or below `old` follows it,
  // every other id leads where it did.
  ghost function Followed(t: Table, d: int, old_: Str, new_: Str): Option<Str> {
    if Current(t, d) && AtOrUnder(t.b[d], old_) then Some(Image(t.b[d], old_, new_)) else At(t.b, d)
  }

  // Once the loop has moved everything below `old`, the forward map is that substitution.
  lemma {:induction false} SubstitutedIsRenamed(t: Table, a': map<Str, int>, old_: Str, new_: Str)
    requires Unrelated(old_, new_)
    requires Substituting(Rekey(t, old_, new_).a, a', old_, new_)
    requires forall q :: Under(q, old_) ==> q !in a'
    ensures Renamed(t.a, a', old_, new_)
  {
    var was := Rekey(t, old_, new_).a;
    forall q | Under(q, new_)
      ensures var o := Image(q, new_, old_);
              if o in t.a then q in a' && a'[q] == t.a[o]
              else (q in a' <==> q in t.a) && (q in a' ==> a'[q] == t.a[q])
    {
      var o := Image(q, new_, old_);
      ImageInverse(q, new_, old_);
      if AtOrUnder(o, new_) { UnrelatedSubtrees(o, old_, new_); }
      if AtOrUnder(q, old_) { SharedDescendant(q, old_, new_); }
      assert Arrived(was, a', q, o);
      assert o != new_ && o != old_;
    }
  }

  // For every iteration order, and whichever newly inserted keys are visited, ReplacePath of a
  // directory is that substitution, in both maps.
  lemma {:induction false} ReplaceIsSubstitution(t: Table, t': Table, old_: Str, new_: Str)
    requires Inv(t) && Unrelated(old_, new_)
    requires Replaced(t, t', old_, new_, true)
    ensures Renamed(t.a, t'.a, old_, new_)
    ensures forall d :: d > FIRST ==> At(t'.b, d) == Followed(t, d, old_, new_)
  {
    var start, id := Rekey(t, old_, new_), IdOrZero(t, old_);
    RekeyKeeps(t, old_, new_);
    var run :| CompleteRun(run, start, t', old_, new_);
    RunIsPartial(run, start, old_, new_);
    hide RangeRun, RangeStep, Renamed, Substituting;
    SubstitutedIsRenamed(t, t'.a, old_, new_);
    forall d | d > FIRST
      ensures At(t'.b, d) == Followed(t, d, old_, new_)
    {
      FollowedAfterRekey(t, d, old_, new_);
    }
  }

  lemma {:induction false} FollowedAfterRekey(t: Table, d: int, old_: Str, new_: Str)
    requires Inv(t) && Unrelated(old_, new_) && d > FIRST
    ensures var start := Rekey(t, old_, new_);
            Followed(t, d, old_, new_) ==
              if Mover(start, d, old_) then Some(Image(start.b[d], old_, new_)) else At(start.b, d)
  {
    var start, id := Rekey(t, old_, new_), IdOrZero(t, old_);
    if d == id {
      assert t.b[d] == old_ && start.b[d] == new_;
      assert Image(old_, old_, new_) == new_;
    } else if d in t.b {
      var p := t.b[d];
      assert start.b[d] == p;
      if AtOrUnder(p, old_) {
        UnrelatedSubtrees(p, old_, new_);
      }
    }
  }

  // A plain file: only the one path changes.
  lemma {:induction false} ReplaceFileIsSubstitution(t: Table, t': Table, old_: Str, new_: Str)
    requires Inv(t) && Replaced(t, t', old_, new_, false)
    ensures t'.a == (t.a - {old_})[new_ := IdOrZero(t, old_)]
    ensures forall d :: d > FIRST ==>
              At(t'.b, d) == if Current(t, d) && t.b[d] == old_ then Some(new_) else At(t.b, d)
  {
  }

  // A rename leaves some path stuck at id 0 exactly when its source had no id.
  lemma {:induction false} StuckExactly(t: Table, t': Table, old_: Str, new_: Str, isDir: bool)
    requires Inv(t) && TracksAll(t) && (Unrelated(old_, new_) || old_ == new_)
    requires Replaced(t, t', old_, new_, isDir)
    ensures TracksAll(t') <==> old_ in t.a
  {
    ReplacedTracksAll(t, t', old_, new_, isDir);
    if old_ == new_ {
      SelfRename(t, t', old_, isDir);
    } else if isDir {
      ReplaceIsSubstitution(t, t', old_, new_);
    }
    assert t'.a[new_] == IdOrZero(t, old_);
  }

  // Renaming a path to itself, which a back end accepts as a no-op: whatever part of the loop
  // runs, the forward map only gains the path itself and no id above 100 is led elsewhere.
  lemma {:induction false} SelfRenameRun(run: seq<Range>, t: Table, p: Str)
    requires Inv(t) && RangeRun(run, p, p) && run[0].t == t
    ensures SameTable(t, run[|run| - 1].t)
  {
    if |run| > 1 {
      var front := run[..|run| - 1];
      SelfRenameRun(front, t, p);
      var s, s' := run[|run| - 2], run[|run| - 1];
      assert RangeStep(s, s', p, p);
      var q :| q in s.pending + s.born && q in s.t.a && s' == Next(s, q, p, p);
      hide RangeRun;
      SelfVisit(t, s.t, q, p);
    }
  }

  ghost predicate SameTable(t: Table, t': Table) {
    t'.a == t.a && t'.counter == t.counter && forall d :: d > FIRST ==> At(t'.b, d) == At(t.b, d)
  }

  lemma {:induction false} SelfVisit(t: Table, s: Table, q: Str, p: Str)
    requires Inv(t) && SameTable(t, s) && q in s.a
    ensures SameTable(t, Visit(s, q, p, p))
  {
    if Under(q, p) {
      ReplaceIsImage(q, p, p);
      assert q == Image(q, p, p);
      assert Visit(s, q, p, p).a == s.a;
    }
  }

  lemma {:induction false} SelfRename(t: Table, t': Table, p: Str, isDir: bool)
    requires Inv(t) && Replaced(t, t', p, p, isDir)
    ensures t'.a == t.a[p := IdOrZero(t, p)]
    ensures forall d :: d > FIRST ==> At(t'.b, d) == At(t.b, d)
  {
    var start := Rekey(t, p, p);
    assert start.a == t.a[p := IdOrZero(t, p)];
    RekeyKeeps(t, p, p);
    if isDir {
      var run :| CompleteRun(run, start, t', p, p);
      SelfRenameRun(run, start, p);
    }
  }

  // ------------------------------------------------------------------ whether the loop ends

  ghost predicate RunFrom(run: seq<Range>, start: Table, old_: Str, new_: Str) {
    RangeRun(run, old_, new_) && run[0] == Range(start, start.a.Keys, {})
  }

  ghost predicate EndsWithin(bound: nat, start: Table, old_: Str, new_: Str) {
    forall run :: RunFrom(run, start, old_, new_) ==> |run| <= bound
  }

  // However the map is ranged over, the loop of ReplacePath comes to an end.
  ghost predicate Ends(start: Table, old_: Str, new_: Str) {
    exists bound: nat :: EndsWithin(bound, start, old_, new_)
  }

  ghost predicate KeyUnder(t: Table, p: Str) {
    exists q :: q in t.a && Under(q, p)
  }

  function Left(s: Range): nat {
    2 * |s.pending| + |s.born|
  }

  // A key visited is gone; at most one is born of it.
  lemma {:induction false} StepLeaves(s: Range, p: Str, old_: Str, new_: Str)
    requires p in s.t.a && p in s.pending + s.born
    requires Under(p, old_) ==> p in s.pending
    ensures Left(Next(s, p, old_, new_)) < Left(s)
  {
    var s' := Next(s, p, old_, new_);
    if Under(p, old_) {
      var image := ReplaceFirst(p, old_ + [SLASH], new_ + [SLASH]);
      assert s'.born <= s.born + {image} by {
        assert s'.t.a.Keys - (s.t.a.Keys - {p}) <= {image};
      }
      assert s'.pending == s.pending - {p};
      hide Next, Visit;
      SmallerSet(s'.born, s.born + {image});
      assert |s.pending - {p}| == |s.pending| - 1;
    } else {
      assert s'.pending == s.pending - {p} && s'.born == s.born - {p};
      hide Next, Visit;
      TakenOut(s.pending, p);
      TakenOut(s.born, p);
    }
  }

  lemma {:induction false} TakenOut(x: set<Str>, p: Str)
    ensures |x - {p}| == if p in x then |x| - 1 else |x|
  {
    if p !in x { assert x - {p} == x; }
  }

  lemma {:induction false} SmallerSet(x: set<Str>, y: set<Str>)
    requires x <= y
    ensures |x| <= |y|
  {
    assert y == x + (y - x);
  }

  // Unrelated paths: nothing inserted matches the prefix again.
  lemma {:induction false} UnrelatedRunEnds(run: seq<Range>, t: Table, old_: Str, new_: Str)
    requires Unrelated(old_, new_) && RunFrom(run, t, old_, new_)
    ensures Reachable(t, run[|run| - 1], old_, new_)
    ensures |run| + Left(run[|run| - 1]) <= 2 * |t.a.Keys| + 1
  {
    if |run| > 1 {
      var front := run[..|run| - 1];
      UnrelatedRunEnds(front, t, old_, new_);
      var s, s' := run[|run| - 2], run[|run| - 1];
      assert RangeStep(s, s', old_, new_);
      var p :| p in s.pending + s.born && p in s.t.a && s' == Next(s, p, old_, new_);
      ReachableStep(t, s, p, old_, new_);
      StepLeaves(s, p, old_, new_);
    } else {
      InitiallyPartial(t, old_, new_);
    }
  }

  // No key below: no visit does anything.
  lemma {:induction false} IdleRunEnds(run: seq<Range>, t: Table, old_: Str, new_: Str)
    requires !KeyUnder(t, old_) && RunFrom(run, t, old_, new_)
    ensures run[|run| - 1].t == t
    ensures |run| + Left(run[|run| - 1]) <= 2 * |t.a.Keys| + 1
  {
    if |run| > 1 {
      var front := run[..|run| - 1];
      IdleRunEnds(front, t, old_, new_);
      var s, s' := run[|run| - 2], run[|run| - 1];
      assert RangeStep(s, s', old_, new_);
      var p :| p in s.pending + s.born && p in s.t.a && s' == Next(s, p, old_, new_);
      StepLeaves(s, p, old_, new_);
    }
  }

  // Renaming p to itself with a key q below it: q is deleted, inserted again, and may be produced
  // again, any number of times.
  lemma {:induction false} SelfRenameRunsOn(t: Table, p: Str, q: Str, n: nat) returns (run: seq<Range>)
    requires q in t.a && Under(q, p) && n > 0
    ensures RunFrom(run, t, p, p) && |run| == n
    ensures var s := run[n - 1]; s.t.a == t.a && q in s.pending + s.born
  {
    if n == 1 {
      run := [Range(t, t.a.Keys, {})];
    } else {
      var front := SelfRenameRunsOn(t, p, q, n - 1);
      var s := front[n - 2];
      var s' := Next(s, q, p, p);
      ReplaceIsImage(q, p, p);
      assert q == Image(q, p, p);
      assert s'.t.a == t.a;
      assert q in s'.t.a.Keys - (s.t.a.Keys - {q});
      assert RangeStep(s, s', p, p);
      run := front + [s'];
    }
  }

  // The renames a back end accepts are of unrelated paths, or of a path to itself. The loop that
  // follows ends under every iteration order exactly unless it is the latter and some key lies
  // below the path: then it has runs of every length.
  lemma {:induction false} RenameEndsExactly(t: Table, old_: Str, new_: Str)
    requires Unrelated(old_, new_) || old_ == new_
    ensures Ends(Rekey(t, old_, new_), old_, new_) <==> old_ != new_ || !KeyUnder(t, old_)
  {
    var start := Rekey(t, old_, new_);
    assert old_ == new_ ==> start.a == t.a[old_ := IdOrZero(t, old_)];
    hide RunFrom, Rekey, Unrelated;
    if old_ != new_ {
      UnrelatedEnds(start, old_, new_);
    } else if KeyUnder(t, old_) {
      var q :| q in t.a && Under(q, old_);
      forall bound: nat
        ensures !EndsWithin(bound, start, old_, old_)
      {
        var run := SelfRenameRunsOn(start, old_, q, bound + 1);
      }
    } else {
      IdleEnds(start, old_);
    }
  }

  lemma {:induction false} UnrelatedEnds(start: Table, old_: Str, new_: Str)
    requires Unrelated(old_, new_)
    ensures Ends(start, old_, new_)
  {
    hide RunFrom, Unrelated;
    forall run | RunFrom(run, start, old_, new_)
      ensures |run| <= 2 * |start.a.Keys| + 1
    {
      UnrelatedRunEnds(run, start, old_, new_);
    }
    assert EndsWithin(2 * |start.a.Keys| + 1, start, old_, new_);
  }

  lemma {:induction false} IdleEnds(start: Table, p: Str)
    requires !KeyUnder(start, p)
    ensures Ends(start, p, p)
  {
    hide RunFrom, KeyUnder;
    forall run | RunFrom(run, start, p, p)
      ensures |run| <= 2 * |start.a.Keys| + 1
    {
      IdleRunEnds(run, start, p, p);
    }
    assert EndsWithin(2 * |start.a.Keys| + 1, start, p, p);
  }

  // For instance: a directory /a that was looked up, and /a/b in it.
  lemma {:induction false} SelfRenameNeedNotEnd()
    ensures var dir, file := [SLASH, 97], [SLASH, 97, SLASH, 98];
            var t := Issue(Issue(EMPTY, dir), file);
            Inv(t) && !Ends(Rekey(t, dir, dir), dir, dir)
  {
    var dir, file := [SLASH, 97], [SLASH, 97, SLASH, 98];
    var t := Issue(Issue(EMPTY, dir), file);
    IssueKeeps(EMPTY, dir);
    IssueKeeps(Issue(EMPTY, dir), file);
    assert file in t.a && Under(file, dir);
    RenameEndsExactly(t, dir, dir);
  }

  // ------------------------------------------------------------------ when the maps are inverse

  // Both maps say the same thing, about real ids only.
  ghost predicate Inverse(t: Table) {
    && InRange(t)
    && (forall p :: p in t.a ==> t.a[p] > FIRST && t.a[p] in t.b && t.b[t.a[p]] == p)
    && (forall d :: d in t.b ==> t.b[d] in t.a && t.a[t.b[d]] == d)
  }

  // Looking an id up and resolving it gives the path back exactly when the path is not
  // stuck at id 0.
  lemma {:induction false} LookupRoundTrip(t: Table, p: Str)
    requires Inv(t)
    ensures var t' := Tracked(t, p);
            Inv(t') && p in t'.a
            && (Resolved(t', t'.a[p]) == Some(p) <==> !(p in t.a && t.a[p] == 0))
  {
    IssueKeeps(t, p);
  }

  // The write step of GetFD keeps the maps inverse exactly when no other thread has given
  // the path an id since the read step missed.
  lemma {:induction false} IssueKeepsInverse(t: Table, p: Str)
    requires Inverse(t)
    ensures Inverse(Issue(t, p)) <==> p !in t.a
  {
    var t', id := Issue(t, p), t.counter + 1;
    if p in t.a {
      assert t'.b[t.a[p]] == p && t'.a[p] == id;
      assert !Inverse(t');
    } else {
      assert t'.b[id] == p;
      forall d | d in t'.b
        ensures t'.b[d] in t'.a && t'.a[t'.b[d]] == d
      {
      }
    }
  }

  // No entry of the table is in the way of what the rename moves.
  predicate TargetFree(t: Table, old_: Str, new_: Str, isDir: bool) {
    && new_ !in t.a
    && (isDir ==> forall p :: p in t.a && Under(p, old_) ==> Image(p, old_, new_) !in t.a)
  }

  // A rename keeps the maps inverse exactly when its source has an id and, unless it is to itself,
  // no path it moves onto has one.
  lemma {:induction false} ReplaceKeepsInverse(t: Table, t': Table, old_: Str, new_: Str, isDir: bool)
    requires Inverse(t) && (Unrelated(old_, new_) || old_ == new_)
    requires Replaced(t, t', old_, new_, isDir)
    ensures Inverse(t') <==> old_ in t.a && (old_ == new_ || TargetFree(t, old_, new_, isDir))
  {
    if old_ == new_ {
      SelfKeepsInverse(t, t', old_, isDir);
    } else {
      UnrelatedKeepsInverse(t, t', old_, new_, isDir);
    }
  }

  lemma {:induction false} SelfKeepsInverse(t: Table, t': Table, p: Str, isDir: bool)
    requires Inverse(t) && Replaced(t, t', p, p, isDir)
    ensures Inverse(t') <==> p in t.a
  {
    ReplacedKeeps(t, t', p, p, isDir);
    SelfRename(t, t', p, isDir);
    ReplacedTracksAll(t, t', p, p, isDir);
    hide Replaced;
    assert t'.a[p] == IdOrZero(t, p);
    if p in t.a {
      forall d | d in t'.b
        ensures t'.b[d] in t'.a && t'.a[t'.b[d]] == d
      {
        assert At(t'.b, d) == At(t.b, d);
      }
    }
  }

  lemma {:induction false} UnrelatedKeepsInverse(t: Table, t': Table, old_: Str, new_: Str, isDir: bool)
    requires Inverse(t) && Unrelated(old_, new_)
    requires Replaced(t, t', old_, new_, isDir)
    ensures Inverse(t') <==> old_ in t.a && TargetFree(t, old_, new_, isDir)
  {
    ReplacedKeeps(t, t', old_, new_, isDir);
    if isDir {
      ReplaceIsSubstitution(t, t', old_, new_);
    } else {
      ReplaceFileIsSubstitution(t, t', old_, new_);
    }
    if old_ !in t.a {
      assert t'.a[new_] == 0;
    } else if new_ in t.a {
      assert Image(old_, old_, new_) == new_;
      StaleAt(t, t', old_, new_, isDir, old_);
    } else if isDir && !TargetFree(t, old_, new_, isDir) {
      var p :| p in t.a && Under(p, old_) && Image(p, old_, new_) in t.a;
      StaleAt(t, t', old_, new_, isDir, p);
    } else {
      ReplacedTracksAll(t, t', old_, new_, isDir);
      StillInverse(t, t', old_, new_, isDir);
    }
  }

  // What a rename has just made of the two maps, for either kind of source.
  ghost predicate Outcome(t: Table, t': Table, old_: Str, new_: Str, isDir: bool) {
    if isDir then
      Renamed(t.a, t'.a, old_, new_) && forall d :: d > FIRST ==> At(t'.b, d) == Followed(t, d, old_, new_)
    else
      && t'.a == (t.a - {old_})[new_ := IdOrZero(t, old_)]
      && forall d :: d > FIRST ==>
           At(t'.b, d) == if Current(t, d) && t.b[d] == old_ then Some(new_) else At(t.b, d)
  }

  // The id that the target of p had still leads there, but the path has another id now.
  lemma {:induction false} StaleAt(t: Table, t': Table, old_: Str, new_: Str, isDir: bool, p: Str)
    requires Inverse(t) && Unrelated(old_, new_) && Outcome(t, t', old_, new_, isDir)
    requires p in t.a && (p == old_ || (isDir && Under(p, old_)))
    requires Image(p, old_, new_) in t.a
    ensures !Inverse(t')
  {
    var q := Image(p, old_, new_);
    var stale := t.a[q];
    if p == old_ {
      assert q == new_;
    } else {
      ImageInverse(p, old_, new_);
    }
    assert q !in {old_} && !Under(q, old_) by {
      if AtOrUnder(q, old_) { SharedDescendant(q, old_, new_); }
    }
    assert At(t'.b, stale) == Some(q);
    assert t'.a[q] == t.a[p];
    assert t.b[stale] == q && t.b[t.a[p]] == p && p != q;
  }

  lemma {:induction false} StillInverse(t: Table, t': Table, old_: Str, new_: Str, isDir: bool)
    requires Inverse(t) && Unrelated(old_, new_) && Outcome(t, t', old_, new_, isDir)
    requires Inv(t') && old_ in t.a && TargetFree(t, old_, new_, isDir)
    requires TracksAll(t')
    ensures Inverse(t')
  {
    forall d | d in t'.b
      ensures t'.b[d] in t'.a && t'.a[t'.b[d]] == d
    {
      assert At(t'.b, d) == Some(t'.b[d]);
      var p := t.b[d];
      if isDir && Under(p, old_) {
        ImageInverse(p, old_, new_);
      } else if isDir && Under(p, new_) {
        ImageInverse(p, new_, old_);
      }
      if p == old_ {
        assert Image(p, old_, new_) == new_;
      }
    }
  }
}

// What the server assumes of its back end `ns`: a map from canonical path to object. Nothing
// is assumed of when an operation succeeds; the predicates say what a success has done.
module Namespace {
  import opened Bytes
  import opened Paths
  import opened HandleTable

  datatype Obj = Obj(id: nat, isDir: bool)

  type Tree = map<Str, Obj>

  // Objects have identities, never reused; `next` is the first unused one.
  ghost predicate WellFormed(ns: Tree, next: nat) {
    && ROOT in ns && ns[ROOT].isDir
    && (forall p :: p in ns ==> Canonical(p) && ns[p].id < next)
    && (forall p, q :: p in ns && q in ns && ns[p].id == ns[q].id ==> p == q)
    && (forall p, q :: p in ns && q in ns && Under(q, p) ==> ns[p].isDir)
  }

  ghost predicate Placeable(ns: Tree, p: Str) {
    Canonical(p) && p != ROOT && forall q :: q in ns && Under(p, q) ==> ns[q].isDir
  }

  // A new object can be made at p.
  ghost predicate Vacant(ns: Tree, p: Str) {
    p !in ns && Placeable(ns, p) && forall q :: q in ns ==> !Under(q, p)
  }

  ghost predicate Created(ns: Tree, next: nat, ns': Tree, p: Str, isDir: bool) {
    Vacant(ns, p) && ns' == ns[p := Obj(next, isDir)]
  }

  ghost predicate Removable(ns: Tree, p: Str) {
    p in ns && p != ROOT && forall q :: q in ns ==> !Under(q, p)
  }

  ghost predicate Removed(ns: Tree, ns': Tree, p: Str) {
    Removable(ns, p) && ns' == ns - {p}
  }

  // A place for a new file, or a plain file that may be replaced.
  ghost predicate Writable(ns: Tree, p: Str) {
    Vacant(ns, p) || (p in ns && !ns[p].isDir)
  }

  // Neither path is at or below the other, as components: the root is above everything.
  predicate Apart(p: Str, q: Str) {
    p != ROOT && q != ROOT && Unrelated(p, q)
  }

  // The subtree at `old` now hangs at `new`, and whatever was there is gone.
  ghost predicate Transplanted(ns: Tree, ns': Tree, old_: Str, new_: Str) {
    forall q ::
      if AtOrUnder(q, old_) then q !in ns'
      else if AtOrUnder(q, new_) then
        var o := Image(q, new_, old_);
        (q in ns' <==> o in ns) && (q in ns' ==> ns'[q] == ns[o])
      else (q in ns' <==> q in ns) && (q in ns' ==> ns'[q] == ns[q])
  }

  ghost predicate Movable(ns: Tree, old_: Str, new_: Str) {
    old_ in ns && (old_ == new_ || (Apart(old_, new_) && Placeable(ns, new_)))
  }

  ghost predicate Moved(ns: Tree, ns': Tree, old_: Str, new_: Str) {
    Movable(ns, old_, new_) && if old_ == new_ then ns' == ns else Transplanted(ns, ns', old_, new_)
  }

  // What each plain file holds, by its identity.
  type Contents = map<nat, seq<Byte>>

  predicate IsFile(ns: Tree, p: Str) {
    p in ns && !ns[p].isDir
  }

  function FileAt(ns: Tree, contents: Contents, p: Str): seq<Byte> {
    if IsFile(ns, p) && ns[p].id in contents then contents[ns[p].id] else []
  }

  predicate IsDirectory(ns: Tree, p: Str) {
    p in ns && ns[p].isDir
  }

  // ------------------------------------------------------------------ what is in a directory

  predicate Child(ns: Tree, dir: Str, name: Str) {
    Component(name) && ListedPath(dir, name) in ns
  }

  // The names of its children, once each, in whatever order.
  ghost predicate Lists(ns: Tree, dir: Str, names: seq<Str>) {
    && (forall n :: n in names <==> Child(ns, dir, n))
    && (forall i, j :: 0 <= i < j < |names| ==> names[i] != names[j])
  }

  // There is such a listing of every directory.
  lemma {:induction false} ListingExists(ns: Tree, dir: Str) returns (names: seq<Str>)
    requires Canonical(dir)
    ensures Lists(ns, dir, names)
  {
    var base := (if dir == ROOT then [] else dir) + [SLASH];
    var found := set q | q in ns && base <= q && Child(ns, dir, q[|base|..]) :: q[|base|..];
    forall n
      ensures n in found <==> Child(ns, dir, n)
    {
      if Child(ns, dir, n) {
        ChildIsBelow(dir, n);
        assert ListedPath(dir, n)[|base|..] == n;
      }
    }
    names := Enumerated(found);
  }

  lemma {:induction false} ChildIsBelow(dir: Str, name: Str)
    requires Canonical(dir) && Component(name)
    ensures ListedPath(dir, name) == (if dir == ROOT then [] else dir) + [SLASH] + name
  {
    var cs :| Components(cs) && dir == Render(cs);
    CleanJoined(cs, name);
    JoinConcat(cs, [name]);
    assert Join([name]) == [SLASH] + name;
    if cs != [] {
      assert Component(cs[0]);
      assert Join(cs)[1] == cs[0][0];
    }
  }

  lemma {:induction false} Enumerated(s: set<Str>) returns (names: seq<Str>)
    ensures forall n :: n in names <==> n in s
    ensures forall i, j :: 0 <= i < j < |names| ==> names[i] != names[j]
  {
    names := [];
    if s != {} {
      var n :| n in s;
      var rest := Enumerated(s - {n});
      names := [n] + rest;
    }
  }

  // ------------------------------------------------------------------ paths after a move

  lemma {:induction false} UnderTransitive(p: Str, q: Str, r: Str)
    requires Under(p, q) && AtOrUnder(q, r)
    ensures Under(p, r)
  {
    if q != r {
      assert r + [SLASH] == q[..|r| + 1] == p[..|r| + 1];
    }
  }

  lemma {:induction false} ImageRoundTrip(q: Str, from: Str, to: Str)
    requires AtOrUnder(q, from)
    ensures AtOrUnder(Image(q, from, to), to)
    ensures Image(Image(q, from, to), to, from) == q
  {
    if Under(q, from) { ImageInverse(q, from, to); }
  }

  lemma {:induction false} ImageKeepsOrder(p: Str, q: Str, from: Str, to: Str)
    requires AtOrUnder(p, from) && AtOrUnder(q, from) && Under(q, p)
    ensures Under(Image(q, from, to), Image(p, from, to))
  {
    var r := q[|p| + 1..];
    assert q == p + [SLASH] + r;
    assert q[|from|..] == p[|from|..] + [SLASH] + r;
    assert Image(q, from, to) == Image(p, from, to) + [SLASH] + r;
  }

  lemma {:induction false} ImageCanonical(p: Str, from: Str, to: Str)
    requires Canonical(p) && Canonical(from) && Canonical(to)
    requires from != ROOT && to != ROOT && AtOrUnder(p, from)
    ensures Canonical(Image(p, from, to))
  {
    var ds :| Components(ds) && p == Render(ds);
    var cs :| Components(cs) && from == Render(cs);
    var ts :| Components(ts) && to == Render(ts);
    if p == from {
      assert Image(p, from, to) == to;
    } else {
      PrefixIsDescent(ds, cs);
      ImageOfDescendant(ds, cs, ts);
      ReplaceIsImage(p, from, to);
      assert Components(ts + ds[|cs|..]);
    }
  }

  // ------------------------------------------------------------------ the tree stays a tree

  lemma {:induction false} CreatedKeeps(ns: Tree, next: nat, ns': Tree, p: Str, isDir: bool)
    requires WellFormed(ns, next) && Created(ns, next, ns', p, isDir)
    ensures WellFormed(ns', next + 1)
  {
    assert !Under(p, p);
  }

  lemma {:induction false} RemovedKeeps(ns: Tree, next: nat, ns': Tree, p: Str)
    requires WellFormed(ns, next) && Removed(ns, ns', p)
    ensures WellFormed(ns', next)
  {
  }

  // Where an object of the new tree was before.
  function Origin(q: Str, old_: Str, new_: Str): Str {
    if AtOrUnder(q, new_) then Image(q, new_, old_) else q
  }

  lemma {:induction false} OriginInjective(p: Str, q: Str, old_: Str, new_: Str)
    requires Unrelated(old_, new_)
    requires !AtOrUnder(p, old_) && !AtOrUnder(q, old_)
    requires Origin(p, old_, new_) == Origin(q, old_, new_)
    ensures p == q
  {
    if AtOrUnder(p, new_) { ImageRoundTrip(p, new_, old_); }
    if AtOrUnder(q, new_) { ImageRoundTrip(q, new_, old_); }
  }

  lemma {:induction false} TransplantedKeepsDirs(ns: Tree, ns': Tree, old_: Str, new_: Str, p: Str, q: Str)
    requires Apart(old_, new_) && Placeable(ns, new_) && Transplanted(ns, ns', old_, new_)
    requires forall x, y :: x in ns && y in ns && Under(y, x) ==> ns[x].isDir
    requires p in ns' && q in ns' && Under(q, p)
    ensures ns'[p].isDir
  {
    if AtOrUnder(p, new_) {
      UnderTransitive(q, p, new_);
      ImageKeepsOrder(p, q, new_, old_);
    } else if AtOrUnder(q, new_) {
      SharedDescendant(q, p, new_);
      assert Under(new_, p);
    }
  }

  lemma {:induction false} MovedKeeps(ns: Tree, next: nat, ns': Tree, old_: Str, new_: Str)
    requires WellFormed(ns, next) && Moved(ns, ns', old_, new_)
    ensures WellFormed(ns', next)
  {
    if old_ != new_ {
      forall p | p in ns'
        ensures Canonical(p) && ns'[p].id < next
      {
        if AtOrUnder(p, new_) {
          ImageRoundTrip(p, new_, old_);
          ImageCanonical(Image(p, new_, old_), old_, new_);
        }
      }
      forall p, q | p in ns' && q in ns' && ns'[p].id == ns'[q].id
        ensures p == q
      {
        OriginInjective(p, q, old_, new_);
      }
      forall p, q | p in ns' && q in ns' && Under(q, p)
        ensures ns'[p].isDir
      {
        TransplantedKeepsDirs(ns, ns', old_, new_, p, q);
      }
      RootStays(old_, new_);
    }
  }

  lemma {:induction false} RootStays(old_: Str, new_: Str)
    requires old_ != ROOT && new_ != ROOT && old_ != [] && new_ != []
    ensures !AtOrUnder(ROOT, old_) && !AtOrUnder(ROOT, new_)
  {
  }
}

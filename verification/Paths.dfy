// Slash-separated paths. The Go side canonicalises every path it receives with path.Clean
// and then works on the strings; here those strings are related to lists of components.
module Paths {
  import opened Bytes

  const NFS_MAXPATHLEN := 1024   // a path buffer of the C side, and a name slot of READDIR

  const SLASH: Byte := 47
  const DOT: Byte := 46
  const SELF: Str := [DOT]
  const PARENT: Str := [DOT, DOT]
  const ROOT: Str := [SLASH]

  // An ordinary component: what remains of a path once "", "." and ".." are resolved.
  predicate Component(c: Str) {
    c != [] && SLASH !in c && c != SELF && c != PARENT
  }

  predicate Components(cs: seq<Str>) {
    forall i :: 0 <= i < |cs| ==> Component(cs[i])
  }

  // One more character in front of a path already split.
  function Prepend(c: Byte, parts: seq<Str>): (r: seq<Str>)
    requires |parts| > 0
    ensures |r| > 0
  {
    if c == SLASH then [[]] + parts else [[c] + parts[0]] + parts[1..]
  }

  function Split(s: Str): (parts: seq<Str>)
    ensures |parts| > 0
  {
    if s == [] then [[]] else Prepend(s[0], Split(s[1..]))
  }

  // One element of a rooted path, applied to the components kept so far.
  function Descend(at: seq<Str>, part: Str): seq<Str> {
    if part == [] || part == SELF then at
    else if part == PARENT then if at == [] then [] else at[..|at| - 1]
    else at + [part]
  }

  function Resolve(at: seq<Str>, parts: seq<Str>): seq<Str>
    decreases |parts|
  {
    if parts == [] then at else Resolve(Descend(at, parts[0]), parts[1..])
  }

  function Join(cs: seq<Str>): Str {
    if cs == [] then [] else [SLASH] + cs[0] + Join(cs[1..])
  }

  function Render(cs: seq<Str>): Str {
    if cs == [] then ROOT else Join(cs)
  }

  // path.Clean on a path that starts with a slash, the only kind the server passes.
  function Clean(p: Str): Str {
    Render(Resolve([], Split(p)))
  }

  // What every exported Go function does first with a C string.
  function Canonicalise(raw: Str): Str {
    Clean([SLASH] + raw)
  }

  ghost predicate Canonical(p: Str) {
    exists cs :: Components(cs) && p == Render(cs)
  }

  lemma {:induction false} PrependAppend(c: Byte, parts: seq<Str>, more: seq<Str>)
    requires |parts| > 0
    ensures Prepend(c, parts + more) == Prepend(c, parts) + more
  {
    assert (parts + more)[1..] == parts[1..] + more;
  }

  lemma {:induction false} SplitConcat(a: Str, b: Str)
    ensures Split(a + [SLASH] + b) == Split(a) + Split(b)
  {
    if a == [] {
      assert ([] + [SLASH] + b)[1..] == b;
    } else {
      var s := a + [SLASH] + b;
      assert s[0] == a[0] && s[1..] == a[1..] + [SLASH] + b;
      hide Prepend;
      SplitConcat(a[1..], b);
      PrependAppend(a[0], Split(a[1..]), Split(b));
    }
  }

  lemma {:induction false} SplitSlashFree(c: Str)
    requires SLASH !in c
    ensures Split(c) == [c]
  {
    if c != [] {
      SplitSlashFree(c[1..]);
      assert [c[0]] + c[1..] == c;
    }
  }

  lemma {:induction false} SplitTail(c: Str, cs: seq<Str>)
    requires SLASH !in c && Components(cs)
    ensures Split(c + Join(cs)) == [c] + cs
    decreases |cs|
  {
    SplitSlashFree(c);
    if cs == [] {
      assert c + [] == c;
    } else {
      var rest := cs[0] + Join(cs[1..]);
      SplitTail(cs[0], cs[1..]);
      SplitConcat(c, rest);
      assert c + Join(cs) == c + [SLASH] + rest;
      assert [cs[0]] + cs[1..] == cs;
    }
  }

  lemma {:induction false} SplitJoin(cs: seq<Str>)
    requires Components(cs)
    ensures Split(Join(cs)) == [[]] + cs
  {
    SplitTail([], cs);
    assert [] + Join(cs) == Join(cs);
  }

  lemma {:induction false} ResolveConcat(at: seq<Str>, xs: seq<Str>, ys: seq<Str>)
    ensures Resolve(at, xs + ys) == Resolve(Resolve(at, xs), ys)
    decreases |xs|
  {
    if xs == [] {
      assert [] + ys == ys;
    } else {
      ResolveConcat(Descend(at, xs[0]), xs[1..], ys);
      assert (xs + ys)[1..] == xs[1..] + ys;
    }
  }

  // Whatever the parts, resolving slash-free ones leaves ordinary components only.
  lemma {:induction false} ResolveComponents(at: seq<Str>, parts: seq<Str>)
    requires Components(at)
    requires forall i :: 0 <= i < |parts| ==> SLASH !in parts[i]
    ensures Components(Resolve(at, parts))
    decreases |parts|
  {
    if parts != [] {
      ResolveComponents(Descend(at, parts[0]), parts[1..]);
    }
  }

  lemma {:induction false} SplitPartsSlashFree(s: Str)
    ensures forall i :: 0 <= i < |Split(s)| ==> SLASH !in Split(s)[i]
  {
    if s != [] {
      SplitPartsSlashFree(s[1..]);
    }
  }

  lemma {:induction false} ResolveOrdinary(at: seq<Str>, cs: seq<Str>)
    requires Components(cs)
    ensures Resolve(at, cs) == at + cs
    decreases |cs|
  {
    if cs != [] {
      ResolveOrdinary(at + [cs[0]], cs[1..]);
      assert at + [cs[0]] + cs[1..] == at + cs;
    } 
  }

  lemma {:induction false} ResolveRendered(cs: seq<Str>)
    requires Components(cs)
    ensures Resolve([], Split(Render(cs))) == cs
  {
    if cs == [] {
      SplitConcat([], []);
      assert [] + [SLASH] + [] == ROOT;
      assert Split(ROOT) == [[], []];
      assert Resolve([], [[], []]) == Resolve([], [[]]) == [];
    } else {
      SplitJoin(cs);
      assert ([[]] + cs)[1..] == cs;
      ResolveOrdinary([], cs);
    }
  }

  // Clean always yields a canonical path, and the canonical paths are its fixed points.
  lemma {:induction false} CleanIsCanonical(p: Str)
    ensures Canonical(Clean(p))
    ensures Canonical(p) <==> Clean(p) == p
  {
    SplitPartsSlashFree(p);
    ResolveComponents([], Split(p));
    if Canonical(p) {
      var cs :| Components(cs) && p == Render(cs);
      ResolveRendered(cs);
    }
  }

  // A leading slash in front of a rooted path changes nothing, so canonicalising twice is harmless.
  lemma {:induction false} ExtraSlash(p: Str)
    ensures Canonicalise(p) == Clean(p)
  {
    SplitConcat([], p);
    assert [] + [SLASH] + p == [SLASH] + p;
    assert ([[]] + Split(p))[1..] == Split(p);
  }

  // Different component lists render differently: a canonical path names one object.
  lemma {:induction false} RenderInjective(cs: seq<Str>, ds: seq<Str>)
    requires Components(cs) && Components(ds)
    ensures Render(cs) == Render(ds) ==> cs == ds
  {
    ResolveRendered(cs);
    ResolveRendered(ds);
  }

  // ------------------------------------------------------------------ what cleaning does

  predicate Rooted(p: Str) {
    p != [] && p[0] == SLASH
  }

  // Before a slash: the empty string, for the root, or a rooted path.
  predicate Before(a: Str) {
    a == [] || Rooted(a)
  }

  lemma {:induction false} CleanIn(a: Str, part: Str, b: Str)
    requires SLASH !in part
    ensures Split(a + [SLASH] + part + [SLASH] + b) == Split(a) + [part] + Split(b)
  {
    SplitConcat(a + [SLASH] + part, b);
    SplitConcat(a, part);
    SplitSlashFree(part);
  }

  lemma {:induction false} ResolveThree(xs: seq<Str>, part: Str, ys: seq<Str>)
    ensures Resolve([], xs + [part] + ys) == Resolve(Descend(Resolve([], xs), part), ys)
  {
    ResolveConcat([], xs + [part], ys);
    ResolveConcat([], xs, [part]);
  }

  // Repeated slashes count as one, and "." as nothing, anywhere in a path.
  lemma {:induction false} CleanMiddle(a: Str, b: Str)
    requires Before(a)
    ensures Clean(a + [SLASH] + [SLASH] + b) == Clean(a + [SLASH] + b)
    ensures Clean(a + [SLASH] + [DOT] + [SLASH] + b) == Clean(a + [SLASH] + b)
  {
    assert a + [SLASH] + [] + [SLASH] + b == a + [SLASH] + [SLASH] + b;
    CleanIn(a, [], b);
    CleanIn(a, [DOT], b);
    SplitConcat(a, b);
    ResolveThree(Split(a), [], Split(b));
    ResolveThree(Split(a), [DOT], Split(b));
    ResolveConcat([], Split(a), Split(b));
  }

  // So do they at the end.
  lemma {:induction false} CleanEnd(p: Str, a: Str)
    requires Rooted(p) && Before(a)
    ensures Clean(p + [SLASH]) == Clean(p)
    ensures Clean(a + [SLASH] + [DOT]) == Clean(a + [SLASH])
  {
    TrailingSlash(p);
    assert a + [SLASH] + [] == a + [SLASH];
    SplitConcat(a, []);
    SplitSlashFree([]);
    SplitConcat(a, [DOT]);
    SplitSlashFree([DOT]);
    ResolveConcat([], Split(a), [[]]);
    ResolveConcat([], Split(a), [[DOT]]);
    hide Split;
    assert Resolve(Resolve([], Split(a)), [[]]) == Resolve(Resolve([], Split(a)), [[DOT]]);
  }

  // ".." takes away the component in front of it, and at the root nothing.
  lemma {:induction false} CleanParent(a: Str, c: Str, b: Str)
    requires Before(a) && Component(c)
    ensures Clean(a + [SLASH] + c + [SLASH] + PARENT + [SLASH] + b) == Clean(a + [SLASH] + b)
    ensures Clean(a + [SLASH] + c + [SLASH] + PARENT) == Clean(a + [SLASH])
    ensures Clean([SLASH] + PARENT + [SLASH] + b) == Clean([SLASH] + b)
    ensures Clean([SLASH] + PARENT) == Clean([SLASH])
  {
    ParentMiddle(a, c, b);
    ParentAtRoot(b);
    ParentEnd(a, c);
  }

  lemma {:induction false} ParentMiddle(a: Str, c: Str, b: Str)
    requires Component(c)
    ensures Clean(a + [SLASH] + c + [SLASH] + PARENT + [SLASH] + b) == Clean(a + [SLASH] + b)
  {
    CleanIn(a + [SLASH] + c, PARENT, b);
    SplitConcat(a, c);
    SplitSlashFree(c);
    SplitConcat(a, b);
    ResolveThree(Split(a) + [c], PARENT, Split(b));
    ResolveConcat([], Split(a), [c]);
    ResolveConcat([], Split(a), Split(b));
    var at := Resolve([], Split(a));
    assert Resolve(at, [c]) == at + [c];
    assert Descend(at + [c], PARENT) == at;
  }

  lemma {:induction false} ParentEnd(a: Str, c: Str)
    requires Component(c)
    ensures Clean(a + [SLASH] + c + [SLASH] + PARENT) == Clean(a + [SLASH])
    ensures Clean([SLASH] + PARENT) == Clean([SLASH])
  {
    ParentMiddle(a, c, []);
    ParentAtRoot([]);
    var p := a + [SLASH] + c + [SLASH] + PARENT;
    TrailingSlash(p);
    TrailingSlash([SLASH] + PARENT);
    assert p + [SLASH] + [] == p + [SLASH];
    assert a + [SLASH] + [] == a + [SLASH];
    assert [SLASH] + PARENT + [SLASH] + [] == [SLASH] + PARENT + [SLASH];
    assert [SLASH] + [] == [SLASH];
  }

  lemma {:induction false} TrailingSlash(p: Str)
    ensures Clean(p + [SLASH]) == Clean(p)
  {
    assert p + [SLASH] + [] == p + [SLASH];
    SplitConcat(p, []);
    SplitSlashFree([]);
    ResolveConcat([], Split(p), [[]]);
    assert Resolve(Resolve([], Split(p)), [[]]) == Resolve([], Split(p));
  }

  lemma {:induction false} ParentAtRoot(b: Str)
    ensures Clean([SLASH] + PARENT + [SLASH] + b) == Clean([SLASH] + b)
  {
    assert [] + [SLASH] + PARENT + [SLASH] + b == [SLASH] + PARENT + [SLASH] + b;
    assert [] + [SLASH] + b == [SLASH] + b;
    CleanIn([], PARENT, b);
    SplitConcat([], b);
    ResolveThree(Split([]), PARENT, Split(b));
    ResolveConcat([], Split([]), Split(b));
    assert Resolve([], [[]]) == [];
  }

  // ------------------------------------------------------------------ joining a name

  function ListedPath(dir: Str, name: Str): Str {
    Clean(dir + [SLASH] + name)
  }

  // dirp + "/" + name, cleaned: how both a looked-up and a listed name reach the table.
  lemma {:induction false} CleanJoined(cs: seq<Str>, name: Str)
    requires Components(cs) && SLASH !in name
    ensures Clean(Render(cs) + [SLASH] + name) == Render(Descend(cs, name))
  {
    SplitConcat(Render(cs), name);
    SplitSlashFree(name);
    ResolveConcat([], Split(Render(cs)), [name]);
    ResolveRendered(cs);
  }

  // ------------------------------------------------------------------ prefixes of strings

  // strings.HasPrefix(p, dir + "/")
  predicate Under(p: Str, dir: Str) {
    dir + [SLASH] <= p
  }

  // strings.Replace(s, from, to, 1): the first instance of a non-empty `from` is replaced.
  function ReplaceFirst(s: Str, from: Str, to: Str): Str
    requires from != []
  {
    if from <= s then to + s[|from|..]
    else if s == [] then []
    else [s[0]] + ReplaceFirst(s[1..], from, to)
  }

  // The path p of something under `old`, after old has become new.
  function Image(p: Str, old_: Str, new_: Str): Str
    requires |old_| <= |p|
  {
    new_ + p[|old_|..]
  }

  lemma {:induction false} JoinConcat(cs: seq<Str>, ds: seq<Str>)
    ensures Join(cs + ds) == Join(cs) + Join(ds)
  {
    if cs == [] {
      assert [] + ds == ds;
    } else {
      JoinConcat(cs[1..], ds);
      assert (cs + ds)[1..] == cs[1..] + ds;
    }
  }

  lemma {:induction false} NothingUnderRoot(ds: seq<Str>)
    requires Components(ds)
    ensures !Under(Render(ds), ROOT)
  {
    if ds != [] {
      assert Component(ds[0]);
      assert Render(ds)[1] == ds[0][0];
    }
  }

  // On canonical paths the textual prefix test is exactly strict descent in the tree,
  // except that nothing counts as being under the root.
  lemma {:induction false} PrefixIsDescent(ds: seq<Str>, cs: seq<Str>)
    requires Components(ds) && Components(cs)
    ensures Under(Render(ds), Render(cs)) <==> cs != [] && cs < ds
  {
    hide Render, Under;
    if Under(Render(ds), Render(cs)) { DescentOfPrefix(ds, cs); }
    if cs != [] && cs < ds { PrefixOfDescent(ds, cs); }
  }

  lemma {:induction false} DescentOfPrefix(ds: seq<Str>, cs: seq<Str>)
    requires Components(ds) && Components(cs) && Under(Render(ds), Render(cs))
    ensures cs != [] && cs < ds
  {
    hide Split;
    NothingUnderRoot(ds);
    var p, dir := Render(ds), Render(cs);
    var r := p[|dir| + 1..];
    assert p == dir + [SLASH] + r;
    SplitConcat(dir, r);
    SplitJoin(ds);
    SplitJoin(cs);
    assert [[]] + ds == [[]] + cs + Split(r);
    assert ds == ([[]] + ds)[1..] == cs + Split(r);
  }

  lemma {:induction false} PrefixOfDescent(ds: seq<Str>, cs: seq<Str>)
    requires Components(ds) && Components(cs) && cs != [] && cs < ds
    ensures Under(Render(ds), Render(cs))
  {
    var es := ds[|cs|..];
    assert ds == cs + es;
    JoinConcat(cs, es);
    assert Join(es)[0] == SLASH;
  }

  // What strings.Replace makes of a key under `old`: the same tail under `new`.
  lemma {:induction false} ReplaceIsImage(p: Str, old_: Str, new_: Str)
    requires Under(p, old_)
    ensures ReplaceFirst(p, old_ + [SLASH], new_ + [SLASH]) == Image(p, old_, new_)
    ensures Under(Image(p, old_, new_), new_)
  {
    var r := p[|old_| + 1..];
    assert p[|old_|..] == [SLASH] + r;
    assert new_ + [SLASH] + r == new_ + ([SLASH] + r);
  }

  lemma {:induction false} ImageOfDescendant(ds: seq<Str>, cs: seq<Str>, ns: seq<Str>)
    requires Components(ds) && Components(cs) && Components(ns)
    requires cs != [] && ns != [] && cs < ds
    ensures ReplaceFirst(Render(ds), Render(cs) + [SLASH], Render(ns) + [SLASH]) == Render(ns + ds[|cs|..])
  {
    PrefixIsDescent(ds, cs);
    ReplaceIsImage(Render(ds), Render(cs), Render(ns));
    var es := ds[|cs|..];
    assert ds == cs + es;
    JoinConcat(cs, es);
    JoinConcat(ns, es);
  }

  // ------------------------------------------------------------------ unrelated paths

  // Neither path is at or below the other.
  predicate Unrelated(p: Str, q: Str) {
    p != q && !Under(p, q) && !Under(q, p)
  }

  // Two paths with something in common below them are related.
  lemma {:induction false} SharedDescendant(q: Str, a: Str, b: Str)
    requires Under(q, a) || q == a
    requires Under(q, b) || q == b
    ensures !Unrelated(a, b)
  {
    assert a == q[..|a|] && b == q[..|b|];
    if |a| < |b| {
      assert a + [SLASH] <= b;
    } else if |b| < |a| {
      assert b + [SLASH] <= a;
    }
  }

  // So the subtrees of unrelated paths are disjoint.
  lemma {:induction false} UnrelatedSubtrees(q: Str, old_: Str, new_: Str)
    requires Unrelated(old_, new_)
    requires Under(q, old_) || q == old_
    ensures !Under(q, new_) && q != new_
  {
    if Under(q, new_) || q == new_ {
      SharedDescendant(q, old_, new_);
    }
  }

  // Moving a tail there and back is the identity, so images do not collide.
  lemma {:induction false} ImageInverse(q: Str, from: Str, to: Str)
    requires Under(q, from)
    ensures Under(Image(q, from, to), to)
    ensures Image(Image(q, from, to), to, from) == q
  {
    assert q[|from|..][0] == SLASH;
    assert Image(q, from, to)[|to|..] == q[|from|..];
    assert q == q[..|from|] + q[|from|..];
  }
}

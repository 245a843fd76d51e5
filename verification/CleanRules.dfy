// path.Clean by the rules its documentation gives, for rooted paths. Each is a law of Paths.Clean,
// and together they leave no choice: no other function keeps them.
module CleanRules {
  import opened Bytes
  import opened Paths

  // A function keeps this one of the rules, for these parts of a path.
  ghost predicate Middle(f: Str -> Str, a: Str, b: Str) {
    && f(a + [SLASH] + [SLASH] + b) == f(a + [SLASH] + b)
    && f(a + [SLASH] + [DOT] + [SLASH] + b) == f(a + [SLASH] + b)
  }

  ghost predicate End(f: Str -> Str, a: Str) {
    && (a != [] ==> f(a + [SLASH]) == f(a))
    && f(a + [SLASH] + [DOT]) == f(a + [SLASH])
  }

  ghost predicate Parent(f: Str -> Str, a: Str, c: Str, b: Str) {
    && f(a + [SLASH] + c + [SLASH] + PARENT + [SLASH] + b) == f(a + [SLASH] + b)
    && f(a + [SLASH] + c + [SLASH] + PARENT) == f(a + [SLASH])
  }

  ghost predicate ParentOfRoot(f: Str -> Str, b: Str) {
    && f([SLASH] + PARENT + [SLASH] + b) == f([SLASH] + b)
    && f([SLASH] + PARENT) == f([SLASH])
  }

  // A path with ordinary components only, and no trailing slash unless it is the root, is clean.
  ghost predicate Settled(f: Str -> Str, cs: seq<Str>) {
    f(Render(cs)) == Render(cs)
  }

  ghost predicate KeepsRules(f: Str -> Str) {
    && (forall a, b :: Before(a) ==> Middle(f, a, b))
    && (forall a :: Before(a) ==> End(f, a))
    && (forall a, c, b :: Before(a) && Component(c) ==> Parent(f, a, c, b))
    && (forall b :: ParentOfRoot(f, b))
    && (forall cs :: Components(cs) ==> Settled(f, cs))
  }

  lemma {:induction false} CleanKeepsRules()
    ensures KeepsRules(Clean)
  {
    forall a, b | Before(a)
      ensures Middle(Clean, a, b)
    {
      CleanMiddle(a, b);
    }
    forall a | Before(a)
      ensures End(Clean, a)
    {
      CleanEnd(if a == [] then ROOT else a, a);
    }
    forall a, c, b | Before(a) && Component(c)
      ensures Parent(Clean, a, c, b)
    {
      CleanParent(a, c, b);
    }
    forall b
      ensures ParentOfRoot(Clean, b)
    {
      CleanParent([], [97], b);
    }
    forall cs | Components(cs)
      ensures Settled(Clean, cs)
    {
      ResolveRendered(cs);
    }
  }

  lemma {:induction false} JoinBefore(cs: seq<Str>)
    ensures Before(Join(cs)) && (cs != [] ==> Join(cs) != [])
  {
  }

  lemma {:induction false} JoinLast(cs: seq<Str>)
    requires cs != []
    ensures Join(cs) == Join(cs[..|cs| - 1]) + [SLASH] + cs[|cs| - 1]
  {
    var front, last := cs[..|cs| - 1], cs[|cs| - 1];
    assert cs == front + [last];
    JoinConcat(front, [last]);
    assert Join([last]) == [SLASH] + last;
  }

  // What comes after the slash of a non-empty Join.
  function Rest(parts: seq<Str>): Str
    requires parts != []
  {
    parts[0] + Join(parts[1..])
  }

  // The components kept so far, and elements still to be dealt with.
  lemma {:induction false} OnlyResult(f: Str -> Str, cs: seq<Str>, parts: seq<Str>)
    requires KeepsRules(f) && Components(cs) && (cs != [] || parts != [])
    requires forall i :: 0 <= i < |parts| ==> SLASH !in parts[i]
    ensures f(Join(cs) + Join(parts)) == Render(Resolve(cs, parts))
    decreases |parts|, 0
  {
    var a := Join(cs);
    JoinBefore(cs);
    if parts == [] {
      assert a + [] == a;
      assert Settled(f, cs);
    } else {
      var x, rest := parts[0], parts[1..];
      Prefixed(a, parts);
      hide KeepsRules, Join, Render;
      if x == PARENT {
        OnlyParent(f, cs, rest);
      } else if x == [] || x == SELF {
        OnlyNothing(f, cs, x, rest);
      } else {
        JoinLast(cs + [x]);
        assert (cs + [x])[..|cs|] == cs;
        assert Components(cs + [x]);
        OnlyResult(f, cs + [x], rest);
      }
    }
  }

  lemma {:induction false} Prefixed(a: Str, parts: seq<Str>)
    requires parts != []
    ensures a + Join(parts) == a + [SLASH] + parts[0] + Join(parts[1..])
  {
    assert Join(parts) == [SLASH] + parts[0] + Join(parts[1..]);
  }

  // A path that ends in a slash.
  lemma {:induction false} OnlyEnd(f: Str -> Str, cs: seq<Str>)
    requires KeepsRules(f) && Components(cs)
    ensures f(Join(cs) + [SLASH]) == Render(cs) && f(Join(cs) + [SLASH] + [DOT]) == Render(cs)
  {
    JoinBefore(cs);
    assert End(f, Join(cs)) && Settled(f, cs);
    hide KeepsRules;
    assert cs == [] ==> Join(cs) + [SLASH] == ROOT;
  }

  lemma {:induction false} RestFollows(parts: seq<Str>)
    requires parts != []
    ensures Join(parts) == [SLASH] + Rest(parts)
  {
  }

  lemma {:induction false} Regroup(p: Str, more: Str, b: Str)
    requires more == [SLASH] + b
    ensures p + more == p + [SLASH] + b
  {
  }

  lemma {:induction false} OnlyNothing(f: Str -> Str, cs: seq<Str>, x: Str, rest: seq<Str>)
    requires KeepsRules(f) && Components(cs) && (x == [] || x == SELF)
    requires forall i :: 0 <= i < |rest| ==> SLASH !in rest[i]
    ensures f(Join(cs) + [SLASH] + x + Join(rest)) == Render(Resolve(cs, rest))
    decreases |rest|, 1
  {
    var a := Join(cs);
    if rest == [] {
      OnlyEnd(f, cs);
      hide KeepsRules;
      assert a + [SLASH] + x + Join(rest) == a + [SLASH] + x;
      assert a + [SLASH] + [] == a + [SLASH];
    } else {
      var b := Rest(rest);
      JoinBefore(cs);
      assert Middle(f, a, b);
      hide KeepsRules, Rest, Join, Render, Resolve;
      OnlyResult(f, cs, rest);
      RestFollows(rest);
      Regroup(a + [SLASH] + x, Join(rest), b);
      Regroup(a, Join(rest), b);
      assert a + [SLASH] + [] == a + [SLASH];
    }
  }

  lemma {:induction false} ParentStep(f: Str -> Str, cs: seq<Str>, b: Str)
    requires KeepsRules(f) && Components(cs)
    ensures var p, a := Join(cs) + [SLASH] + PARENT, Join(Descend(cs, PARENT));
            f(p + [SLASH] + b) == f(a + [SLASH] + b) && f(p) == f(a + [SLASH])
  {
    var p := Join(cs) + [SLASH] + PARENT;
    if cs == [] {
      assert ParentOfRoot(f, b);
      hide KeepsRules;
      assert p == [SLASH] + PARENT;
      assert [] + [SLASH] + b == [SLASH] + b && [] + [SLASH] == [SLASH];
    } else {
      var up := cs[..|cs| - 1];
      JoinBefore(up);
      assert Parent(f, Join(up), cs[|cs| - 1], b);
      hide KeepsRules;
      JoinLast(cs);
    }
  }

  lemma {:induction false} OnlyParent(f: Str -> Str, cs: seq<Str>, rest: seq<Str>)
    requires KeepsRules(f) && Components(cs)
    requires forall i :: 0 <= i < |rest| ==> SLASH !in rest[i]
    ensures f(Join(cs) + [SLASH] + PARENT + Join(rest)) == Render(Resolve(Descend(cs, PARENT), rest))
    decreases |rest|, 1
  {
    hide KeepsRules, Rest, Render;
    var up := Descend(cs, PARENT);
    assert Components(up);
    var p, a := Join(cs) + [SLASH] + PARENT, Join(up);
    if rest == [] {
      ParentStep(f, cs, []);
      OnlyEnd(f, up);
      assert p + Join(rest) == p;
    } else {
      hide Join, Resolve, Descend;
      var b := Rest(rest);
      ParentStep(f, cs, b);
      RestFollows(rest);
      OnlyResult(f, up, rest);
      Regroup(p, Join(rest), b);
      Regroup(a, Join(rest), b);
    }
  }

  lemma {:induction false} JoinSplit(s: Str)
    ensures Join(Split(s)) == [SLASH] + s
  {
    if s == [] {
      assert Join([[]]) == [SLASH] + [] + Join([]);
    } else {
      JoinSplit(s[1..]);
      var parts := Split(s[1..]);
      assert [s[0]] + s[1..] == s;
      hide Split;
      if s[0] == SLASH {
        var all := [[]] + parts;
        assert all[1..] == parts;
        assert Join(all) == [SLASH] + [] + Join(parts);
      } else {
        var all := [[s[0]] + parts[0]] + parts[1..];
        assert all[1..] == parts[1..];
        assert Join(all) == [SLASH] + ([s[0]] + parts[0]) + Join(parts[1..]);
        assert Join(parts) == [SLASH] + parts[0] + Join(parts[1..]);
        assert parts[0] + Join(parts[1..]) == Join(parts)[1..] == s[1..];
      }
    }
  }

  // So a function that keeps the rules is path.Clean.
  lemma {:induction false} OnlyClean(f: Str -> Str, p: Str)
    requires KeepsRules(f) && Rooted(p)
    ensures f(p) == Clean(p)
  {
    var s := p[1..];
    hide KeepsRules;
    JoinSplit(s);
    SplitPartsSlashFree(s);
    OnlyResult(f, [], Split(s));
    assert Join([]) + Join(Split(s)) == p;
    assert Split(p) == [[]] + Split(s);
    assert ([[]] + Split(s))[1..] == Split(s);
  }
}

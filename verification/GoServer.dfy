// The exported Go functions that touch the tree or the table, over a back end that may fail
// at will. Each is shown to be one step of Server.
module GoServers {
  import opened Bytes
  import opened Paths
  import opened Status
  import opened HandleTable
  import opened Namespace
  import opened Server
  import opened FdCaches

  // A back end that meets the contract: it checks what it must and then succeeds or not. One that
  // is reliable refuses nothing without cause.
  class Backend {
    const reliable: bool
    var tree: Tree
    var next: nat

    ghost predicate Valid()
      reads this
    {
      WellFormed(tree, next)
    }

    constructor (reliable: bool)
      ensures Valid() && this.reliable == reliable
    {
      this.reliable := reliable;
      tree, next := map[ROOT := Obj(0, true)], 1;
      assert Canonical(ROOT) by { assert Components([]) && Render([]) == ROOT; }
    }

    // What it may hold against an operation that is in order.
    method Whim() returns (err: Option<GoError>)
      ensures reliable ==> err == None
    {
      err := *;
      if reliable {
        err := None;
      }
    }

    method Stat(p: Str) returns (obj: Option<Obj>, err: Option<GoError>)
      ensures err == None ==> p in tree && obj == Some(tree[p])
      ensures reliable ==> (err == None <==> p in tree)
      ensures reliable && p !in tree ==> err == Some(NotExist)
    {
      err := Whim();
      obj := if p in tree then Some(tree[p]) else None;
      if p !in tree && err == None {
        err := Some(NotExist);
      }
    }

    predicate CanPlace(p: Str)
      reads this
      ensures CanPlace(p) <==> Placeable(tree, p)
    {
      CleanIsCanonical(p);
      Clean(p) == p && p != ROOT && forall q :: q in tree && Under(p, q) ==> tree[q].isDir
    }

    method Create(p: Str, isDir: bool) returns (err: Option<GoError>)
      requires Valid()
      modifies this
      ensures Valid()
      ensures err == None ==> Created(old(tree), old(next), tree, p, isDir) && next == old(next) + 1
      ensures err != None ==> tree == old(tree) && next == old(next)
      ensures reliable ==> (err == None <==> Vacant(old(tree), p))
      ensures reliable && p in old(tree) ==> err == Some(Exist)
    {
      err := Whim();
      if err == None {
        if p in tree || !CanPlace(p) || exists q :: q in tree && Under(q, p) {
          err := Some(Exist);
        } else {
          CreatedKeeps(tree, next, tree[p := Obj(next, isDir)], p, isDir);
          tree, next := tree[p := Obj(next, isDir)], next + 1;
        }
      }
    }

    method Remove(p: Str) returns (err: Option<GoError>)
      requires Valid()
      modifies this
      ensures Valid() && next == old(next)
      ensures err == None ==> Removed(old(tree), tree, p)
      ensures err != None ==> tree == old(tree)
      ensures reliable ==> (err == None <==> Removable(old(tree), p))
      ensures reliable && p in old(tree) && err != None ==> err == Some(Other("directory not empty"))
    {
      err := Whim();
      if err == None {
        if p !in tree {
          err := Some(NotExist);
        } else if p == ROOT || exists q :: q in tree && Under(q, p) {
          err := Some(Other("directory not empty"));
        } else {
          RemovedKeeps(tree, next, tree - {p}, p);
          tree := tree - {p};
        }
      }
    }

    method Move(op: Str, np: Str) returns (err: Option<GoError>)
      requires Valid()
      modifies this
      ensures Valid() && next == old(next)
      ensures err == None ==> Moved(old(tree), tree, op, np)
      ensures err != None ==> tree == old(tree)
      ensures reliable ==> (err == None <==> Movable(old(tree), op, np))
    {
      err := Whim();
      if err == None && op != np {
        if op !in tree {
          err := Some(NotExist);
        } else if !Apart(op, np) || !CanPlace(np) {
          err := Some(Invalid);
        } else {
          ghost var was := tree;
          TransplantIsTransplanted(tree, op, np);
          tree := Transplant(tree, op, np);
          MovedKeeps(was, next, tree, op, np);
        }
      } else if op !in tree && err == None {
        err := Some(NotExist);
      }
    }
  }

  // What ns.ReadDirectory returns.
  ghost predicate ReadDirectoryAnswers(ns: Tree, dir: Str, reliable: bool, arr: seq<Str>, err: Option<GoError>) {
    && (err == None ==> IsDirectory(ns, dir) && Lists(ns, dir, arr))
    && (reliable ==> (err == None <==> IsDirectory(ns, dir)))
  }

  // What Move leaves behind: everything outside both subtrees, and the images of the old one.
  function Transplant(ns: Tree, op: Str, np: Str): Tree {
    var images := set p | p in ns && AtOrUnder(p, op) :: Image(p, op, np);
    map q | q in ns.Keys + images && (q in images || (!AtOrUnder(q, op) && !AtOrUnder(q, np))) ::
      var o := Origin(q, op, np);
      if o in ns then ns[o] else Obj(0, false)
  }

  lemma {:induction false} TransplantIsTransplanted(ns: Tree, op: Str, np: Str)
    requires Unrelated(op, np)
    ensures Transplanted(ns, Transplant(ns, op, np), op, np)
  {
    var images, ns' := set p | p in ns && AtOrUnder(p, op) :: Image(p, op, np), Transplant(ns, op, np);
    forall q
      ensures AtOrUnder(q, np) ==> (q in images <==> Image(q, np, op) in ns)
      ensures AtOrUnder(q, op) ==> !AtOrUnder(q, np)
      ensures q in images ==> AtOrUnder(q, np)
    {
      if AtOrUnder(q, np) { ImageRoundTrip(q, np, op); }
      if AtOrUnder(q, op) { UnrelatedSubtrees(q, op, np); }
      if q in images {
        var p :| p in ns && AtOrUnder(p, op) && q == Image(p, op, np);
        ImageRoundTrip(p, op, np);
      }
    }
  }

  lemma {:induction false} RenamedStep(s: State, s': State, from: Str, to: Str)
    requires Good(s) && Canonicalise(from) in s.ns && s'.next == s.next
    requires Moved(s.ns, s'.ns, Canonicalise(from), Canonicalise(to))
    requires Replaced(s.t, s'.t, Canonicalise(from), Canonicalise(to), s.ns[Canonicalise(from)].isDir)
    ensures Renames(s, s', from, to)
    ensures Step(s, Rename(from, to), s') && Good(s') && s'.t.counter == s.t.counter
  {
    StepKeepsGood(s, Rename(from, to), s');
    ReplacedKeeps(s.t, s'.t, Canonicalise(from), Canonicalise(to), s.ns[Canonicalise(from)].isDir);
  }

  lemma {:induction false} GoodTable(s: State)
    requires Good(s)
    ensures Inv(s.t) && WellFormed(s.ns, s.next)
  {
  }

  // A call that fails is a step too.
  lemma {:induction false} FailedStep(s: State, call: Call)
    ensures Step(s, call, s)
  {
  }

  lemma {:induction false} OverwritingIs(s: State, middle: Tree, s': State, p: Str)
    requires middle == s.ns || (Removed(s.ns, middle, p) && !s.ns[p].isDir)
    requires || (s'.ns == middle && s'.next == s.next)
             || (Created(middle, s.next, s'.ns, p, false) && s'.next == s.next + 1)
    ensures Overwritten(s, middle, s', p)
    ensures Created(middle, s.next, s'.ns, p, false) ==>
              && p in s'.ns && s'.ns[p] == Obj(s.next, false)
              && (p in s.ns ==> !s.ns[p].isDir)
              && s'.ns == s.ns[p := s'.ns[p]]
  {
  }

  // Once there is room a reliable back end creates exactly where CREATE may write.
  lemma {:induction false} RoomMade(ns: Tree, next: nat, middle: Tree, p: Str)
    requires WellFormed(ns, next)
    requires if p in ns then Removed(ns, middle, p) && !ns[p].isDir else middle == ns
    ensures Vacant(middle, p) <==> Writable(ns, p)
  {
    if p in ns { assert Placeable(middle, p); }
  }

  lemma {:induction false} OverwrittenStep(s: State, middle: Tree, s': State, pathname: Str)
    requires Good(s) && s'.t == s.t
    requires Overwritten(s, middle, s', Canonicalise(pathname))
    ensures Step(s, CreateOver(pathname), s') && Good(s')
  {
    StepKeepsGood(s, CreateOver(pathname), s');
  }

  // Nothing is below a plain file.
  lemma {:induction false} FileRemovable(s: State, p: Str)
    requires Good(s)
    ensures p in s.ns && !s.ns[p].isDir ==> Removable(s.ns, p)
  {
  }

  class GoServer {
    const ns: Backend
    const fddb: FdCache

    ghost predicate Valid()
      reads this, ns, fddb
    {
      Good(Value())
    }

    ghost function Value(): State
      reads this, ns, fddb
    {
      State(ns.tree, ns.next, fddb.Value())
    }

    constructor (reliable: bool)
      ensures Valid() && fresh(ns) && fresh(fddb) && Initial(Value()) && ns.reliable == reliable
    {
      ns := new Backend(reliable);
      fddb := new FdCache();
    }

    // st_ino is the id of the path in the table.
    method GoLstat(path: Str) returns (status: int, ino: int)
      requires Valid()
      modifies fddb
      ensures 0 <= status <= NFS3ERR_NOTEMPTY
      ensures Valid() && Step(old(Value()), Lstat(path), Value())
      ensures var pp := Canonicalise(path);
              status == NFS3_OK ==> pp in ns.tree && pp in fddb.pathMapA && fddb.pathMapA[pp] == ino
      ensures status != NFS3_OK ==> Value() == old(Value())
      ensures ns.reliable ==> status == if Canonicalise(path) in ns.tree then 0 else 2
      ensures fddb.fdCounter <= old(fddb.fdCounter) + 1
    {
      ghost var before := Value();
      var pp := Canonicalise(path);
      var _, err := ns.Stat(pp);
      status, ino := ErrTranslator(err).0, 0;
      if err == None {
        ino := fddb.GetFD(pp);
        assert Value() == before.(t := Tracked(before.t, pp));
      }
      StepKeepsGood(before, Lstat(path), Value());
    }

    method GoRename(oldpath: Str, newpath: Str) returns (status: int)
      requires Valid()
      modifies ns, fddb
      ensures 0 <= status <= NFS3ERR_NOTEMPTY
      ensures Valid() && Step(old(Value()), Rename(oldpath, newpath), Value())
      ensures status == NFS3_OK ==> Renames(old(Value()), Value(), oldpath, newpath)
      ensures status != NFS3_OK ==> Value() == old(Value())
      ensures ns.reliable ==>
                (status == NFS3_OK <==> Movable(old(ns.tree), Canonicalise(oldpath), Canonicalise(newpath)))
      ensures ns.reliable && Canonicalise(oldpath) !in old(ns.tree) ==> status == 2
      ensures fddb.fdCounter == old(fddb.fdCounter)
    {
      ghost var before := Value();
      GoodTable(before);
      hide Canonicalise, Good, Inv, Step, Moved, Replaced, Renames, WellFormed, Unrelated;
      FailedStep(before, Rename(oldpath, newpath));
      var op := Canonicalise(oldpath);
      var np := Canonicalise(newpath);
      var fi, err := ns.Stat(op);
      if err != None {
        return ErrTranslator(err).0;
      }
      err := ns.Move(op, np);
      if err != None {
        return ErrTranslator(err).0;
      }
      fddb.ReplacePath(op, np, fi.value.isDir);
      RenamedStep(before, Value(), oldpath, newpath);
      return NFS3_OK;
    }

    method GoCreate(pathname: Str) returns (status: int)
      requires Valid()
      modifies ns
      ensures 0 <= status <= NFS3ERR_NOTEMPTY
      ensures Valid() && Step(old(Value()), Create(pathname, false), Value())
      ensures status == NFS3_OK ==> Created(old(ns.tree), old(ns.next), ns.tree, Canonicalise(pathname), false)
      ensures ns.reliable ==> (status == NFS3_OK <==> Vacant(old(ns.tree), Canonicalise(pathname)))
      ensures Canonicalise(pathname) in old(ns.tree) ==> Value() == old(Value()) && (ns.reliable ==> status == 17)
    {
      ghost var before := Value();
      var pp := Canonicalise(pathname);
      var err := ns.Create(pp, false);
      if err != None {
        return ErrTranslator(err).0;
      }
      // SetAttribute of the mode: it may fail and changes neither the tree nor the table.
      err := ns.Whim();
      StepKeepsGood(before, Create(pathname, false), Value());
      return ErrTranslator(err).0;
    }

    method GoMkdir(path: Str) returns (status: int)
      requires Valid()
      modifies ns
      ensures 0 <= status <= NFS3ERR_NOTEMPTY
      ensures Valid() && Step(old(Value()), Create(path, true), Value())
      ensures status == NFS3_OK <==> Value() != old(Value())
      ensures status == NFS3_OK ==> Created(old(ns.tree), old(ns.next), ns.tree, Canonicalise(path), true)
      ensures ns.reliable ==> (status == NFS3_OK <==> Vacant(old(ns.tree), Canonicalise(path)))
      ensures ns.reliable && Canonicalise(path) in old(ns.tree) ==> status == 17
    {
      ghost var before := Value();
      var err := ns.Create(Canonicalise(path), true);
      StepKeepsGood(before, Create(path, true), Value());
      return ErrTranslator(err).0;
    }

    // The first half of go_createover: an existing plain file is removed.
    method MakeRoom(pp: Str) returns (status: int)
      requires Valid()
      modifies ns
      ensures 0 <= status <= NFS3ERR_NOTEMPTY
      ensures Valid() && ns.next == old(ns.next)
      ensures ns.tree == old(ns.tree) || (Removed(old(ns.tree), ns.tree, pp) && !old(ns.tree)[pp].isDir)
      ensures status != NFS3_OK ==> ns.tree == old(ns.tree)
      ensures pp !in old(ns.tree) ==> status == NFS3_OK && ns.tree == old(ns.tree)
      ensures ns.reliable && pp in old(ns.tree) ==>
                if old(ns.tree)[pp].isDir then status == NFS3ERR_ISDIR
                else status == NFS3_OK && Removed(old(ns.tree), ns.tree, pp)
    {
      assert pp in ns.tree && !ns.tree[pp].isDir ==> Removable(ns.tree, pp);
      var fi, err := ns.Stat(pp);
      if err != None {
        return NFS3_OK;
      }
      if fi.value.isDir {
        return NFS3ERR_ISDIR;
      }
      err := ns.Remove(pp);
      return ErrTranslator(err).0;
    }

    method GoCreateOver(pathname: Str) returns (status: int)
      requires Valid()
      modifies ns
      ensures 0 <= status <= NFS3ERR_NOTEMPTY
      ensures Valid() && Step(old(Value()), CreateOver(pathname), Value())
      ensures var pp := Canonicalise(pathname);
              status == NFS3_OK ==>
                && pp in ns.tree && ns.tree[pp] == Obj(old(ns.next), false)
                && (pp in old(ns.tree) ==> !old(ns.tree)[pp].isDir)
                && ns.tree == old(ns.tree)[pp := ns.tree[pp]]
      ensures ns.reliable ==> (status == NFS3_OK <==> Writable(old(ns.tree), Canonicalise(pathname)))
      ensures var pp := Canonicalise(pathname);
              ns.reliable && pp in old(ns.tree) && old(ns.tree)[pp].isDir ==> status == 21
    {
      ghost var before := Value();
      var pp := Canonicalise(pathname);
      GoodTable(before);
      hide Canonicalise, Good, Step, Overwritten, KeysCanonical;
      FailedStep(before, CreateOver(pathname));
      status := MakeRoom(pp);
      if status != NFS3_OK {
        return;
      }
      ghost var middle := ns.tree;
      GoodTable(Value());
      if ns.reliable { RoomMade(before.ns, before.next, middle, pp); }
      hide WellFormed, Vacant, Created, Removed;
      var err := ns.Create(pp, false);
      OverwritingIs(before, middle, Value(), pp);
      OverwrittenStep(before, middle, Value(), pathname);
      if err == None {
        // SetAttribute of the mode.
        err := ns.Whim();
      }
      status := ErrTranslator(err).0;
    }

    method GoRemove(path: Str) returns (status: int)
      requires Valid()
      modifies ns
      ensures 0 <= status <= NFS3ERR_NOTEMPTY
      ensures Valid() && Step(old(Value()), Server.Remove(path), Value())
      ensures var pp := Canonicalise(path);
              if status == NFS3_OK then Removed(old(ns.tree), ns.tree, pp) && !old(ns.tree)[pp].isDir
              else Value() == old(Value())
      ensures var pp := Canonicalise(path);
              ns.reliable ==>
                status == if pp !in old(ns.tree) then 2 else if old(ns.tree)[pp].isDir then 21 else 0
    {
      FileRemovable(Value(), Canonicalise(path));
      ghost var before := Value();
      var pp := Canonicalise(path);
      var st, err := ns.Stat(pp);
      if err != None {
        return ErrTranslator(err).0;
      }
      if st.value.isDir {
        return NFS3ERR_ISDIR;
      }
      err := ns.Remove(pp);
      StepKeepsGood(before, Server.Remove(path), Value());
      return ErrTranslator(err).0;
    }

    method GoRmdir(path: Str) returns (status: int)
      requires Valid()
      modifies ns
      ensures 0 <= status <= NFS3ERR_NOTEMPTY
      ensures Valid() && Step(old(Value()), Server.Remove(path), Value())
      ensures var pp := Canonicalise(path);
              if status == NFS3_OK then Removed(old(ns.tree), ns.tree, pp) && old(ns.tree)[pp].isDir
              else Value() == old(Value())
      ensures var pp := Canonicalise(path);
              ns.reliable ==>
                status == if pp !in old(ns.tree) then 2 else if !old(ns.tree)[pp].isDir then 20
                          else if Removable(old(ns.tree), pp) then 0 else 66
    {
      NotEmptyRecognised();
      ghost var before := Value();
      var pp := Canonicalise(path);
      var st, err := ns.Stat(pp);
      if err != None {
        return ErrTranslator(err).0;
      }
      if !st.value.isDir {
        return NFS3ERR_NOTDIR;
      }
      err := ns.Remove(pp);
      StepKeepsGood(before, Server.Remove(path), Value());
      return ErrTranslator(err).0;
    }
  }
}

// The object that holds the table: every method takes fdCache's lock, so seen from outside
// each one is a single step of HandleTable.
module FdCaches {
  import opened Bytes
  import opened Paths
  import opened HandleTable

  class FdCache {
    var pathMapA: map<Str, int>
    var pathMapB: map<int, Str>
    var fdCounter: int

    ghost function Value(): Table
      reads this
    {
      Table(pathMapA, pathMapB, fdCounter)
    }

    constructor ()
      ensures Value() == EMPTY && Inv(Value()) && Inverse(Value())
    {
      pathMapA, pathMapB, fdCounter := map[], map[], FIRST;
    }

    method GetPath(fd: int) returns (r: Option<Str>)
      ensures r == Resolved(Value(), fd)
    {
      if fd < 100 {
        return None;
      }
      if fd in pathMapB {
        return Some(pathMapB[fd]);
      }
      return None;
    }

    // Both steps of GetFD with no other thread in between.
    method GetFD(path: Str) returns (id: int)
      requires Inv(Value())
      modifies this
      ensures Inv(Value())
      ensures Value() == Tracked(old(Value()), path)
      ensures path in pathMapA && pathMapA[path] == id
      ensures path !in old(pathMapA) ==> id > old(fdCounter)
    {
      if path in pathMapA {
        return pathMapA[path];
      }
      IssueKeeps(Value(), path);
      fdCounter := fdCounter + 1;
      id := fdCounter;
      pathMapA := pathMapA[path := id];
      pathMapB := pathMapB[id := path];
    }

    method ReplacePath(oldpath: Str, newpath: Str, isdir: bool)
      requires Inv(Value())
      modifies this
      ensures Inv(Value())
      ensures Replaced(old(Value()), Value(), oldpath, newpath, isdir)
    {
      ghost var before := Value();
      var fd := if oldpath in pathMapA then pathMapA[oldpath] else 0;
      pathMapA := pathMapA - {oldpath};
      pathMapB := pathMapB - {fd};
      pathMapA := pathMapA[newpath := fd];
      pathMapB := pathMapB[fd := newpath];
      assert Value() == Rekey(before, oldpath, newpath);
      if isdir {
        RangeOver(oldpath, newpath);
      }
      ReplacedKeeps(before, Value(), oldpath, newpath, isdir);
    }

    // The loop of ReplacePath. Every key that was there is produced; of those inserted meanwhile,
    // any may be, or be skipped; `more` is how many are. Whether that has to be a finite number at
    // all is HandleTable.RenameEndsExactly.
    method RangeOver(oldpath: Str, newpath: Str)
      modifies this
      ensures exists run :: CompleteRun(run, old(Value()), Value(), oldpath, newpath)
    {
      ghost var start := Value();
      var pending, born := pathMapA.Keys, {};
      var more: nat := *;
      ghost var run := [Range(start, pending, born)];
      while true
        invariant RangeRun(run, oldpath, newpath) && run[0] == Range(start, start.a.Keys, {})
        invariant run[|run| - 1] == Range(Value(), pending, born)
        invariant pending <= pathMapA.Keys
        decreases pending, more
      {
        var choices := if more == 0 then pending else pending + born * pathMapA.Keys;
        if pending == {} {
          var skip: bool := *;
          if skip || choices == {} {
            break;
          }
        }
        var path :| path in choices;
        if path !in pending {
          more := more - 1;
        }
        ghost var s := Range(Value(), pending, born);
        pending, born := Produce(path, pending, born, oldpath, newpath);
        ghost var s' := Range(Value(), pending, born);
        assert RangeStep(s, s', oldpath, newpath);
        run := run + [s'];
      }
      assert CompleteRun(run, start, Value(), oldpath, newpath);
    }

    // One iteration, with the bookkeeping of what the iteration may still produce.
    method Produce(path: Str, pending: set<Str>, born: set<Str>, oldpath: Str, newpath: Str)
      returns (pending': set<Str>, born': set<Str>)
      requires path in pathMapA && pending <= pathMapA.Keys
      modifies this
      ensures pending' == pending - {path} && pending' <= pathMapA.Keys
      ensures Range(Value(), pending', born') == Next(Range(old(Value()), pending, born), path, oldpath, newpath)
    {
      var op, np := oldpath + [SLASH], newpath + [SLASH];
      var keys := pathMapA.Keys;
      if op <= path {
        var fh := pathMapA[path];
        pathMapA := pathMapA - {path};
        pathMapB := pathMapB - {fh};
        keys := pathMapA.Keys;
        assert keys == old(pathMapA).Keys - {path};
        var image := ReplaceFirst(path, op, np);
        pathMapA := pathMapA[image := fh];
        pathMapB := pathMapB[fh := image];
      }
      pending', born' := pending - {path}, (born - {path}) + (pathMapA.Keys - keys);
    }
  }
}

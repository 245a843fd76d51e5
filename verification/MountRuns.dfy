// What the mount list should hold, said twice: request by request, and looking forward from each
// mount to whether anything removes it later.
module MountRuns {
  import opened Bytes

  datatype Mount = Mount(host: Str, dir: Str)

  datatype Request =
    | Mnt(mount: Mount, granted: bool)
    | Umnt(host: Str, dir: Str)
    | UmntAll(host: Str)

  // strcmp of the host, and of the path unless it is NULL.
  predicate Matches(m: Mount, host: Str, path: Option<Str>) {
    m.host == host && (path.None? || m.dir == path.value)
  }

  function Without(ms: seq<Mount>, host: Str, path: Option<Str>): seq<Mount> {
    if ms == [] then []
    else
      var front, last := Without(ms[..|ms| - 1], host, path), ms[|ms| - 1];
      if Matches(last, host, path) then front else front + [last]
  }

  function Apply(ms: seq<Mount>, r: Request): seq<Mount> {
    match r
    case Mnt(m, granted) => if granted then ms + [m] else ms
    case Umnt(host, dir) => Without(ms, host, Some(dir))
    case UmntAll(host) => Without(ms, host, None)
  }

  // The list after a sequence of requests.
  function After(ms: seq<Mount>, rs: seq<Request>): seq<Mount>
    decreases |rs|
  {
    if rs == [] then ms else After(Apply(ms, rs[0]), rs[1..])
  }

  predicate Removes(r: Request, m: Mount) {
    match r
    case Mnt(_, _) => false
    case Umnt(host, dir) => m.host == host && m.dir == dir
    case UmntAll(host) => m.host == host
  }

  predicate RemovedBy(rs: seq<Request>, m: Mount) {
    exists i :: 0 <= i < |rs| && Removes(rs[i], m)
  }

  // The granted mounts that no later request removes, in the order they were granted.
  function Survivors(rs: seq<Request>): seq<Mount> {
    if rs == [] then []
    else
      var rest := Survivors(rs[1..]);
      if rs[0].Mnt? && rs[0].granted && !RemovedBy(rs[1..], rs[0].mount) then [rs[0].mount] + rest else rest
  }

  // What is left of mounts that were there before.
  function Kept(ms: seq<Mount>, rs: seq<Request>): seq<Mount>
    decreases |ms|
  {
    if ms == [] then []
    else
      var front, last := Kept(ms[..|ms| - 1], rs), ms[|ms| - 1];
      if RemovedBy(rs, last) then front else front + [last]
  }

  lemma {:induction false} RemovedByFirst(rs: seq<Request>, m: Mount)
    requires rs != []
    ensures RemovedBy(rs, m) <==> Removes(rs[0], m) || RemovedBy(rs[1..], m)
  {
    if RemovedBy(rs, m) && !Removes(rs[0], m) {
      var i :| 0 <= i < |rs| && Removes(rs[i], m);
      assert Removes(rs[1..][i - 1], m);
    }
    if RemovedBy(rs[1..], m) {
      var i :| 0 <= i < |rs[1..]| && Removes(rs[1..][i], m);
      assert Removes(rs[i + 1], m);
    }
  }

  lemma {:induction false} KeptNothing(ms: seq<Mount>)
    ensures Kept(ms, []) == ms
    decreases |ms|
  {
    if ms != [] { KeptNothing(ms[..|ms| - 1]); }
  }

  lemma {:induction false} KeptMore(ms: seq<Mount>, m: Mount, rs: seq<Request>)
    ensures Kept(ms + [m], rs) == Kept(ms, rs) + if RemovedBy(rs, m) then [] else [m]
  {
    assert (ms + [m])[..|ms|] == ms;
  }

  // One request first: a mount adds itself, an unmount takes its matches.
  lemma {:induction false} KeptAfter(ms: seq<Mount>, rs: seq<Request>)
    requires rs != []
    ensures Kept(ms, rs) == if rs[0].Mnt? then Kept(ms, rs[1..]) else Kept(Apply(ms, rs[0]), rs[1..])
    decreases |ms|
  {
    if ms != [] {
      var front, last := ms[..|ms| - 1], ms[|ms| - 1];
      KeptAfter(front, rs);
      RemovedByFirst(rs, last);
      if !rs[0].Mnt? && !Removes(rs[0], last) {
        KeptMore(Apply(front, rs[0]), last, rs[1..]);
      }
    }
  }

  lemma {:induction false} AfterIs(ms: seq<Mount>, rs: seq<Request>)
    ensures After(ms, rs) == Kept(ms, rs) + Survivors(rs)
    decreases |rs|
  {
    if rs == [] {
      KeptNothing(ms);
    } else {
      AfterIs(Apply(ms, rs[0]), rs[1..]);
      FirstRequest(ms, rs);
    }
  }

  // Kept and Survivors change together over one request.
  lemma {:induction false} FirstRequest(ms: seq<Mount>, rs: seq<Request>)
    requires rs != []
    ensures Kept(ms, rs) + Survivors(rs) == Kept(Apply(ms, rs[0]), rs[1..]) + Survivors(rs[1..])
  {
    var r, rest := rs[0], rs[1..];
    KeptAfter(ms, rs);
    if r.Mnt? && r.granted {
      KeptMore(ms, r.mount, rest);
      var own := if RemovedBy(rest, r.mount) then [] else [r.mount];
      assert Survivors(rs) == own + Survivors(rest);
      hide Kept, Survivors, RemovedBy;
      assert Kept(ms, rest) + (own + Survivors(rest)) == Kept(ms, rest) + own + Survivors(rest);
    }
  }

  // After any sequence of requests the list is the granted mounts not removed since, in order.
  lemma {:induction false} ListIsSurvivors(rs: seq<Request>)
    ensures After([], rs) == Survivors(rs)
  {
    AfterIs([], rs);
  }

  // So a mount is listed exactly when it was granted at some point and nothing after removed it.
  lemma {:induction false} ListedExactly(rs: seq<Request>, m: Mount)
    ensures m in After([], rs) <==>
            exists i :: 0 <= i < |rs| && rs[i] == Mnt(m, true) && !RemovedBy(rs[i + 1..], m)
    decreases |rs|
  {
    ListIsSurvivors(rs);
    if rs != [] {
      var rest := rs[1..];
      ListedExactly(rest, m);
      ListIsSurvivors(rest);
      if exists i :: 0 <= i < |rest| && rest[i] == Mnt(m, true) && !RemovedBy(rest[i + 1..], m) {
        var i :| 0 <= i < |rest| && rest[i] == Mnt(m, true) && !RemovedBy(rest[i + 1..], m);
        assert rs[i + 2..] == rest[i + 1..] && rs[i + 1] == Mnt(m, true);
      }
      if exists i :: 0 <= i < |rs| && rs[i] == Mnt(m, true) && !RemovedBy(rs[i + 1..], m) {
        var i :| 0 <= i < |rs| && rs[i] == Mnt(m, true) && !RemovedBy(rs[i + 1..], m);
        if i > 0 {
          assert rs[i + 1..] == rest[i..] && rest[i - 1] == Mnt(m, true);
        }
      }
    }
  }
}

/** The engine state behind the pending lists and every operation that changes it.
    Index reads never fail here, and Direction, Include and the visit order are fixed. */
module PendingEngine {
  import opened Versions
  import opened Entries
  import opened GlobalModel
  import opened Pending
  import Names

  /** pendingRebuildAfter, in nanoseconds. */
  const REBUILD_AFTER := 15 * 60 * 1_000_000_000
  /** pendingDirtyShare. */
  const DIRTY_SHARE := 4

  datatype Op =
    | Put(row: FileInfo)
    | PutBatch(batch: seq<FileInfo>)
    | Delete(name: string)
    | SetInFlight(held: set<string>)
    | SetPeerIndex(peer: U64, files: seq<FileInfo>, update: bool)
    | SetPeerIndexAppend(peer: U64, files: seq<FileInfo>)
    | CleanupPeerIndex(peer: U64)
    | BeginExchange(peer: U64)
    | EndExchange(peer: U64)
    | SetIncremental(on: bool)
    | Read(now: int)

  ghost function FileNames(files: seq<FileInfo>): set<string>
  {
    set f | f in files :: f.name
  }

  /** files written into view one after the other. */
  function Written(view: View, files: seq<FileInfo>): View
  {
    if files == [] then view
    else Written(view, files[..|files| - 1])[files[|files| - 1].name := files[|files| - 1]]
  }

  /** The last file of a name is what stays. */
  lemma {:induction false} WrittenAt(view: View, files: seq<FileInfo>, i: nat)
    requires i < |files| && forall k :: i < k < |files| ==> files[k].name != files[i].name
    ensures files[i].name in Written(view, files) && Written(view, files)[files[i].name] == files[i]
  {
    if i < |files| - 1 {
      WrittenAt(view, files[..|files| - 1], i);
    }
  }

  lemma {:induction false} WrittenElsewhere(view: View, files: seq<FileInfo>, name: string)
    requires name !in FileNames(files)
    ensures AgreeAt(Written(view, files), view, name)
  {
    if files != [] {
      var last := files[|files| - 1];
      assert last in files && forall f :: f in files[..|files| - 1] ==> f in files;
      WrittenElsewhere(view, files[..|files| - 1], name);
    }
  }

  /** What an operation does to the world the lists describe. */
  ghost function Effect(w: World, op: Op): World
  {
    match op
    case Put(row) => w.(rows := w.rows[row.name := row])
    case PutBatch(batch) => w.(rows := Written(w.rows, batch))
    case Delete(name) => w.(rows := w.rows - {name})
    case SetInFlight(held) => w.(inFlight := held)
    case SetPeerIndex(peer, files, update) =>
      var was := ViewAt(w.peers, peer);
      var base := if update then was else map n | n in was && n in FileNames(files) :: was[n];
      w.(peers := w.peers[peer := Written(base, files)])
    case SetPeerIndexAppend(peer, files) => w.(peers := w.peers[peer := Written(ViewAt(w.peers, peer), files)])
    case CleanupPeerIndex(peer) => w.(peers := w.peers - {peer})
    case BeginExchange(peer) => w.(partial := w.partial + {peer})
    case EndExchange(peer) => w.(partial := w.partial - {peer})
    case SetIncremental(on) => w
    case Read(now) => w
  }

  ghost function Effects(w: World, ops: seq<Op>): World
  {
    if ops == [] then w else Effect(Effects(w, ops[..|ops| - 1]), ops[|ops| - 1])
  }

  /** The operation names the empty path. */
  ghost predicate NamesEmpty(op: Op)
  {
    match op
    case Put(row) => row.name == ""
    case PutBatch(batch) => "" in FileNames(batch)
    case Delete(name) => name == ""
    case SetInFlight(held) => "" in held
    case SetPeerIndex(_, files, _) => "" in FileNames(files)
    case SetPeerIndexAppend(_, files) => "" in FileNames(files)
    case _ => false
  }

  /** Nothing in the world is called by the empty path. */
  ghost predicate NoEmpty(w: World)
  {
    "" !in w.rows && "" !in w.inFlight && forall id :: id in w.peers ==> "" !in w.peers[id]
  }

  lemma StaysWithoutEmpty(w: World, op: Op)
    requires NoEmpty(w) && !NamesEmpty(op)
    ensures NoEmpty(Effect(w, op))
  {
    match op
    case PutBatch(batch) => WrittenElsewhere(w.rows, batch, "");
    case SetPeerIndex(peer, files, update) =>
      var was := ViewAt(w.peers, peer);
      WrittenElsewhere(if update then was else map n | n in was && n in FileNames(files) :: was[n], files, "");
    case SetPeerIndexAppend(peer, files) => WrittenElsewhere(ViewAt(w.peers, peer), files, "");
    case _ =>
  }

  /** The sets are right about every name that is not dirty (and about "" unless touched). */
  ghost predicate Right(cfg: Config, w: World, pulls: set<string>, ups: set<string>, dirty: set<string>, emptyTouched: bool)
  {
    forall n :: n !in dirty && (n == "" ==> !emptyTouched) ==>
      && (n in pulls <==> PullWanted(cfg, w, n))
      && (n in ups <==> UploadWanted(cfg, w, n))
  }

  lemma WalkIsRight(cfg: Config, w: World, dirty: set<string>, emptyTouched: bool)
    ensures Right(cfg, w, WalkPulls(cfg, w), WalkUploads(cfg, w), dirty, emptyTouched)
  {
    WalkFindsAll(cfg, w);
  }

  /** Sets that are right about every name are the walk's sets. */
  lemma RightIsWalk(cfg: Config, w: World, pulls: set<string>, ups: set<string>)
    requires Right(cfg, w, pulls, ups, {}, false)
    ensures pulls == WalkPulls(cfg, w) && ups == WalkUploads(cfg, w)
  {
    WalkFindsAll(cfg, w);
  }

  class Engine {
    const cfg: Config

    var rows: View
    var peers: map<U64, View>
    var partial: set<U64>
    var inFlight: set<string>

    // pendingDirty
    var dirty: set<string>
    var dirtyAll: bool

    // pendingCache
    var pulls: seq<string>
    var ups: seq<string>
    var pullSet: set<string>
    var upSet: set<string>
    var indexed: nat
    var builtAt: Option<int>
    var valid: bool
    var incremental: bool

    /** Some operation since the last full walk named the empty path, which the dirty set
        refuses to record. */
    ghost var emptyTouched: bool

    function State(): World
      reads this
    {
      World(rows, peers, partial, inFlight)
    }

    /** While no full walk is owed, the cached sets are right about every name not dirty. */
    ghost predicate Valid()
      reads this
    {
      valid ==>
        && pulls == Names.SortedList(pullSet)
        && ups == Names.SortedList(upSet)
        && (!dirtyAll ==> Right(cfg, State(), pullSet, upSet, dirty, emptyTouched))
    }

    constructor (cfg: Config)
      ensures Valid() && this.cfg == cfg
      ensures State() == World(map[], map[], {}, {}) && !valid && incremental && dirty == {} && !dirtyAll && !emptyTouched
    {
      this.cfg := cfg;
      rows, peers, partial, inFlight := map[], map[], {}, {};
      dirty, dirtyAll := {}, false;
      pulls, ups, pullSet, upSet := [], [], {}, {};
      indexed, builtAt, valid, incremental := 0, None, false, true;
      emptyTouched := false;
    }

    /** The cached sets stay valid across a change that leaves the peers' identities alone
        and touches only names that are dirty afterwards. */
    twostate lemma Carried(touched: set<string>)
      requires old(Valid())
      requires valid == old(valid) && pulls == old(pulls) && ups == old(ups)
      requires pullSet == old(pullSet) && upSet == old(upSet)
      requires old(dirtyAll) ==> dirtyAll
      requires !dirtyAll ==> peers.Keys == old(peers).Keys && partial == old(partial)
      requires old(dirty) <= dirty && touched - {""} <= dirty
      requires old(emptyTouched) || "" in touched ==> emptyTouched
      requires !dirtyAll ==> forall n :: n !in touched ==>
          && AgreeAt(rows, old(rows), n)
          && (n in inFlight <==> n in old(inFlight))
          && forall id :: id in peers ==> AgreeAt(peers[id], old(peers)[id], n)
      ensures Valid()
    {
      if valid && !dirtyAll {
        forall n | n !in dirty && (n == "" ==> !emptyTouched)
          ensures n in pullSet <==> PullWanted(cfg, State(), n)
          ensures n in upSet <==> UploadWanted(cfg, State(), n)
        {
          assert n !in touched && n !in old(dirty) && (n == "" ==> !old(emptyTouched));
          MembershipDependsOnName(cfg, old(State()), State(), n);
        }
      }
    }

    // ---- marking ----

    method MarkDirty(name: string)
      modifies `dirty, `emptyTouched
      ensures dirty == old(dirty) + ({name} - {""})
      ensures emptyTouched == (old(emptyTouched) || name == "")
    {
      emptyTouched := emptyTouched || name == "";
      if name == "" { return; }
      dirty := dirty + {name};
    }

    method MarkNames(names: seq<string>)
      modifies `dirty, `emptyTouched
      ensures dirty == old(dirty) + ((set n | n in names) - {""})
      ensures emptyTouched == (old(emptyTouched) || "" in names)
    {
      for i := 0 to |names|
        invariant dirty == old(dirty) + ((set n | n in names[..i]) - {""})
        invariant emptyTouched == (old(emptyTouched) || "" in names[..i])
      {
        assert names[..i + 1] == names[..i] + [names[i]];
        MarkDirty(names[i]);
      }
      assert names[..|names|] == names;
    }

    method MarkAll()
      modifies `dirtyAll
      ensures dirtyAll
    {
      dirtyAll := true;
    }

    /** takePendingDirty. */
    method TakeDirty() returns (names: set<string>, all: bool)
      modifies `dirty, `dirtyAll
      ensures names == old(dirty) && all == old(dirtyAll)
      ensures dirty == {} && !dirtyAll
    {
      names, all := dirty, dirtyAll;
      dirty, dirtyAll := {}, false;
    }

    // ---- index writes, each reported through the write hook ----

    method Put(row: FileInfo)
      requires Valid()
      modifies this
      ensures Valid()
      ensures State() == old(State()).(rows := old(rows)[row.name := row])
      ensures incremental == old(incremental) && dirtyAll == old(dirtyAll)
      ensures dirty == old(dirty) + ({row.name} - {""}) && emptyTouched == (old(emptyTouched) || row.name == "")
    {
      rows := rows[row.name := row];
      MarkDirty(row.name);
      Carried({row.name});
    }

    method PutBatch(batch: seq<FileInfo>)
      requires Valid()
      modifies this
      ensures Valid()
      ensures State() == old(State()).(rows := Written(old(rows), batch))
      ensures incremental == old(incremental) && dirtyAll == old(dirtyAll)
      ensures dirty == old(dirty) + (FileNames(batch) - {""}) && emptyTouched == (old(emptyTouched) || "" in FileNames(batch))
    {
      for i := 0 to |batch|
        invariant Valid()
        invariant State() == old(State()).(rows := Written(old(rows), batch[..i]))
        invariant incremental == old(incremental) && dirtyAll == old(dirtyAll)
        invariant dirty == old(dirty) + (FileNames(batch[..i]) - {""})
        invariant emptyTouched == (old(emptyTouched) || "" in FileNames(batch[..i]))
      {
        assert batch[..i + 1] == batch[..i] + [batch[i]];
        assert batch[..i + 1][..i] == batch[..i];
        Put(batch[i]);
      }
      assert batch[..|batch|] == batch;
    }

    method Delete(name: string)
      requires Valid()
      modifies this
      ensures Valid()
      ensures State() == old(State()).(rows := old(rows) - {name})
      ensures incremental == old(incremental) && dirtyAll == old(dirtyAll)
      ensures dirty == old(dirty) + ({name} - {""}) && emptyTouched == (old(emptyTouched) || name == "")
    {
      rows := rows - {name};
      MarkDirty(name);
      Carried({name});
    }

    // ---- the stability gate ----

    method SetInFlight(held: set<string>)
      requires Valid()
      modifies this
      ensures Valid()
      ensures State() == old(State()).(inFlight := held)
      ensures incremental == old(incremental) && dirtyAll == old(dirtyAll)
      ensures var changed := (old(inFlight) - held) + (held - old(inFlight));
              dirty == old(dirty) + (changed - {""}) && emptyTouched == (old(emptyTouched) || "" in changed)
    {
      var prev := inFlight;
      inFlight := held;
      var todo := (prev - held) + (held - prev);
      ghost var changed := todo;
      while todo != {}
        invariant todo <= changed
        invariant dirty == old(dirty) + (changed - todo - {""})
        invariant emptyTouched == (old(emptyTouched) || "" in changed - todo)
        invariant State() == old(State()).(inFlight := held)
        invariant unchanged(`pulls, `ups, `pullSet, `upSet, `valid, `dirtyAll, `incremental)
      {
        var n :| n in todo;
        MarkDirty(n);
        todo := todo - {n};
      }
      Carried(changed);
    }

    // ---- peer views ----

    /** files written over base, with the names they touch. */
    static method Merge(base: View, files: seq<FileInfo>) returns (view: View, names: seq<string>)
      ensures view == Written(base, files)
      ensures forall n :: n in names <==> n in FileNames(files)
    {
      view, names := base, [];
      for i := 0 to |files|
        invariant view == Written(base, files[..i])
        invariant forall n :: n in names <==> n in FileNames(files[..i])
      {
        assert files[..i + 1] == files[..i] + [files[i]];
        assert files[..i + 1][..i] == files[..i];
        names := names + [files[i].name];
        view := view[files[i].name := files[i]];
      }
      assert files[..|files|] == files;
    }

    /** Store a peer's view that differs from the previous one only at the given names. A
        view that did not exist can change any name's answer, so it owes a full walk. */
    method Install(peer: U64, view: View, names: seq<string>)
      requires Valid()
      requires forall n :: n !in names ==> AgreeAt(view, ViewAt(peers, peer), n)
      modifies this
      ensures Valid()
      ensures State() == old(State()).(peers := old(peers)[peer := view])
      ensures incremental == old(incremental) && valid == old(valid) && builtAt == old(builtAt)
      ensures pulls == old(pulls) && ups == old(ups)
      ensures dirty == old(dirty) + ((set n | n in names) - {""})
      ensures dirtyAll == (old(dirtyAll) || peer !in old(peers))
      ensures emptyTouched == (old(emptyTouched) || "" in names)
    {
      if peer !in peers {
        MarkAll();
      }
      peers := peers[peer := view];
      MarkNames(names);
      Carried(set n | n in names);
    }

    method SetPeerIndex(peer: U64, files: seq<FileInfo>, update: bool)
      requires Valid()
      modifies this
      ensures Valid()
      ensures var was := ViewAt(old(peers), peer);
              var base := if update then was else map n | n in was && n in FileNames(files) :: was[n];
              State() == old(State()).(peers := old(peers)[peer := Written(base, files)])
      ensures incremental == old(incremental) && valid == old(valid) && builtAt == old(builtAt)
      ensures pulls == old(pulls) && ups == old(ups)
      ensures dirtyAll == (old(dirtyAll) || peer !in old(peers))
      ensures var touched := FileNames(files) + if update then {} else ViewAt(old(peers), peer).Keys;
              dirty == old(dirty) + (touched - {""}) && emptyTouched == (old(emptyTouched) || "" in touched)
    {
      var was := ViewAt(peers, peer);
      var base, dropped := was, [];
      if !update {
        var seen := set f | f in files :: f.name;
        assert seen == FileNames(files);
        base := was - (was.Keys - seen);
        assert base == map n | n in was && n in FileNames(files) :: was[n];
        dropped := SomeOrder(was.Keys - seen);
      }
      var view, names := Merge(base, files);
      forall n | n !in dropped + names ensures AgreeAt(view, was, n) {
        WrittenElsewhere(base, files, n);
      }
      Install(peer, view, dropped + names);
    }

    /** A map's keys as a list, in some order. */
    static method SomeOrder(names: set<string>) returns (r: seq<string>)
      ensures forall n :: n in r <==> n in names
    {
      r := [];
      var todo := names;
      while todo != {}
        invariant todo <= names
        invariant forall n :: n in r <==> n in names && n !in todo
      {
        var n :| n in todo;
        r := r + [n];
        todo := todo - {n};
      }
    }

    method SetPeerIndexAppend(peer: U64, files: seq<FileInfo>)
      requires Valid()
      modifies this
      ensures Valid()
      ensures State() == old(State()).(peers := old(peers)[peer := Written(ViewAt(old(peers), peer), files)])
      ensures incremental == old(incremental) && dirtyAll == (old(dirtyAll) || peer !in old(peers))
      ensures dirty == old(dirty) + (FileNames(files) - {""}) && emptyTouched == (old(emptyTouched) || "" in FileNames(files))
    {
      var view, names := Merge(ViewAt(peers, peer), files);
      forall n | n !in names ensures AgreeAt(view, ViewAt(peers, peer), n) {
        WrittenElsewhere(ViewAt(peers, peer), files, n);
      }
      Install(peer, view, names);
    }

    method CleanupPeerIndex(peer: U64)
      requires Valid()
      modifies this
      ensures Valid()
      ensures State() == old(State()).(peers := old(peers) - {peer})
      ensures incremental == old(incremental) && dirtyAll && dirty == old(dirty) && emptyTouched == old(emptyTouched)
    {
      peers := peers - {peer};
      MarkAll();
    }

    method BeginExchange(peer: U64)
      requires Valid()
      modifies this
      ensures Valid()
      ensures State() == old(State()).(partial := old(partial) + {peer})
      ensures incremental == old(incremental) && dirtyAll && dirty == old(dirty) && emptyTouched == old(emptyTouched)
    {
      partial := partial + {peer};
      MarkAll();
    }

    method EndExchange(peer: U64)
      requires Valid()
      modifies this
      ensures Valid()
      ensures State() == old(State()).(partial := old(partial) - {peer})
      ensures incremental == old(incremental) && dirtyAll && dirty == old(dirty) && emptyTouched == old(emptyTouched)
    {
      partial := partial - {peer};
      MarkAll();
    }

    method SetIncremental(on: bool)
      requires Valid()
      modifies this
      ensures Valid() && State() == old(State()) && incremental == on && !valid && emptyTouched == old(emptyTouched)
    {
      incremental := on;
      valid := false;
    }

    // ---- deciding one name, in the loops of the source ----

    method VisitViews(ids: seq<U64>) returns (views: seq<View>)
      ensures views == ViewsOf(ids, peers)
    {
      views := [];
      for i := 0 to |ids|
        invariant |views| == i && forall k :: 0 <= k < i ==> views[k] == ViewAt(peers, ids[k])
      {
        views := views + [ViewAt(peers, ids[i])];
      }
    }

    method AuthoritativeViews() returns (views: seq<View>)
      ensures views == FullViews(cfg, State())
    {
      var ids := CompleteIds(cfg.visit(peers.Keys), partial);
      views := VisitViews(ids);
    }

    static method CompleteIds(ids: seq<U64>, partial: set<U64>) returns (r: seq<U64>)
      ensures r == Complete(ids, partial)
    {
      r := [];
      for i := 0 to |ids|
        invariant r + Complete(ids[i..], partial) == Complete(ids, partial)
      {
        assert ids[i..][1..] == ids[i + 1..];
        if ids[i] !in partial {
          r := r + [ids[i]];
        }
      }
    }

    method DecidePull(name: string) returns (want: bool)
      ensures want == PullWanted(cfg, State(), name)
    {
      var views := VisitViews(cfg.visit(peers.Keys));
      want := DecidePullFrom(cfg, State(), views, name);
    }

    method DecideUpload(name: string, views: seq<View>) returns (want: bool)
      requires views == FullViews(cfg, State())
      ensures want == UploadWanted(cfg, State(), name)
    {
      if name !in rows || rows[name].deleted || name in inFlight {
        return false;
      }
      var local := rows[name];
      for i := 0 to |views|
        invariant forall v :: v in views[..i] ==> !Owed(local, v, name)
      {
        assert views[..i + 1] == views[..i] + [views[i]];
        if name !in views[i] {
          assert Owed(local, views[i], name);
          return true;
        }
        var theirs := views[i][name];
        var c := CompareKeys(local.version, theirs.version);
        if c == Greater && (theirs.deleted || !IdenticalContent(local, theirs)) {
          assert Owed(local, views[i], name);
          return true;
        }
      }
      assert views[..|views|] == views;
      want := false;
    }

    // ---- the full walk and the incremental step ----

    /** computeNeedPullsLocked, before sorting. */
    method WalkForPulls() returns (found: set<string>)
      modifies `indexed
      ensures found == WalkPulls(cfg, State())
    {
      if cfg.direction == SendOnly {
        return {};
      }
      var views := VisitViews(cfg.visit(peers.Keys));
      var names := rows.Keys + set v, n | v in views && n in v :: n;
      assert names == rows.Keys + ViewNames(AllViews(cfg, State()));
      indexed := |rows|;
      found := {};
      var todo := names;
      while todo != {}
        invariant todo <= names && found <= names - todo
        invariant forall n :: n in names - todo ==> (n in found <==> PullWanted(cfg, State(), n))
      {
        var n :| n in todo;
        var want := DecidePull(n);
        if want { found := found + {n}; }
        todo := todo - {n};
      }
    }

    /** computePendingUploadsLocked, before sorting. */
    method WalkForUploads() returns (found: set<string>)
      ensures found == WalkUploads(cfg, State())
    {
      var views := AuthoritativeViews();
      if |views| == 0 {
        return {};
      }
      found := {};
      var todo := rows.Keys;
      while todo != {}
        invariant todo <= rows.Keys && found <= rows.Keys - todo
        invariant forall n :: n in rows.Keys - todo ==> (n in found <==> UploadWanted(cfg, State(), n))
      {
        var n :| n in todo;
        var want := DecideUpload(n, views);
        if want { found := found + {n}; }
        todo := todo - {n};
      }
    }

    /** The lists are exactly what a full walk reports. */
    ghost predicate Exact()
      reads this
    {
      && pulls == Names.SortedList(WalkPulls(cfg, State()))
      && ups == Names.SortedList(WalkUploads(cfg, State()))
    }

    method Rebuild(now: int)
      modifies `indexed, `pulls, `ups, `pullSet, `upSet, `builtAt, `valid, `dirty, `dirtyAll, `emptyTouched
      ensures Valid() && valid && Exact() && !emptyTouched
      ensures dirty == {} && !dirtyAll && builtAt == Some(now)
    {
      var found := WalkForPulls();
      var owed := WalkForUploads();
      Store(found, owed, now);
      WalkIsRight(cfg, State(), {}, false);
    }

    /** The cache after a walk. Nothing queued before the walk has to be looked at again. */
    method Store(found: set<string>, owed: set<string>, now: int)
      modifies `pulls, `ups, `pullSet, `upSet, `builtAt, `valid, `dirty, `dirtyAll, `emptyTouched
      ensures pullSet == found && upSet == owed && valid && builtAt == Some(now)
      ensures pulls == Names.SortedList(found) && ups == Names.SortedList(owed)
      ensures dirty == {} && !dirtyAll && !emptyTouched
    {
      pulls := Names.SortNames(found);
      ups := Names.SortNames(owed);
      pullSet, upSet := found, owed;
      builtAt, valid := Some(now), true;
      var _, _ := TakeDirty();
      emptyTouched := false;
    }

    /** ensurePendingLocked. Whichever branch it takes, the lists it leaves are right about
        every non-empty name, and they are exactly the full walk's lists unless an operation
        since the last full walk named the empty path. */
    method EnsurePending(now: int)
      requires Valid()
      modifies `indexed, `pulls, `ups, `pullSet, `upSet, `builtAt, `valid, `dirty, `dirtyAll, `emptyTouched
      ensures Valid() && valid
      ensures dirty == {} && !dirtyAll && builtAt.Some?
      ensures forall n :: n != "" ==>
          && (n in pulls <==> PullWanted(cfg, State(), n))
          && (n in ups <==> UploadWanted(cfg, State(), n))
      ensures !emptyTouched ==> Exact()
      ensures emptyTouched ==> old(emptyTouched)
      ensures old(incremental && valid && !dirtyAll && dirty == {} && builtAt.Some?) ==>
          pulls == old(pulls) && ups == old(ups) && emptyTouched == old(emptyTouched)
    {
      if !incremental {
        Rebuild(now);
        WalkIsRight(cfg, State(), {}, false);
        return;
      }
      var names, all := TakeDirty();
      if !valid || all
         || builtAt.None? || (|names| > 0 && now - builtAt.value > REBUILD_AFTER)
         || (|names| > 0 && indexed > 0 && |names| >= indexed / DIRTY_SHARE + 1)
      {
        Rebuild(now);
        WalkIsRight(cfg, State(), {}, false);
        return;
      }
      if |names| > 0 {
        UpdateNames(names);
      }
      if !emptyTouched {
        RightIsWalk(cfg, State(), pullSet, upSet);
      }
    }

    /** The incremental step: decide each drained name again and leave the rest alone. */
    method UpdateNames(names: set<string>)
      requires valid && !dirtyAll && dirty == {}
      requires Right(cfg, State(), pullSet, upSet, names, emptyTouched)
      modifies `pullSet, `upSet, `pulls, `ups
      ensures Valid()
    {
      var views := AuthoritativeViews();
      var todo := names;
      while todo != {}
        invariant todo <= names
        invariant Right(cfg, State(), pullSet, upSet, todo, emptyTouched)
      {
        var n :| n in todo;
        var pull := DecidePull(n);
        pullSet := if pull then pullSet + {n} else pullSet - {n};
        var upload := false;
        if |views| > 0 {
          upload := DecideUpload(n, views);
        }
        upSet := if upload then upSet + {n} else upSet - {n};
        todo := todo - {n};
      }
      pulls := Names.SortNames(pullSet);
      ups := Names.SortNames(upSet);
    }

    // ---- whole runs ----

    method Step(op: Op)
      requires Valid()
      modifies this
      ensures Valid() && State() == Effect(old(State()), op)
      ensures NoEmpty(old(State())) && !NamesEmpty(op) && !old(emptyTouched) ==> !emptyTouched
    {
      match op {
        case Put(row) => Put(row);
        case PutBatch(batch) => PutBatch(batch);
        case Delete(name) => Delete(name);
        case SetInFlight(held) => SetInFlight(held);
        case SetPeerIndex(peer, files, update) => SetPeerIndex(peer, files, update);
        case SetPeerIndexAppend(peer, files) => SetPeerIndexAppend(peer, files);
        case CleanupPeerIndex(peer) => CleanupPeerIndex(peer);
        case BeginExchange(peer) => BeginExchange(peer);
        case EndExchange(peer) => EndExchange(peer);
        case SetIncremental(on) => SetIncremental(on);
        case Read(now) => EnsurePending(now);
      }
    }

    /** After any run of operations a read reports the full walk's answer for every
        non-empty name, and the full walk's lists themselves when neither the start nor any of
        the operations names the empty path. */
    method Run(ops: seq<Op>, now: int)
      requires Valid()
      modifies this
      ensures Valid() && State() == Effects(old(State()), ops)
      ensures forall n :: n != "" ==>
          && (n in pulls <==> n in WalkPulls(cfg, State()))
          && (n in ups <==> n in WalkUploads(cfg, State()))
      ensures NoEmpty(old(State())) && !old(emptyTouched) && (forall op :: op in ops ==> !NamesEmpty(op)) ==> Exact()
    {
      ghost var clean := NoEmpty(State()) && !emptyTouched && forall op :: op in ops ==> !NamesEmpty(op);
      for i := 0 to |ops|
        invariant Valid() && State() == Effects(old(State()), ops[..i])
        invariant clean ==> NoEmpty(State()) && !emptyTouched
      {
        assert ops[..i + 1][..i] == ops[..i] && ops[i] in ops;
        if clean { StaysWithoutEmpty(State(), ops[i]); }
        Step(ops[i]);
      }
      assert ops[..|ops|] == ops;
      EnsurePending(now);
      WalkFindsAll(cfg, State());
    }
  }

  /** From an empty engine, any operations that do not name the empty path leave exactly the
      lists of a full walk. */
  method FreshRun(cfg: Config, ops: seq<Op>, now: int) returns (e: Engine)
    requires forall op :: op in ops ==> !NamesEmpty(op)
    ensures fresh(e) && e.cfg == cfg && e.State() == Effects(World(map[], map[], {}, {}), ops) && e.Exact()
  {
    e := new Engine(cfg);
    e.Run(ops, now);
  }

  /** The empty path escapes the dirty set: a peer entry named "" that arrives after a
      walk is missing from the incremental pull list, though a full walk reports it. */
  method EmptyNameEscapes() returns (e: Engine)
    ensures e.valid && e.incremental
    ensures "" in WalkPulls(e.cfg, e.State()) && "" !in e.pulls
  {
    var cfg := Config(SendReceive, None, s => if 7 in s then [7] else []);
    e := EmptyViewWalked(cfg);
    var file := FileInfo("", 1, 1, 0, 0, File, false, false, map[1 := 1], 0, 1, [Sha256([0])]);
    EmptyFileArrives(e, file);
    OnePeer(cfg, map["" := file]);
    e.EnsurePending(0);
  }

  method EmptyFileArrives(e: Engine, file: FileInfo)
    requires e.Valid() && file.name == "" && e.State() == World(map[], map[7 := map[]], {}, {})
    requires e.valid && e.incremental && !e.dirtyAll && e.dirty == {} && e.builtAt.Some? && "" !in e.pulls
    modifies e
    ensures e.Valid() && e.State() == World(map[], map[7 := map["" := file]], {}, {})
    ensures e.valid && e.incremental && !e.dirtyAll && e.dirty == {} && e.builtAt.Some? && "" !in e.pulls
  {
    assert [file][..0] == [] && Written(map[], [file]) == map["" := file];
    e.SetPeerIndex(7, [file], true);
  }

  method EmptyViewWalked(cfg: Config) returns (e: Engine)
    requires cfg.direction == SendReceive && cfg.gate.None? && cfg.visit({7}) == [7]
    ensures fresh(e) && e.Valid() && e.cfg == cfg && e.State() == World(map[], map[7 := map[]], {}, {})
    ensures e.valid && e.incremental && !e.dirtyAll && e.dirty == {} && e.builtAt.Some? && "" !in e.pulls
  {
    e := new Engine(cfg);
    e.SetPeerIndex(7, [], true);
    e.EnsurePending(0);
    OnePeer(cfg, map[]);
  }

  lemma OnePeer(cfg: Config, view: View)
    requires cfg.direction == SendReceive && cfg.gate.None? && cfg.visit({7}) == [7]
    requires "" in view ==> !view[""].deleted
    ensures "" in WalkPulls(cfg, World(map[], map[7 := view], {}, {})) <==> "" in view
  {
    var w := World(map[], map[7 := view], {}, {});
    assert w.peers.Keys == {7};
    assert AllViews(cfg, w) == [view] && [view][..0] == [];
    assert Global(None, [], "") == None;
    WalkFindsAll(cfg, w);
  }
}

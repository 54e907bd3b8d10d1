/** The two pending lists and their incremental maintenance
    (internal/sync/pending_incremental.go, engine.go SetPeerIndex*, SetInFlight,
    peerview_exchange.go). Every engine operation is one atomic step. */
module Pending {
  import opened Versions
  import opened Entries
  import opened GlobalModel

  datatype Direction = SendReceive | SendOnly | ReceiveOnly

  /** Fixed settings: the sync direction, the include gate, and the order in which the
      peers of a given set are visited. */
  datatype Config = Config(direction: Direction, gate: Option<(string, bool) -> bool>, visit: set<U64> -> seq<U64>)

  /** Everything the pending lists are a function of. */
  datatype World = World(rows: View, peers: map<U64, View>, partial: set<U64>, inFlight: set<string>)

  function Lookup(view: View, name: string): Option<FileInfo>
  {
    if name in view then Some(view[name]) else None
  }

  function ViewAt(peers: map<U64, View>, id: U64): View
  {
    if id in peers then peers[id] else map[]
  }

  function ViewsOf(ids: seq<U64>, peers: map<U64, View>): seq<View>
  {
    seq(|ids|, i requires 0 <= i < |ids| => ViewAt(peers, ids[i]))
  }

  /** All peer views in visit order. */
  function AllViews(cfg: Config, w: World): seq<View>
  {
    ViewsOf(cfg.visit(w.peers.Keys), w.peers)
  }

  /** The ids of the views that are not mid-exchange. */
  function Complete(ids: seq<U64>, partial: set<U64>): seq<U64>
  {
    if ids == [] then []
    else (if ids[0] in partial then [] else [ids[0]]) + Complete(ids[1..], partial)
  }

  /** authoritativeViewsLocked: the views upload work may be decided from. */
  function FullViews(cfg: Config, w: World): seq<View>
  {
    ViewsOf(Complete(cfg.visit(w.peers.Keys), w.partial), w.peers)
  }

  /** The type of the first visited view that holds name. */
  function HeldAsDirectory(views: seq<View>, name: string): bool
  {
    if views == [] then false
    else if name in views[0] then views[0][name].kind == Directory
    else HeldAsDirectory(views[1..], name)
  }

  /** pullWanted: name belongs in the pull list. */
  ghost predicate PullWanted(cfg: Config, w: World, name: string)
  {
    var local, views := Lookup(w.rows, name), AllViews(cfg, w);
    var global := Global(local, views, name);
    if cfg.direction == SendOnly || name in w.inFlight || global.None? then false
    else if local.None? then
      !global.value.deleted
      && (cfg.gate.None? || cfg.gate.value(name, HeldAsDirectory(views, name)))
    else if local.value.deleted then !global.value.deleted
    else if global.value.deleted then true
    else match Compare(global.value.version, local.value.version)
      case Greater => !IdenticalContent(local.value, global.value)
      case Concurrent => !SameContent(local.value, global.value)
      case _ => false
  }

  method DecidePullFrom(cfg: Config, w: World, views: seq<View>, name: string) returns (want: bool)
    requires views == AllViews(cfg, w)
    ensures want == PullWanted(cfg, w, name)
  {
    if cfg.direction == SendOnly || name in w.inFlight {
      return false;
    }
    var local := Lookup(w.rows, name);
    var global, _ := GlobalFrom(local, views, name);
    if global.None? {
      return false;
    }
    if local.None? {
      if global.value.deleted {
        return false;
      }
      return cfg.gate.None? || cfg.gate.value(name, HeldAsDirectory(views, name));
    }
    if local.value.deleted {
      return !global.value.deleted;
    }
    if global.value.deleted {
      return true;
    }
    var c := CompareKeys(global.value.version, local.value.version);
    want := (c == Greater && !IdenticalContent(local.value, global.value))
         || (c == Concurrent && !SameContent(local.value, global.value));
  }

  /** A view that misses the local entry's bytes, or that the local entry supersedes. */
  ghost predicate Owed(local: FileInfo, view: View, name: string)
  {
    name in view ==>
      && Compare(local.version, view[name].version) == Greater
      && (view[name].deleted || !IdenticalContent(local, view[name]))
  }

  /** uploadWanted: some complete view is owed the local entry. */
  ghost predicate UploadWanted(cfg: Config, w: World, name: string)
  {
    && name in w.rows && !w.rows[name].deleted && name !in w.inFlight
    && exists v :: v in FullViews(cfg, w) && Owed(w.rows[name], v, name)
  }

  /** The names a walk of the index and of all views finds to pull. */
  ghost function WalkPulls(cfg: Config, w: World): set<string>
  {
    set n | n in w.rows.Keys + ViewNames(AllViews(cfg, w)) && PullWanted(cfg, w, n)
  }

  ghost function WalkUploads(cfg: Config, w: World): set<string>
  {
    set n | n in w.rows.Keys && UploadWanted(cfg, w, n)
  }

  ghost function ViewNames(views: seq<View>): set<string>
  {
    set v, n | v in views && n in v :: n
  }

  // ---- a name's membership depends on that name alone ----

  ghost predicate AgreeAt(v: View, w: View, name: string)
  {
    Lookup(v, name) == Lookup(w, name)
  }

  lemma {:induction false} GlobalDependsOnName(local: Option<FileInfo>, vs: seq<View>, ws: seq<View>, name: string)
    requires |vs| == |ws| && forall i :: 0 <= i < |vs| ==> AgreeAt(vs[i], ws[i], name)
    ensures Global(local, vs, name) == Global(local, ws, name)
  {
    if vs != [] {
      var k := |vs| - 1;
      GlobalDependsOnName(local, vs[..k], ws[..k], name);
      assert AgreeAt(vs[k], ws[k], name);
    }
  }

  lemma {:induction false} DirectoryDependsOnName(vs: seq<View>, ws: seq<View>, name: string)
    requires |vs| == |ws| && forall i :: 0 <= i < |vs| ==> AgreeAt(vs[i], ws[i], name)
    ensures HeldAsDirectory(vs, name) == HeldAsDirectory(ws, name)
  {
    if vs != [] {
      assert AgreeAt(vs[0], ws[0], name);
      DirectoryDependsOnName(vs[1..], ws[1..], name);
    }
  }

  lemma {:induction false} CompleteIsPart(ids: seq<U64>, partial: set<U64>)
    ensures forall id :: id in Complete(ids, partial) <==> id in ids && id !in partial
  {
    if ids != [] {
      CompleteIsPart(ids[1..], partial);
    }
  }

  /** Two worlds with the same peers and the same partial views that agree on everything
      they say about name agree on whether name is pending, in both directions. */
  lemma MembershipDependsOnName(cfg: Config, w: World, u: World, name: string)
    requires w.peers.Keys == u.peers.Keys && w.partial == u.partial
    requires AgreeAt(w.rows, u.rows, name) && (name in w.inFlight <==> name in u.inFlight)
    requires forall id :: id in w.peers ==> AgreeAt(w.peers[id], u.peers[id], name)
    ensures PullWanted(cfg, w, name) == PullWanted(cfg, u, name)
    ensures UploadWanted(cfg, w, name) == UploadWanted(cfg, u, name)
  {
    var vs, ws := AllViews(cfg, w), AllViews(cfg, u);
    assert forall i :: 0 <= i < |vs| ==> AgreeAt(vs[i], ws[i], name);
    GlobalDependsOnName(Lookup(w.rows, name), vs, ws, name);
    DirectoryDependsOnName(vs, ws, name);
    if name in w.rows {
      UploadTransfers(cfg, w, u, name);
      UploadTransfers(cfg, u, w, name);
    }
  }

  lemma UploadTransfers(cfg: Config, w: World, u: World, name: string)
    requires w.peers.Keys == u.peers.Keys && w.partial == u.partial
    requires name in w.rows && AgreeAt(w.rows, u.rows, name) && (name in w.inFlight <==> name in u.inFlight)
    requires forall id :: id in w.peers ==> AgreeAt(w.peers[id], u.peers[id], name)
    ensures UploadWanted(cfg, w, name) ==> UploadWanted(cfg, u, name)
  {
    if UploadWanted(cfg, w, name) {
      var vs, ws := FullViews(cfg, w), FullViews(cfg, u);
      var v :| v in vs && Owed(w.rows[name], v, name);
      var i :| 0 <= i < |vs| && vs[i] == v;
      assert AgreeAt(vs[i], ws[i], name);
      assert ws[i] in ws && Owed(u.rows[name], ws[i], name);
    }
  }

  /** The first visited view that holds name is number i. */
  ghost predicate FirstHolder(views: seq<View>, name: string, i: nat)
  {
    i < |views| && name in views[i] && forall k :: 0 <= k < i ==> name !in views[k]
  }

  /** The winner of name among the local row and the views of all peers, complete or not. */
  ghost function WinnerOf(cfg: Config, w: World, name: string): Option<FileInfo>
  {
    var ids := cfg.visit(w.peers.Keys);
    Global(Lookup(w.rows, name), seq(|ids|, i requires 0 <= i < |ids| => ViewAt(w.peers, ids[i])), name)
  }

  /** Pull work, case by case: nothing on a send-only device and nothing that is being written;
      a name this device lacks if its winner is live and the include gate lets it in, with the
      type of its first holder; a tombstone if the winner is live; a live row if the winner is
      deleted, or is a later version without provably the same bytes, or is concurrent and
      differs. Views that are mid-exchange count as well. */
  lemma PullCases(cfg: Config, w: World, name: string)
    ensures var g := WinnerOf(cfg, w, name);
            var views := AllViews(cfg, w);
            PullWanted(cfg, w, name) <==>
            && cfg.direction != SendOnly && name !in w.inFlight && g.Some?
            && if name !in w.rows then
                 && !g.value.deleted
                 && (cfg.gate.Some? ==> cfg.gate.value(name, exists i: nat :: FirstHolder(views, name, i) && views[i][name].kind == Directory))
               else if w.rows[name].deleted then !g.value.deleted
               else || g.value.deleted
                    || (Compare(g.value.version, w.rows[name].version) == Greater
                        && !(SameContent(w.rows[name], g.value) && (g.value.size == 0 || g.value.blocks != [])))
                    || (Compare(g.value.version, w.rows[name].version) == Concurrent && !SameContent(w.rows[name], g.value))
  {
    var ids, views := cfg.visit(w.peers.Keys), AllViews(cfg, w);
    assert views == seq(|ids|, i requires 0 <= i < |ids| => ViewAt(w.peers, ids[i]));
    FirstHolderType(views, name);
  }

  lemma {:induction false} FirstHolderType(views: seq<View>, name: string)
    ensures HeldAsDirectory(views, name) <==> exists i: nat :: FirstHolder(views, name, i) && views[i][name].kind == Directory
  {
    if views != [] {
      FirstHolderType(views[1..], name);
      if name in views[0] {
        assert FirstHolder(views, name, 0);
        assert forall i: nat :: FirstHolder(views, name, i) ==> i == 0;
      } else {
        forall i: nat ensures FirstHolder(views[1..], name, i) <==> FirstHolder(views, name, i + 1) {
          if FirstHolder(views[1..], name, i) {
            forall k | 0 <= k < i + 1 ensures name !in views[k] { assert k > 0 ==> views[k] == views[1..][k - 1]; }
          }
          if FirstHolder(views, name, i + 1) {
            forall k | 0 <= k < i ensures name !in views[1..][k] { assert views[1..][k] == views[k + 1]; }
          }
        }
        if i: nat :| FirstHolder(views, name, i) && views[i][name].kind == Directory {
          assert i > 0 && FirstHolder(views[1..], name, i - 1);
        }
        if i: nat :| FirstHolder(views[1..], name, i) && views[1..][i][name].kind == Directory {
          assert FirstHolder(views, name, i + 1);
        }
      }
    }
  }

  /** A peer that has this view of itself, sees our index, and has nothing in flight. */
  function Holder(view: View, rows: View): World
  {
    World(view, map[0 := rows], {}, {})
  }

  /** Send-receive, no include gate, one peer. */
  function Plain(): Config
  {
    Config(SendReceive, None, (ids: set<U64>) => [0])
  }

  /** Upload work is what some peer would pull from us as later than what it has: exactly the live
      names, not in flight, for which a peer whose view is complete either lacks the name or has
      an older version of it, and in both cases wants ours. */
  lemma UploadIsWanted(cfg: Config, w: World, name: string)
    ensures name in WalkUploads(cfg, w) <==>
              && name in w.rows && !w.rows[name].deleted && name !in w.inFlight
              && exists id :: && id in cfg.visit(w.peers.Keys) && id !in w.partial
                              && PullWanted(Plain(), Holder(ViewAt(w.peers, id), w.rows), name)
                              && (name in ViewAt(w.peers, id) ==>
                                    Compare(w.rows[name].version, ViewAt(w.peers, id)[name].version) == Greater)
  {
    if name in w.rows && !w.rows[name].deleted {
      var ids := cfg.visit(w.peers.Keys);
      CompleteIsPart(ids, w.partial);
      forall v: View ensures Owed(w.rows[name], v, name) <==> Overdue(w.rows, v, name) { OwedIsOverdue(w.rows, v, name); }
      var full := Complete(ids, w.partial);
      assert FullViews(cfg, w) == ViewsOf(full, w.peers);
      if id :| id in ids && id !in w.partial && Overdue(w.rows, ViewAt(w.peers, id), name) {
        var i :| 0 <= i < |full| && full[i] == id;
        assert FullViews(cfg, w)[i] == ViewAt(w.peers, id);
        assert FullViews(cfg, w)[i] in FullViews(cfg, w);
      }
    }
  }

  /** The holder of this view wants our row, which is later than its own. */
  ghost predicate Overdue(rows: View, view: View, name: string)
    requires name in rows
  {
    && PullWanted(Plain(), Holder(view, rows), name)
    && (name in view ==> Compare(rows[name].version, view[name].version) == Greater)
  }

  lemma OwedIsOverdue(rows: View, view: View, name: string)
    requires name in rows && !rows[name].deleted
    ensures Owed(rows[name], view, name) <==> Overdue(rows, view, name)
  {
    assert AllViews(Plain(), Holder(view, rows)) == [rows];
    assert [rows][..0] == [];
    assert Global(Lookup(view, name), [], name) == Lookup(view, name);
  }

  /** A name no entry mentions is pending in neither direction. */
  lemma {:induction false} UnknownHasNoWinner(views: seq<View>, name: string)
    requires name !in ViewNames(views)
    ensures Global(None, views, name) == None
  {
    if views != [] {
      var init, last := views[..|views| - 1], views[|views| - 1];
      assert last in views;
      assert forall v :: v in init ==> v in views;
      UnknownHasNoWinner(init, name);
    }
  }

  lemma WalkFindsAll(cfg: Config, w: World)
    ensures forall n :: n in WalkPulls(cfg, w) <==> PullWanted(cfg, w, n)
    ensures forall n :: n in WalkUploads(cfg, w) <==> UploadWanted(cfg, w, n)
  {
    forall n | PullWanted(cfg, w, n) ensures n in WalkPulls(cfg, w) {
      if n !in w.rows.Keys + ViewNames(AllViews(cfg, w)) {
        UnknownHasNoWinner(AllViews(cfg, w), n);
      }
    }
  }

  /** Doing what the pull list asks settles the name: when later versions carry later stamps and
      one version means one entry, a name whose winner has been adopted is not wanted again. */
  lemma AdoptingSettles(cfg: Config, w: World, name: string)
    requires Coherent(Elements(Candidates(Lookup(w.rows, name), AllViews(cfg, w), name)))
    requires Global(Lookup(w.rows, name), AllViews(cfg, w), name).Some?
    ensures var winner := Global(Lookup(w.rows, name), AllViews(cfg, w), name).value;
            !PullWanted(cfg, w.(rows := w.rows[name := winner]), name)
  {
    var local, views := Lookup(w.rows, name), AllViews(cfg, w);
    var winner := Global(local, views, name).value;
    var w' := w.(rows := w.rows[name := winner]);
    assert AllViews(cfg, w') == views;
    WinnerIsTop(local, views, name);
    CandidateElements(local, views, name);
    CandidateElements(Some(winner), views, name);
    var all, now := Elements(Candidates(local, views, name)), Elements(Candidates(Some(winner), views, name));
    assert now <= all && winner in now;
    WinnerIsTop(Some(winner), views, name);
    var again := Global(Some(winner), views, name).value;
    if again != winner {
      ReplacesIsAbove(all, winner, again);
    }
    LeqReflexive(winner.version);
  }
}

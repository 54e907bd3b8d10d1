/** A folder as it applies a tombstone: index and disk updated step by step. */
module DirFolder {
  import opened Versions
  import opened Entries
  import opened GlobalModel
  import opened Overwrite
  import opened DirState
  import opened DirDelete
  import opened DirHold
  import Names
  import Pending

  /** The first half of deleteDeletedChildren: which live rows of the subtree may go, deepest
      first, and how many must stay. */
  method Classify(site: Site, rows: View, dir: string) returns (going: seq<string>, kept: nat)
    ensures going == Going(site, rows, Listing(rows, dir)) && kept == Staying(site, rows, Listing(rows, dir))
  {
    var listing := ListPrefix(rows, dir);
    going, kept := Sift(site, rows, listing);
  }

  method Sift(site: Site, rows: View, listing: seq<string>) returns (going: seq<string>, kept: nat)
    requires forall i :: 0 <= i < |listing| ==> Live(rows, listing[i])
    ensures going == Going(site, rows, listing) && kept == Staying(site, rows, listing)
  {
    going, kept := [], 0;
    var done: seq<string> := [];
    while |done| < |listing|
      invariant |done| <= |listing| && done == listing[..|done|]
      invariant going == Going(site, rows, done) && kept == Staying(site, rows, done)
      decreases |listing| - |done|
    {
      var n := listing[|done|];
      var may := MayGo(site, rows, n);
      if may {
        going := going + [n];
      } else {
        kept := kept + 1;
      }
      done := done + [n];
    }
    assert done == listing;
  }

  /** A row stays if it is being written or if its winner is not a deletion. */
  method MayGo(site: Site, rows: View, n: string) returns (may: bool)
    requires Live(rows, n)
    ensures may == Deletable(site, rows, n)
  {
    if n in site.inFlight {
      return false;
    }
    var global, _ := GlobalFrom(Some(rows[n]), site.views, n);
    may := global.Some? && global.value.deleted;
  }

  class Folder {
    const site: Site
    const hold: bool
    ghost const depth: nat
    var rows: View
    var disk: set<string>
    ghost var moved: set<string>
    ghost var copies: set<string>

    ghost function State(): St
      reads this
    {
      St(rows, disk, moved, copies)
    }

    ghost predicate Ready(name: string)
      reads this
    {
      Timed(site) && Bounded(rows, depth) && Names.Depth(name) <= depth
    }

    constructor (site: Site, hold: bool, ghost depth: nat, rows: View, disk: set<string>)
      ensures this.site == site && this.hold == hold && this.depth == depth && State() == St(rows, disk, {}, {})
    {
      this.site, this.hold, this.depth := site, hold, depth;
      this.rows, this.disk, moved, copies := rows, disk, {}, {};
    }

    /** Execute: archive the local copy, or move it to its conflict name and index it there. */
    method Execute(name: string, plan: Plan) returns (ok: bool)
      requires !hold
      requires plan.archiveLocal <==> Live(rows, name) && site.versioning
      requires plan.makeConflictCopy <==> NeedsCopy(site, rows, name)
      requires plan.makeConflictCopy ==> plan.conflictName == CopyName(site, rows[name])
      modifies this
      ensures ok <==> Executed(site, hold, old(State()), name).Some?
      ensures ok ==> State() == Executed(site, hold, old(State()), name).value
      ensures !ok ==> State() == old(State())
    {
      if plan.archiveLocal && name in site.archived && NothingUnder(disk, name) {
        disk := disk - {name};
      }
      if plan.makeConflictCopy {
        var k := plan.conflictName;
        if !MayRename(site, disk, name, k) {
          return false;
        }
        moved, copies := Noted(State(), name), copies + {k};
        rows, disk := rows[k := CopyRow(site, rows, k)], Renamed(disk, name, k);
      }
      ok := true;
    }

    /** deleteDeletedChildren: decide on every live row of the subtree first, then delete the
        deletable ones; a deletion that fails keeps its row. */
    method DeleteDeletedChildren(dir: string) returns (kept: nat)
      requires Ready(dir)
      modifies this
      ensures Pass(State(), kept) == Children(site, hold, depth, old(State()), dir)
      decreases depth - Names.Depth(dir), 1
    {
      var going;
      going, kept := Classify(site, rows, dir);
      GoingOrStaying(site, rows, Listing(rows, dir));
      ghost var goal := Each(site, hold, depth, State(), dir, going);
      ghost var staying := kept;
      var i := 0;
      while i < |going|
        invariant i <= |going| && Ready(dir) && kept >= staying
        invariant forall n :: n in going[i..] ==> Names.Under(n, dir) && Names.Depth(n) <= depth
        invariant Each(site, hold, depth, State(), dir, going[i..]).st == goal.st
        invariant Each(site, hold, depth, State(), dir, going[i..]).kept + kept == goal.kept + staying
      {
        assert going[i..][0] == going[i] && going[i] in going[i..] && going[i..][1..] == going[i + 1..];
        Names.UnderIsDeeper(going[i], dir);
        var failed, _ := ApplyDeletion(going[i]);
        if failed {
          kept := kept + 1;
        }
        i := i + 1;
      }
    }

    /** applyDeletion. The first result is its error, the second says that the local copy went to
        the hold area. */
    method ApplyDeletion(name: string) returns (failed: bool, held: bool)
      requires Ready(name)
      modifies this
      ensures Result(State(), failed, held) == Apply(site, hold, depth, old(State()), name)
      decreases depth - Names.Depth(name), 2
    {
      var local := Pending.Lookup(rows, name);
      var ts := if local.Some? then site.ts(local.value) else "";
      var plan := MakePlan(local, site.views, name, site.policy, site.versioning, site.node, ts);
      if plan.None? {
        return true, false;
      }
      if local.Some? && local.value.deleted && plan.value.delete {
        return false, false;
      }
      if !hold {
        var ok := Execute(name, plan.value);
        if !ok {
          return true, false;
        }
      }
      ExecutedBounded(site, hold, depth, old(State()), name);
      failed, held := false, false;
      if plan.value.global.kind == Directory {
        var kept := DeleteDeletedChildren(name);
        if kept > 0 || Refuses(site, disk, name) {
          return;
        }
      } else if hold && name in disk && name in site.holdable {
        moved := Noted(State(), name);
        disk := Pruned(disk, name);
        held := true;
      }
      if !Refuses(site, disk, name) {
        disk := disk - {name};
      }
      rows := rows[name := Tombstone(name, VersionAt(rows, name), site.node)];
    }
  }

  /** Applying one tombstone to a folder, with everything it may and may not do. `r` stands for
      any row of the index, `q` for any path. */
  method ApplyTombstone(site: Site, hold: bool, rows: View, disk: set<string>, name: string, ghost depth: nat)
    returns (rows': View, disk': set<string>, failed: bool, held: bool)
    requires Startable(site, rows, disk, name, depth)
    ensures failed ==> rows' == rows && disk' == disk
    ensures Winner(site, rows, name).None? ==> failed
    ensures forall r :: Live(rows, r) && !Live(rows', r) ==> MayDie(site, Run(rows, disk, name, hold), r)
    ensures forall r :: Live(rows, r) && !Live(rows', r) && (hold || !IsCopyName(site, r)) && Get(rows[r].version, site.node) < MAX_U64 ==>
              r in rows' && rows'[r].deleted && Prevails(rows'[r], r, rows[r].version)
    ensures forall q :: q in disk && q !in disk' ==> Names.AtOrUnder(q, name)
    ensures Live(rows, name) && !failed && !Live(rows', name) && Winner(site, rows, name).value.kind == Directory ==>
              && AllDeletable(site, rows, name) && (forall q :: q in disk' ==> !Names.AtOrUnder(q, name))
              && forall r :: Live(rows', r) && Names.Under(r, name) ==>
                   exists x :: Names.AtOrUnder(r, x) && Risky(site, Run(rows, disk, name, hold), x)
    ensures Live(rows, name) && DirRow(site, rows, name) && hold ==>
              && (!Live(rows', name) <==> HeldDirectoryGoes(site, rows, disk, name))
              && (!Live(rows', name) && LiveBeneath(rows', name) <==>
                    HeldDirectoryGoes(site, rows, disk, name) && exists r :: Outlives(site, rows, disk, name, r))
    ensures Live(rows, name) && !failed && Winner(site, rows, name).value.kind != Directory ==>
              !Live(rows', name) && (LiveBeneath(rows', name) <==> LiveBeneath(rows, name))
  {
    var f := new Folder(site, hold, depth, rows, disk);
    failed, held := f.ApplyDeletion(name);
    rows', disk' := f.rows, f.disk;
    ghost var run, t := Run(rows, disk, name, hold), f.State();
    DeletedKeeps(site, rows, disk, name, hold, depth);
    forall r | Live(rows, r) && !Live(rows', r) ensures MayDie(site, run, r) {
      OnlyTheDoomedDie(site, rows, disk, name, hold, depth, r);
    }
    forall r | Live(rows, r) && !Live(rows', r) && (hold || !IsCopyName(site, r)) && Get(rows[r].version, site.node) < MAX_U64
      ensures r in rows' && rows'[r].deleted && Prevails(rows'[r], r, rows[r].version)
    {
      DeathIsFinal(site, rows, disk, name, hold, depth, r);
    }
    forall q | q in disk && q !in disk' ensures Names.AtOrUnder(q, name) {
      OnlyTheDoomedAreLost(site, rows, disk, name, hold, depth, q);
    }
    if Live(rows, name) && DirRow(site, rows, name) && hold {
      HeldDirectoryExactly(site, rows, disk, name, depth);
    }
    if Live(rows, name) && !failed && Winner(site, rows, name).value.kind != Directory {
      FileTombstoneIgnoresBeneath(site, rows, disk, name, hold, depth);
    }
    if Live(rows, name) && !failed && !Live(rows', name) && Winner(site, rows, name).value.kind == Directory {
      forall r | Live(rows', r) && Names.Under(r, name) ensures exists x :: Names.AtOrUnder(r, x) && Risky(site, run, x) {
        var x :| x in t.moved && Names.AtOrUnder(r, x);
        assert MovedOk(site, run, t, x);
      }
    }
  }
}

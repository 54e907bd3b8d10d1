/** The state a deletion pass works on, the single operations on it, and what each of them
    keeps (engine.go Execute, applyDeletion; hold.go Move). */
module DirState {
  import opened Versions
  import opened Entries
  import opened GlobalModel
  import opened Overwrite
  import ConflictNames
  import Names
  import Pending

  /** What a pass reads and never changes: peer views in visit order, files being written, this
      device and its policy; paths the system refuses to remove or to rename, paths whose archive
      copy moves the file away, paths the hold area accepts; the formatted time of an entry, and
      what a stat and a hash of a path give. */
  datatype Site = Site(views: seq<View>, inFlight: set<string>, node: U64, policy: Policy, versioning: bool,
                       stuck: set<string>, unmovable: set<string>, archived: set<string>, holdable: set<string>,
                       ts: FileInfo -> string, seen: string -> FileInfo)

  /** The index and the disk. `moved` holds the paths that were moved away whole although a live
      row lay beneath them, `copies` the conflict names written so far. */
  datatype St = St(rows: View, disk: set<string>, moved: set<string>, copies: set<string>)

  /** One top-level deletion: the index and disk it started from, its path, and whether deleted
      copies go to the hold area. */
  datatype Run = Run(start: View, before: set<string>, root: string, hold: bool)

  ghost predicate Timed(site: Site)
  {
    forall f, c :: c in site.ts(f) ==> ConflictNames.IsTagChar(c)
  }

  ghost predicate Live(rows: View, r: string)
  {
    r in rows && !rows[r].deleted
  }

  ghost predicate LiveBeneath(rows: View, x: string)
  {
    exists r :: Live(rows, r) && Names.Under(r, x)
  }

  ghost function Winner(site: Site, rows: View, r: string): Option<FileInfo>
  {
    Global(Pending.Lookup(rows, r), site.views, r)
  }

  /** A live row that the global model has as deleted and that is not being written. */
  ghost predicate Deletable(site: Site, rows: View, r: string)
  {
    Live(rows, r) && r !in site.inFlight && Winner(site, rows, r).Some? && Winner(site, rows, r).value.deleted
  }

  ghost predicate AllDeletable(site: Site, rows: View, dir: string)
  {
    forall r :: Live(rows, r) && Names.Under(r, dir) ==> Deletable(site, rows, r)
  }

  /** A peer holds a tombstone under exactly this name, and the name is not being written. */
  ghost predicate Buried(site: Site, r: string)
  {
    r !in site.inFlight && exists v: View :: v in site.views && r in v && v[r].deleted
  }

  /** Replacing this row preserves it under a conflict name. */
  ghost predicate NeedsCopy(site: Site, rows: View, r: string)
  {
    && Live(rows, r) && Winner(site, rows, r).Some? && IsConflict(rows[r], Winner(site, rows, r).value)
    && site.policy == ConflictCopy && !site.versioning
  }

  function CopyName(site: Site, f: FileInfo): string
  {
    ConflictNames.ConflictName(f.name, site.ts(f), site.node)
  }

  /** Shaped like a conflict copy made by this device. */
  ghost predicate IsCopyName(site: Site, k: string)
  {
    exists c, ts :: (forall x :: x in ts ==> ConflictNames.IsTagChar(x)) && k == ConflictNames.ConflictName(c, ts, site.node)
  }

  ghost predicate IsTree(disk: set<string>)
  {
    forall p, d :: p in disk && Names.Under(p, d) ==> d in disk
  }

  predicate NothingUnder(disk: set<string>, x: string)
  {
    forall q :: q in disk ==> !Names.Under(q, x)
  }

  // ---- single operations ----

  /** The tombstone applyDeletion writes over a row. */
  function Tombstone(name: string, version: Vector, node: U64): FileInfo
  {
    FileInfo(name, 0, 0, 0, 0, File, true, false, Bump(version, node), 0, 0, [])
  }

  function VersionAt(rows: View, r: string): Vector
  {
    if r in rows then rows[r].version else map[]
  }

  /** The row Execute writes for a conflict copy. */
  function CopyRow(site: Site, rows: View, k: string): FileInfo
  {
    site.seen(k).(name := k, kind := File, deleted := false, invalid := false, sequence := 0,
                  version := Bump(VersionAt(rows, k), site.node))
  }

  /** os.Rename of a path with everything under it. */
  function Renamed(disk: set<string>, c: string, k: string): set<string>
  {
    Pruned(disk, c) + set q | q in disk && Names.AtOrUnder(q, c) :: k + q[|c|..]
  }

  predicate MayRename(site: Site, disk: set<string>, c: string, k: string)
  {
    c in disk && c !in site.unmovable && NothingUnder(disk, k)
  }

  /** Moving x away takes something live along, now or earlier. */
  ghost predicate Swallows(s: St, x: string)
  {
    LiveBeneath(s.rows, x) || exists y :: y in s.moved && Names.Under(y, x)
  }

  ghost function Noted(s: St, x: string): set<string>
  {
    if Swallows(s, x) then s.moved + {x} else s.moved
  }

  /** The conflict copy: renamed and indexed. */
  ghost function Aside(site: Site, s: St, c: string, k: string): St
  {
    St(s.rows[k := CopyRow(site, s.rows, k)], Renamed(s.disk, c, k), Noted(s, c), s.copies + {k})
  }

  function Pruned(disk: set<string>, c: string): set<string>
  {
    set q | q in disk && !Names.AtOrUnder(q, c)
  }

  /** The hold area takes the path with everything under it. */
  ghost function Lifted(s: St, c: string): St
  {
    s.(disk := Pruned(s.disk, c), moved := Noted(s, c))
  }

  function Archived(site: Site, s: St, c: string): St
  {
    if c in site.archived && NothingUnder(s.disk, c) then s.(disk := s.disk - {c}) else s
  }

  /** os.Remove fails: something is beneath, or the system says no. */
  predicate Refuses(site: Site, disk: set<string>, c: string)
  {
    c in disk && (c in site.stuck || !NothingUnder(disk, c))
  }

  function Entombed(site: Site, s: St, c: string): St
  {
    s.(rows := s.rows[c := Tombstone(c, VersionAt(s.rows, c), site.node)],
       disk := if Refuses(site, s.disk, c) then s.disk else s.disk - {c})
  }

  /** Execute before a deletion; None when the conflict copy cannot be made. */
  ghost function Executed(site: Site, hold: bool, s: St, c: string): Option<St>
  {
    if hold || !Live(s.rows, c) then Some(s)
    else if site.versioning then Some(Archived(site, s, c))
    else if !NeedsCopy(site, s.rows, c) then Some(s)
    else
      var k := CopyName(site, s.rows[c]);
      if MayRename(site, s.disk, c, k) then Some(Aside(site, s, c, k)) else None
  }

  // ---- what a run keeps ----

  ghost predicate Excused(s: St, r: string)
  {
    exists x :: x in s.moved && Names.AtOrUnder(r, x)
  }

  /** On disk, or carried off with a directory. */
  ghost predicate Placed(s: St, r: string)
  {
    r in s.disk || Excused(s, r)
  }

  /** A path whose removal can carry a live row off: something is live beneath it at the start;
      and where copies are held, its tombstone is not typed as a directory; where they are not,
      conflict copies are made, and it needs one or, beneath the root, has the name of one, and
      a peer has buried it. */
  ghost predicate Risky(site: Site, run: Run, x: string)
  {
    && Names.AtOrUnder(x, run.root) && LiveBeneath(run.start, x)
    && (if run.hold then Winner(site, run.start, x).Some? && Winner(site, run.start, x).value.kind != Directory
        else && site.policy == ConflictCopy && !site.versioning
             && (if x == run.root then NeedsCopy(site, run.start, x)
                 else Buried(site, x) && (NeedsCopy(site, run.start, x) || IsCopyName(site, x))))
  }

  /** A row the run may turn into a tombstone. */
  ghost predicate MayDie(site: Site, run: Run, r: string)
  {
    || r == run.root
    || (Names.Under(r, run.root) && (Deletable(site, run.start, r) || (IsCopyName(site, r) && Buried(site, r))))
  }

  /** A row that was never a conflict copy is as it was, or dead for a reason, and then its own
      copy was made if it needed one. */
  ghost predicate OldRow(site: Site, run: Run, s: St, r: string)
  {
    || Pending.AgreeAt(s.rows, run.start, r)
    || (&& r in s.rows && s.rows[r] == Tombstone(r, VersionAt(run.start, r), site.node)
        && (r == run.root || (Names.Under(r, run.root) && Deletable(site, run.start, r)))
        && (!run.hold && NeedsCopy(site, run.start, r) ==> CopyName(site, run.start[r]) in s.copies))
  }

  /** The counters of all other devices are those the name had at the start. */
  ghost predicate SameHistory(site: Site, run: Run, s: St, r: string)
  {
    forall d: U64 :: d != site.node ==> Get(VersionAt(s.rows, r), d) == Get(VersionAt(run.start, r), d)
  }

  /** A conflict copy is live where it was put, unless a peer has buried that very name. */
  ghost predicate CopiedRow(site: Site, run: Run, s: St, r: string)
  {
    && IsCopyName(site, r) && r in s.rows && !run.hold
    && (Names.Under(r, run.root) || (run.root in run.start && r == CopyName(site, run.start[run.root])))
    && ((Buried(site, r) && Names.Under(r, run.root)) || (Live(s.rows, r) && Placed(s, r)))
  }

  ghost predicate RowOk(site: Site, run: Run, s: St, r: string)
  {
    && (r in s.rows ==> s.rows[r].name == r) && SameHistory(site, run, s, r)
    && (if r in s.copies then CopiedRow(site, run, s, r) else OldRow(site, run, s, r))
  }

  ghost predicate BeneathOk(run: Run, s: St, x: string)
  {
    LiveBeneath(s.rows, x) ==> LiveBeneath(run.start, x)
  }

  /** What was carried off was risky, and its own conflict copy was made. */
  ghost predicate MovedOk(site: Site, run: Run, s: St, x: string)
  {
    x in s.moved ==>
      && Risky(site, run, x)
      && (run.hold || IsCopyName(site, x) || (x in run.start && CopyName(site, run.start[x]) in s.copies))
  }

  /** What lies above something carried off is still in place. */
  ghost predicate AboveOk(s: St, x: string, a: string)
  {
    x in s.moved && Names.Under(x, a) && Live(s.rows, a) ==> Placed(s, a)
  }

  /** Which paths leave the disk. */
  ghost predicate LostOk(site: Site, run: Run, s: St, q: string)
  {
    q in run.before && q !in s.disk ==>
      && Names.AtOrUnder(q, run.root)
      && (run.hold || MayDie(site, run, q) || exists c :: CopyCause(site, run, c) && Names.AtOrUnder(q, c))
  }

  ghost predicate CopyCause(site: Site, run: Run, c: string)
  {
    Names.AtOrUnder(c, run.root) && (NeedsCopy(site, run.start, c) || IsCopyName(site, c))
  }

  ghost predicate Quiet(site: Site, run: Run, s: St)
  {
    (run.hold ==> s.copies == {}) && (!run.hold && site.versioning ==> s.moved == {} && s.copies == {})
  }

  ghost predicate Inv(site: Site, run: Run, s: St)
  {
    && IsTree(s.disk) && Quiet(site, run, s)
    && (forall r :: RowOk(site, run, s, r))
    && (forall x :: BeneathOk(run, s, x))
    && (forall x :: MovedOk(site, run, s, x))
    && (forall x, a :: AboveOk(s, x, a))
    && (forall q :: LostOk(site, run, s, q))
  }

  /** A path applyDeletion is called for: the root, or a row some listing found deletable. */
  ghost predicate Called(site: Site, run: Run, s: St, c: string)
  {
    if c == run.root then Pending.AgreeAt(s.rows, run.start, c) && c !in s.copies
    else
      && Live(s.rows, c) && Names.Under(c, run.root) && Buried(site, c)
      && (c in s.copies || (Pending.AgreeAt(s.rows, run.start, c) && Deletable(site, run.start, c)))
  }

  // ---- each operation keeps it ----

  lemma {:induction false} WinnerComesFromAView(local: FileInfo, views: seq<View>, r: string)
    requires !local.deleted
    ensures var w := Global(Some(local), views, r);
            w.Some? && (w.value.deleted ==> exists v: View :: v in views && r in v && v[r].deleted)
  {
    if views != [] {
      WinnerComesFromAView(local, views[..|views| - 1], r);
    }
  }

  lemma DeletableIsBuried(site: Site, rows: View, r: string)
    requires Deletable(site, rows, r)
    ensures Buried(site, r)
  {
    WinnerComesFromAView(rows[r], site.views, r);
  }

  lemma RenamedLoses(disk: set<string>, c: string, k: string)
    requires c in disk
    ensures forall q :: q in disk && q !in Renamed(disk, c, k) ==> Names.AtOrUnder(q, c)
    ensures k in Renamed(disk, c, k)
  {
    assert k + c[|c|..] == k;
  }

  /** Siblings: the same directories lie above both, and neither lies under the other. */
  ghost predicate Beside(c: string, k: string)
  {
    (forall d :: Names.Under(k, d) <==> Names.Under(c, d)) && !Names.AtOrUnder(k, c) && !Names.AtOrUnder(c, k)
  }

  lemma RenamedTree(disk: set<string>, c: string, k: string)
    requires IsTree(disk) && c in disk && Beside(c, k)
    ensures IsTree(Renamed(disk, c, k))
  {
    forall p, d | p in Renamed(disk, c, k) && Names.Under(p, d) ensures d in Renamed(disk, c, k) {
      if p !in Pruned(disk, c) {
        var q :| q in disk && Names.AtOrUnder(q, c) && p == k + q[|c|..];
        if |d| < |k| {
          assert k[..|d|] == p[..|d|] && k[|d|] == p[|d|];
          assert Names.Under(k, d) && Names.Under(c, d);
          Names.AboveIsALine(c, c, d);
        } else {
          var rest := d[|k|..];
          assert d[..|k|] == p[..|d|][..|k|] == k;
          assert d == k + rest && rest == q[|c|..][..|rest|];
          var e := c + rest;
          assert e == q[..|e|];
          assert Names.Under(q, e) && Names.AtOrUnder(e, c);
          assert e in disk && d == k + e[|c|..];
        }
      }
    }
  }

  lemma CopyNameIsBeside(site: Site, f: FileInfo)
    requires Timed(site)
    ensures Beside(f.name, CopyName(site, f)) && IsCopyName(site, CopyName(site, f))
    ensures Names.Depth(CopyName(site, f)) == Names.Depth(f.name)
  {
    ConflictNames.CopyIsSibling(f.name, site.ts(f), site.node);
  }

  lemma SwallowsIsRisky(site: Site, run: Run, s: St, c: string)
    requires Inv(site, run, s) && Swallows(s, c)
    ensures LiveBeneath(run.start, c)
  {
    assert BeneathOk(run, s, c);
    if y :| y in s.moved && Names.Under(y, c) {
      assert MovedOk(site, run, s, y);
      var r :| Live(run.start, r) && Names.Under(r, y);
      Names.UnderTransitive(r, y, c);
    }
  }

  /** The paths at and under c are gone, nothing else is. */
  ghost predicate LostOnlyAt(disk: set<string>, disk': set<string>, c: string)
  {
    forall q :: q in disk && q !in disk' ==> Names.AtOrUnder(q, c)
  }

  /** Carrying c off leaves every live row but c itself placed as it was. */
  lemma CarriedOff(s: St, t: St, c: string, r: string)
    requires LostOnlyAt(s.disk, t.disk, c) && t.moved == Noted(s, c)
    requires Placed(s, r) && Live(s.rows, r) && r != c
    ensures Placed(t, r)
  {
    if r in s.disk && r !in t.disk {
      assert Names.Under(r, c) && LiveBeneath(s.rows, c);
      assert c in t.moved;
    } else if Excused(s, r) {
      var x :| x in s.moved && Names.AtOrUnder(r, x);
      assert x in t.moved;
    }
  }

  lemma CarriedAbove(s: St, t: St, c: string, x: string, a: string)
    requires IsTree(s.disk) && c in s.disk && LostOnlyAt(s.disk, t.disk, c) && t.moved == Noted(s, c)
    requires AboveOk(s, x, a) && x in t.moved && Names.Under(x, a) && Live(s.rows, a)
    ensures Placed(t, a)
  {
    if a == c {
      if x in s.moved {
        assert Swallows(s, c);
        assert c in t.moved;
      }
    } else if x in s.moved {
      CarriedOff(s, t, c, a);
    } else {
      assert x == c && a in s.disk;
      if Names.Under(a, c) { Names.UnderTransitive(c, a, c); }
    }
  }

  // A conflict copy is made.

  ghost predicate CanCopy(site: Site, run: Run, s: St, c: string)
  {
    && Timed(site) && Inv(site, run, s) && Called(site, run, s, c) && !run.hold && NeedsCopy(site, s.rows, c)
    && MayRename(site, s.disk, c, CopyName(site, s.rows[c]))
  }

  lemma AsideHistory(site: Site, run: Run, s: St, c: string, k: string, r: string)
    requires SameHistory(site, run, s, r)
    ensures SameHistory(site, run, Aside(site, s, c, k), r)
  {
  }

  lemma AsideRow(site: Site, run: Run, s: St, c: string, r: string)
    requires CanCopy(site, run, s, c)
    ensures RowOk(site, run, Aside(site, s, c, CopyName(site, s.rows[c])), r)
  {
    var k := CopyName(site, s.rows[c]);
    var t := Aside(site, s, c, k);
    assert RowOk(site, run, s, c) && RowOk(site, run, s, r);
    AsideHistory(site, run, s, c, k, r);
    CopyNameIsBeside(site, s.rows[c]);
    RenamedLoses(s.disk, c, k);
    if r == k {
      assert c == run.root || Names.Under(k, run.root);
    } else if r in s.copies && !(Buried(site, r) && Names.Under(r, run.root)) {
      CarriedOff(s, t, c, r);
    }
  }

  /** The row of a conflict copy describes what a stat and a hash of the moved file gave, and
      comes after whatever the index had under that name, up to the wrap of the counter. */
  lemma CopySupersedes(site: Site, s: St, c: string)
    requires NeedsCopy(site, s.rows, c) && Executed(site, false, s, c).Some?
    ensures var k, t := CopyName(site, s.rows[c]), Executed(site, false, s, c).value;
            && Live(t.rows, k) && t.rows[k].name == k && t.rows[k].kind == File
            && t.rows[k].size == site.seen(k).size && t.rows[k].blocks == site.seen(k).blocks
            && t.rows[k].modS == site.seen(k).modS && t.rows[k].modNs == site.seen(k).modNs
            && (Compare(t.rows[k].version, VersionAt(s.rows, k)) == Greater <==> Get(VersionAt(s.rows, k), site.node) < MAX_U64)
            && (Get(VersionAt(s.rows, k), site.node) < MAX_U64 ==> Prevails(t.rows[k], k, VersionAt(s.rows, k)))
  {
    var k, t := CopyName(site, s.rows[c]), Executed(site, false, s, c).value;
    BumpIsAbove(VersionAt(s.rows, k), site.node);
    if Get(VersionAt(s.rows, k), site.node) < MAX_U64 { LaterPrevails(t.rows[k], k, VersionAt(s.rows, k)); }
  }

  lemma AsideBeneath(site: Site, run: Run, s: St, c: string, x: string)
    requires CanCopy(site, run, s, c)
    ensures BeneathOk(run, Aside(site, s, c, CopyName(site, s.rows[c])), x)
  {
    var k := CopyName(site, s.rows[c]);
    var t := Aside(site, s, c, k);
    assert RowOk(site, run, s, c);
    CopyNameIsBeside(site, s.rows[c]);
    if r :| Live(t.rows, r) && Names.Under(r, x) {
      assert Live(s.rows, if r == k then c else r) && Names.Under(if r == k then c else r, x);
      assert BeneathOk(run, s, x);
    }
  }

  lemma AsideMoved(site: Site, run: Run, s: St, c: string, x: string)
    requires CanCopy(site, run, s, c)
    ensures MovedOk(site, run, Aside(site, s, c, CopyName(site, s.rows[c])), x)
  {
    assert MovedOk(site, run, s, x);
    if x == c && Swallows(s, c) {
      SwallowsIsRisky(site, run, s, c);
      assert RowOk(site, run, s, c);
    }
  }

  lemma AsideAbove(site: Site, run: Run, s: St, c: string, x: string, a: string)
    requires CanCopy(site, run, s, c)
    ensures AboveOk(Aside(site, s, c, CopyName(site, s.rows[c])), x, a)
  {
    var k := CopyName(site, s.rows[c]);
    var t := Aside(site, s, c, k);
    RenamedLoses(s.disk, c, k);
    assert AboveOk(s, x, a);
    if x in t.moved && Names.Under(x, a) && Live(t.rows, a) && a != k {
      CarriedAbove(s, t, c, x, a);
    }
  }

  lemma AsideLost(site: Site, run: Run, s: St, c: string, q: string)
    requires CanCopy(site, run, s, c)
    ensures LostOk(site, run, Aside(site, s, c, CopyName(site, s.rows[c])), q)
  {
    var k := CopyName(site, s.rows[c]);
    RenamedLoses(s.disk, c, k);
    assert LostOk(site, run, s, q) && RowOk(site, run, s, c);
    if q in run.before && q in s.disk && q !in Renamed(s.disk, c, k) {
      assert CopyCause(site, run, c);
      Names.AtOrUnderTransitive(q, c, run.root);
    }
  }

  lemma AsideKeepsInv(site: Site, run: Run, s: St, c: string)
    requires CanCopy(site, run, s, c)
    ensures Inv(site, run, Aside(site, s, c, CopyName(site, s.rows[c])))
  {
    var k := CopyName(site, s.rows[c]);
    var t := Aside(site, s, c, k);
    assert RowOk(site, run, s, c);
    CopyNameIsBeside(site, s.rows[c]);
    RenamedTree(s.disk, c, k);
    forall r ensures RowOk(site, run, t, r) { AsideRow(site, run, s, c, r); }
    forall x ensures BeneathOk(run, t, x) { AsideBeneath(site, run, s, c, x); }
    forall x ensures MovedOk(site, run, t, x) { AsideMoved(site, run, s, c, x); }
    forall x, a ensures AboveOk(t, x, a) { AsideAbove(site, run, s, c, x, a); }
    forall q ensures LostOk(site, run, t, q) { AsideLost(site, run, s, c, q); }
  }

  // A file is archived.

  lemma ArchivedKeepsInv(site: Site, run: Run, s: St, c: string)
    requires Inv(site, run, s) && Called(site, run, s, c) && !run.hold && site.versioning
    ensures Inv(site, run, Archived(site, s, c))
  {
    var t := Archived(site, s, c);
    forall r ensures RowOk(site, run, t, r) { assert RowOk(site, run, s, r); }
    forall x ensures BeneathOk(run, t, x) { assert BeneathOk(run, s, x); }
    forall x ensures MovedOk(site, run, t, x) {}
    forall x, a ensures AboveOk(t, x, a) {}
    forall q ensures LostOk(site, run, t, q) { assert LostOk(site, run, s, q) && RowOk(site, run, s, c); }
  }

  // A copy goes to the hold area.

  ghost predicate CanLift(site: Site, run: Run, s: St, c: string)
  {
    && Inv(site, run, s) && Called(site, run, s, c) && run.hold && c in s.disk
    && Winner(site, s.rows, c).Some? && Winner(site, s.rows, c).value.kind != Directory
  }

  lemma LiftedKeepsInv(site: Site, run: Run, s: St, c: string)
    requires CanLift(site, run, s, c)
    ensures Inv(site, run, Lifted(s, c))
  {
    var t := Lifted(s, c);
    forall r ensures RowOk(site, run, t, r) { assert RowOk(site, run, s, r); }
    forall x ensures BeneathOk(run, t, x) { assert BeneathOk(run, s, x); }
    forall x ensures MovedOk(site, run, t, x) {
      assert MovedOk(site, run, s, x);
      if x == c && Swallows(s, c) { SwallowsIsRisky(site, run, s, c); }
    }
    forall x, a ensures AboveOk(t, x, a) {
      assert AboveOk(s, x, a);
      if x in t.moved && Names.Under(x, a) && Live(t.rows, a) { CarriedAbove(s, t, c, x, a); }
    }
    forall q ensures LostOk(site, run, t, q) {
      assert LostOk(site, run, s, q);
      if q in run.before && q in s.disk && q !in t.disk { Names.AtOrUnderTransitive(q, c, run.root); }
    }
  }

  // The tombstone is recorded.

  ghost predicate CanEntomb(site: Site, run: Run, s: St, c: string)
  {
    && Inv(site, run, s) && Called(site, run, s, c)
    && (!run.hold && NeedsCopy(site, s.rows, c) ==> CopyName(site, s.rows[c]) in s.copies)
  }

  lemma EntombedRow(site: Site, run: Run, s: St, c: string, r: string)
    requires CanEntomb(site, run, s, c)
    ensures RowOk(site, run, Entombed(site, s, c), r)
  {
    assert RowOk(site, run, s, r);
  }

  lemma EntombedKeepsInv(site: Site, run: Run, s: St, c: string)
    requires CanEntomb(site, run, s, c)
    ensures Inv(site, run, Entombed(site, s, c)) && !Live(Entombed(site, s, c).rows, c)
  {
    var t := Entombed(site, s, c);
    forall r ensures RowOk(site, run, t, r) { EntombedRow(site, run, s, c, r); }
    forall x ensures BeneathOk(run, t, x) {
      assert BeneathOk(run, s, x);
      if r :| Live(t.rows, r) && Names.Under(r, x) { assert Live(s.rows, r); }
    }
    forall x ensures MovedOk(site, run, t, x) { assert MovedOk(site, run, s, x); }
    forall x, a ensures AboveOk(t, x, a) { assert AboveOk(s, x, a); }
    forall q ensures LostOk(site, run, t, q) { assert LostOk(site, run, s, q) && RowOk(site, run, s, c); }
  }

  // ---- what an operation leaves alone ----

  /** A live row that is neither on disk nor carried off. */
  ghost predicate Astray(s: St, r: string)
  {
    Live(s.rows, r) && !Placed(s, r)
  }

  /** No row but c goes astray. */
  ghost predicate StrayOk(s: St, t: St, c: string, r: string)
  {
    Astray(t, r) && r != c ==> Astray(s, r) && Pending.AgreeAt(t.rows, s.rows, r)
  }

  ghost predicate NoneStray(s: St, t: St, c: string)
  {
    forall r :: StrayOk(s, t, c, r)
  }

  /** Rows outside the subtree of c change only into live conflict copies beside c. */
  ghost predicate RowFrame(s: St, t: St, c: string, r: string)
  {
    !Names.AtOrUnder(r, c) ==> Pending.AgreeAt(t.rows, s.rows, r) || (r in t.copies && Live(t.rows, r) && Beside(c, r))
  }

  ghost predicate Frame(s: St, t: St, c: string)
  {
    && LostOnlyAt(s.disk, t.disk, c) && s.moved <= t.moved && s.copies <= t.copies
    && (forall r :: RowFrame(s, t, c, r))
  }

  /** The row of c is still there, but the conflict copy has been made if it was due. */
  ghost predicate Prepared(site: Site, run: Run, s: St, t: St, c: string)
  {
    && Inv(site, run, t) && Frame(s, t, c) && NoneStray(s, t, c) && Pending.AgreeAt(t.rows, s.rows, c)
    && (forall r :: Names.Under(r, c) ==> Pending.AgreeAt(t.rows, s.rows, r))
    && (!run.hold && NeedsCopy(site, s.rows, c) ==> CopyName(site, s.rows[c]) in t.copies)
    && Called(site, run, t, c)
  }

  lemma AsidePrepares(site: Site, run: Run, s: St, c: string)
    requires CanCopy(site, run, s, c)
    ensures Prepared(site, run, s, Aside(site, s, c, CopyName(site, s.rows[c])), c)
  {
    AsideKeepsInv(site, run, s, c);
    AsideIsBeside(site, run, s, c);
    AsideFrame(site, s, c, CopyName(site, s.rows[c]));
  }

  lemma AsideIsBeside(site: Site, run: Run, s: St, c: string)
    requires CanCopy(site, run, s, c)
    ensures Beside(c, CopyName(site, s.rows[c]))
  {
    assert RowOk(site, run, s, c);
    CopyNameIsBeside(site, s.rows[c]);
  }

  lemma AsideFrame(site: Site, s: St, c: string, k: string)
    requires c in s.disk && Beside(c, k)
    ensures Frame(s, Aside(site, s, c, k), c) && NoneStray(s, Aside(site, s, c, k), c)
    ensures forall r :: Names.AtOrUnder(r, c) ==> Pending.AgreeAt(Aside(site, s, c, k).rows, s.rows, r)
  {
    var t := Aside(site, s, c, k);
    RenamedLoses(s.disk, c, k);
    forall r ensures StrayOk(s, t, c, r) {
      if Astray(t, r) && r != c && r != k && Placed(s, r) { CarriedOff(s, t, c, r); }
    }
    forall r ensures RowFrame(s, t, c, r) {}
  }

  lemma ExcuseStays(s: St, t: St, r: string)
    requires s.moved <= t.moved && Excused(s, r)
    ensures Excused(t, r)
  {
    var x :| x in s.moved && Names.AtOrUnder(r, x);
    assert x in t.moved;
  }

  lemma FrameTransitive(s: St, t: St, u: St, c: string)
    requires Frame(s, t, c) && Frame(t, u, c)
    ensures Frame(s, u, c)
    ensures NoneStray(s, t, c) && NoneStray(t, u, c) ==> NoneStray(s, u, c)
  {
    forall r ensures RowFrame(s, u, c, r) { assert RowFrame(s, t, c, r) && RowFrame(t, u, c, r); }
    if NoneStray(s, t, c) && NoneStray(t, u, c) {
      forall r ensures StrayOk(s, u, c, r) { assert StrayOk(s, t, c, r) && StrayOk(t, u, c, r); }
    }
  }

  /** Execute keeps the invariant and touches nothing beneath the path in the index. */
  lemma ExecutedPrepares(site: Site, run: Run, s: St, c: string)
    requires Timed(site) && Inv(site, run, s) && Called(site, run, s, c) && Executed(site, run.hold, s, c).Some?
    ensures Prepared(site, run, s, Executed(site, run.hold, s, c).value, c)
  {
    if run.hold || !Live(s.rows, c) || (!site.versioning && !NeedsCopy(site, s.rows, c)) {
    } else if site.versioning {
      ArchivedKeepsInv(site, run, s, c);
    } else {
      AsidePrepares(site, run, s, c);
    }
  }
}

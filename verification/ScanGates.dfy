/** The scanner's two safety gates over whole scan histories (internal/scanner/scanner.go
    scanScoped, confirmDeletions, unsettledKeys; index.go settling and missing tables). */
module ScanGates {
  import opened Entries
  import opened GlobalModel
  import Names

  /** The (size, mtime) identity a rename preserves. */
  datatype Key = Key(size: int, modS: int, modNs: int)

  /** A row of the settling table. */
  datatype Settle = Settle(key: Key, count: int, first: int)

  /** A row of the missing table. */
  datatype Missing = Missing(count: int, first: int)

  datatype Config = Config(settleScans: int, settleSeconds: int, deletionScans: int)

  /** How a pass ends: before the deletion stage, after it but cancelled before the settling
      table is written, or in full. */
  datatype End = Early | Late | Complete

  /** One scan pass as observed: what was walked (`found` holds the regular files and their
      stats, `seen` every path met), the index at the time, the deletions left after rename
      pairing (`missed`), and files whose stat moved while they were hashed (`drift`). */
  datatype Pass = Pass(scope: seq<string>, now: int, gateOn: bool, forced: bool, rows: View,
                       found: map<string, Key>, seen: set<string>, missed: set<string>,
                       drift: map<string, Key>, end: End)

  datatype Tables = Tables(settling: map<string, Settle>, missing: map<string, Missing>, held: map<string, Settle>)

  function KeyOf(f: FileInfo): Key
  {
    Key(f.size, f.modS, f.modNs)
  }

  /** An empty scope is the whole folder. */
  predicate InScope(scope: seq<string>, name: string)
  {
    scope == [] || exists i :: 0 <= i < |scope| && (name == scope[i] || Names.Under(name, scope[i]))
  }

  /** The part of a table a pass does not speak for. */
  function Outside<V>(m: map<string, V>, scope: seq<string>): map<string, V>
  {
    map n | n in m && !InScope(scope, n) :: m[n]
  }

  predicate ReachesDeletions(p: Pass)
  {
    p.end != Early
  }

  /** The walk stays inside its scope; a missed path is a live row in scope that was not seen;
      only files the gate released are hashed, so only they can drift. */
  ghost predicate Sane(cfg: Config, t: Tables, p: Pass)
  {
    && (forall n :: n in p.found ==> n in p.seen && InScope(p.scope, n))
    && (forall n :: n in p.missed ==> n !in p.seen && InScope(p.scope, n) && n in p.rows && !p.rows[n].deleted && p.rows[n].name == n)
    && (forall n :: n in p.drift ==> n in Released(cfg, t, p))
  }

  // ---- the stability gate ----

  datatype Verdict = Unchanged | Hold(row: Settle) | Hash(first: int)

  /** The walk's decision about one regular file. */
  function Judge(cfg: Config, settling: map<string, Settle>, p: Pass, n: string, key: Key): Verdict
  {
    if n in p.rows && KeyOf(p.rows[n]) == key && !p.forced then Unchanged
    else if !p.gateOn || p.forced then Hash(p.now)
    else
      var again := n in settling && settling[n].key == key;
      var count := if again then settling[n].count + 1 else 1;
      var first := if again then settling[n].first else p.now;
      var windowOpen := cfg.settleScans > 1 && cfg.settleSeconds > 0 && p.now - first < cfg.settleSeconds;
      if count < cfg.settleScans || windowOpen then Hold(Settle(key, count, first)) else Hash(first)
  }

  /** The files the gate lets through to hashing. */
  function Released(cfg: Config, t: Tables, p: Pass): set<string>
  {
    set n | n in p.found && Judge(cfg, t.settling, p, n, p.found[n]).Hash?
  }

  /** The rows of files held back by the walk. */
  function HeldBack(cfg: Config, t: Tables, p: Pass): map<string, Settle>
  {
    map n | n in p.found && Judge(cfg, t.settling, p, n, p.found[n]).Hold? :: Judge(cfg, t.settling, p, n, p.found[n]).row
  }

  /** A file whose stat moved while it was read starts over from what was read. */
  function Drifted(cfg: Config, t: Tables, p: Pass): map<string, Settle>
  {
    map n | n in p.drift :: Settle(p.drift[n], 1, FirstOf(cfg, t, p, n))
  }

  function FirstOf(cfg: Config, t: Tables, p: Pass, n: string): int
  {
    if n in p.found then
      match Judge(cfg, t.settling, p, n, p.found[n]) case Hash(first) => first case _ => p.now
    else p.now
  }

  /** The pass itself holds n back: its stat moved while it was read, or the walk said so. */
  predicate Holds(cfg: Config, t: Tables, p: Pass, n: string)
  {
    n in p.drift || (n in p.found && Judge(cfg, t.settling, p, n, p.found[n]).Hold?)
  }

  /** The row of n after a complete pass: a fresh one after a drift, the walk's, or the old one
      of a table where the pass did not look. */
  function RowAfter(cfg: Config, t: Tables, p: Pass, kept: map<string, Settle>, n: string): Settle
  {
    if n in p.drift then Settle(p.drift[n], 1, FirstOf(cfg, t, p, n))
    else if Holds(cfg, t, p, n) then Judge(cfg, t.settling, p, n, p.found[n]).row
    else if n in kept then kept[n]
    else Settle(Key(0, 0, 0), 0, 0)
  }

  /** A table after a complete pass that speaks for its scope only. */
  function TableAfter(cfg: Config, t: Tables, p: Pass, kept: map<string, Settle>): map<string, Settle>
  {
    map n | n in kept.Keys + p.found.Keys + p.drift.Keys && (Holds(cfg, t, p, n) || (n in kept && !InScope(p.scope, n)))
         :: RowAfter(cfg, t, p, kept, n)
  }

  /** The settling table a complete pass writes. */
  function NextSettling(cfg: Config, t: Tables, p: Pass): map<string, Settle>
  {
    TableAfter(cfg, t, p, t.settling)
  }

  /** What the walk does with a regular file it meets, gate by gate: a forced pass hashes it; any
      other leaves it alone while size and time are those of its row, and hashes it at once when
      the gate is off; under the gate it is hashed or held, never both. Only a file that is held
      or drifts keeps a settling row. */
  lemma WalkDecides(cfg: Config, t: Tables, p: Pass, n: string)
    requires n in p.found && Sane(cfg, t, p)
    ensures p.forced ==> n in Released(cfg, t, p)
    ensures !p.forced ==>
              && (n in p.rows && KeyOf(p.rows[n]) == p.found[n] ==> n !in Released(cfg, t, p) && n !in HeldBack(cfg, t, p))
              && (!(n in p.rows && KeyOf(p.rows[n]) == p.found[n]) ==>
                    && (!p.gateOn ==> n in Released(cfg, t, p))
                    && (n in Released(cfg, t, p) <==> n !in HeldBack(cfg, t, p)))
    ensures n in NextSettling(cfg, t, p) <==> n in HeldBack(cfg, t, p) || n in p.drift
  {
  }

  /** A file whose stat moved while it was hashed starts a new count with the stat after hashing,
      but keeps the window it was released from. */
  lemma DriftRestarts(cfg: Config, t: Tables, p: Pass, n: string)
    requires Sane(cfg, t, p) && n in p.drift
    ensures n in NextSettling(cfg, t, p)
    ensures NextSettling(cfg, t, p)[n].key == p.drift[n] && NextSettling(cfg, t, p)[n].count == 1
    ensures NextSettling(cfg, t, p)[n].first ==
            if p.gateOn && !p.forced && n in t.settling && t.settling[n].key == p.found[n] then t.settling[n].first else p.now
  {
  }

  /** A scope covers its paths and everything under what it covers. */
  lemma ScopeIsClosed(scope: seq<string>, n: string, d: string)
    ensures d in scope ==> InScope(scope, d)
    ensures InScope(scope, d) && Names.Under(n, d) ==> InScope(scope, n)
    ensures scope != [] && InScope(scope, n) ==> exists s :: s in scope && Names.AtOrUnder(n, s)
  {
    if InScope(scope, d) && Names.Under(n, d) && scope != [] {
      var i :| 0 <= i < |scope| && (d == scope[i] || Names.Under(d, scope[i]));
      Names.AtOrUnderTransitive(n, d, scope[i]);
    }
    if scope != [] && InScope(scope, n) {
      var i :| 0 <= i < |scope| && (n == scope[i] || Names.Under(n, scope[i]));
      assert scope[i] in scope;
    }
  }

  // ---- the deletion gate ----

  /** unsettledKeys: the identities of files still settling, before or after this walk. */
  function UnsettledKeys(cfg: Config, t: Tables, p: Pass): set<Key>
  {
    (set n | n in t.settling :: t.settling[n].key)
    + set n | n in NextSettling(cfg, t, p) :: NextSettling(cfg, t, p)[n].key
  }

  /** A missed path that may be the old half of a rename whose new half is still settling. */
  predicate Waits(f: FileInfo, unsettled: set<Key>)
  {
    f.kind == File && |f.blocks| > 0 && KeyOf(f) in unsettled
  }

  /** The waiting path itself or a directory above it. */
  predicate AtOrAbove(a: string, n: string)
  {
    a != "" && (a == n || Names.Under(n, a))
  }

  ghost predicate Deferred(p: Pass, unsettled: set<Key>, a: string)
  {
    exists n :: n in p.missed && n in p.rows && Waits(p.rows[n], unsettled) && AtOrAbove(a, n)
  }

  /** The confirmation count after one more miss. */
  function Counted(missing: map<string, Missing>, n: string, now: int): Missing
  {
    if n in missing then missing[n].(count := missing[n].count + 1) else Missing(1, now)
  }

  /** A deletion that has its count: the gate lets it through and drops it from the table. */
  ghost predicate CountedOut(cfg: Config, t: Tables, p: Pass, n: string)
  {
    && ReachesDeletions(p) && n in p.missed
    && (cfg.deletionScans > 1 ==>
          Counted(t.missing, n, p.now).count >= cfg.deletionScans && !Deferred(p, UnsettledKeys(cfg, t, p), n))
  }

  /** A deletion the pass reports. A pass cancelled after the deletion stage returns nothing. */
  ghost predicate Reported(cfg: Config, t: Tables, p: Pass, n: string)
  {
    p.end == Complete && CountedOut(cfg, t, p, n)
  }

  /** The missing table after the deletion stage. */
  ghost function NextMissing(cfg: Config, t: Tables, p: Pass): map<string, Missing>
  {
    if cfg.deletionScans <= 1 then map[]
    else map n | n in t.missing.Keys + p.missed
                 && (if n in p.missed then !CountedOut(cfg, t, p, n) else !InScope(p.scope, n))
              :: if n in p.missed then Counted(t.missing, n, p.now) else t.missing[n]
  }

  /** The in-flight set a complete pass publishes: for each file its settling row, of which
      size, start time and count are shown. */
  function NextHeld(cfg: Config, t: Tables, p: Pass): map<string, Settle>
  {
    TableAfter(cfg, t, p, t.held)
  }

  ghost function Step(cfg: Config, t: Tables, p: Pass): Tables
  {
    Tables(if p.end == Complete then NextSettling(cfg, t, p) else t.settling,
           if ReachesDeletions(p) then NextMissing(cfg, t, p) else t.missing,
           if p.end == Complete then NextHeld(cfg, t, p) else t.held)
  }

  // ---- histories ----

  ghost function After(cfg: Config, h: seq<Pass>): Tables
  {
    if h == [] then Tables(map[], map[], map[]) else Step(cfg, After(cfg, h[..|h| - 1]), h[|h| - 1])
  }

  ghost predicate History(cfg: Config, h: seq<Pass>)
  {
    h == [] || (History(cfg, h[..|h| - 1]) && Sane(cfg, After(cfg, h[..|h| - 1]), h[|h| - 1]))
  }

  /** The latest covering passes that reached the deletion stage and did not see n. */
  ghost function MissStreak(h: seq<Pass>, n: string): nat
  {
    if h == [] then 0
    else
      var p, before := h[|h| - 1], h[..|h| - 1];
      if !ReachesDeletions(p) || !InScope(p.scope, n) then MissStreak(before, n)
      else if n in p.seen then 0
      else 1 + MissStreak(before, n)
  }

  lemma {:induction false} CountIsBacked(cfg: Config, h: seq<Pass>, n: string)
    requires cfg.deletionScans > 1 && History(cfg, h)
    ensures n in After(cfg, h).missing ==> 1 <= After(cfg, h).missing[n].count <= MissStreak(h, n)
  {
    if h != [] {
      CountIsBacked(cfg, h[..|h| - 1], n);
    }
  }

  /** Over any history of full and scoped passes, a deletion is reported only after the path
      was unseen in at least deletionScans consecutive covering passes. */
  lemma DeletionIsConfirmed(cfg: Config, h: seq<Pass>, p: Pass, n: string)
    requires cfg.deletionScans > 1 && History(cfg, h) && Sane(cfg, After(cfg, h), p)
    requires Reported(cfg, After(cfg, h), p, n)
    ensures MissStreak(h + [p], n) >= cfg.deletionScans
  {
    CountIsBacked(cfg, h, n);
    assert (h + [p])[..|h|] == h;
  }

  /** The latest covering passes that all left n unexplained and did not report it. */
  ghost function Suspicion(cfg: Config, h: seq<Pass>, n: string): nat
  {
    if h == [] then 0
    else
      var p, before := h[|h| - 1], h[..|h| - 1];
      if !ReachesDeletions(p) || !InScope(p.scope, n) then Suspicion(cfg, before, n)
      else if n in p.missed && !CountedOut(cfg, After(cfg, before), p, n) then 1 + Suspicion(cfg, before, n)
      else 0
  }

  /** The time of the first of them. */
  ghost function SuspectSince(cfg: Config, h: seq<Pass>, n: string): int
  {
    if h == [] then 0
    else
      var p, before := h[|h| - 1], h[..|h| - 1];
      if ReachesDeletions(p) && InScope(p.scope, n) && Suspicion(cfg, before, n) == 0 then p.now
      else SuspectSince(cfg, before, n)
  }

  lemma {:induction false} CountIsExact(cfg: Config, h: seq<Pass>, n: string)
    requires cfg.deletionScans > 1 && History(cfg, h)
    ensures n in After(cfg, h).missing <==> Suspicion(cfg, h, n) > 0
    ensures n in After(cfg, h).missing ==> After(cfg, h).missing[n] == Missing(Suspicion(cfg, h, n), SuspectSince(cfg, h, n))
  {
    if h != [] {
      CountIsExact(cfg, h[..|h| - 1], n);
    }
  }

  /** Some file of this size and time is still settling: the table has it, its stat moved while
      this pass read it, or this pass judges it too fresh. */
  ghost predicate StillSettling(cfg: Config, t: Tables, p: Pass, k: Key)
  {
    || (exists m :: m in t.settling && t.settling[m].key == k)
    || (exists m :: m in p.drift && p.drift[m] == k)
    || (exists m :: m in p.found && m !in p.drift && p.found[m] == k && Judge(cfg, t.settling, p, m, k).Hold?)
  }

  /** The missed path m is a hashed file, and a file still settling may be its new place. */
  ghost predicate Awaited(cfg: Config, t: Tables, p: Pass, m: string)
  {
    && m in p.missed && m in p.rows && p.rows[m].kind == File && |p.rows[m].blocks| > 0
    && StillSettling(cfg, t, p, KeyOf(p.rows[m]))
  }

  /** A rename may still claim n or, for a directory, a missed path under it. */
  ghost predicate Claimable(cfg: Config, t: Tables, p: Pass, n: string)
  {
    n != "" && exists m :: Awaited(cfg, t, p, m) && (m == n || Names.Under(m, n))
  }

  lemma UnsettledIsSettling(cfg: Config, t: Tables, p: Pass, k: Key)
    ensures k in UnsettledKeys(cfg, t, p) <==> StillSettling(cfg, t, p, k)
  {
    var next := NextSettling(cfg, t, p);
    if m :| m in p.drift && p.drift[m] == k {
      assert m in next && next[m].key == k;
    }
    if m :| m in p.found && m !in p.drift && p.found[m] == k && Judge(cfg, t.settling, p, m, k).Hold? {
      assert m in next && next[m].key == k;
    }
  }

  lemma DeferredIsClaimable(cfg: Config, t: Tables, p: Pass, n: string)
    ensures Deferred(p, UnsettledKeys(cfg, t, p), n) <==> Claimable(cfg, t, p, n)
  {
    forall m ensures m in p.missed && m in p.rows && Waits(p.rows[m], UnsettledKeys(cfg, t, p)) <==> Awaited(cfg, t, p, m) {
      if m in p.rows { UnsettledIsSettling(cfg, t, p, KeyOf(p.rows[m])); }
    }
  }

  /** A missed path is reported exactly when the pass completes, this is the path's
      deletionScans-th consecutive unexplained miss, and no rename may still claim it. */
  lemma DeletionIsReported(cfg: Config, h: seq<Pass>, p: Pass, n: string)
    requires cfg.deletionScans > 1 && History(cfg, h) && Sane(cfg, After(cfg, h), p)
    ensures Reported(cfg, After(cfg, h), p, n) <==>
              && p.end == Complete && n in p.missed && Suspicion(cfg, h, n) + 1 >= cfg.deletionScans
              && !Claimable(cfg, After(cfg, h), p, n)
  {
    CountIsExact(cfg, h, n);
    DeferredIsClaimable(cfg, After(cfg, h), p, n);
  }

  /** A missed path is neither reported nor remembered. */
  ghost predicate Forgotten(cfg: Config, t: Tables, p: Pass, n: string)
  {
    ReachesDeletions(p) && n in p.missed && !Reported(cfg, t, p, n) && n !in Step(cfg, t, p).missing
  }

  /** The one way to lose a confirmation: a pass cancelled after the deletion stage forgets
      exactly the deletions that were due in it, and their count starts over. */
  lemma LateCancelForgets(cfg: Config, h: seq<Pass>, p: Pass, n: string)
    requires cfg.deletionScans > 1 && History(cfg, h) && Sane(cfg, After(cfg, h), p)
    ensures Forgotten(cfg, After(cfg, h), p, n) <==>
              && p.end == Late && n in p.missed && Suspicion(cfg, h, n) + 1 >= cfg.deletionScans
              && !Claimable(cfg, After(cfg, h), p, n)
    ensures Forgotten(cfg, After(cfg, h), p, n) ==> Suspicion(cfg, h + [p], n) == 0
  {
    CountIsExact(cfg, h, n);
    DeferredIsClaimable(cfg, After(cfg, h), p, n);
    assert (h + [p])[..|h|] == h;
  }

  function Gone(n: string): FileInfo
  {
    FileInfo(n, 1, 7, 0, 0, File, false, false, map[1 := 1], 1, 1, [Sha256([0])])
  }

  /** "f" is missing; in the second pass "g" as well, for the first time, so that something is
      still remembered as missing after it. */
  function Vanishing(missed: set<string>, end: End): Pass
  {
    Pass([], 0, false, false, map["f" := Gone("f"), "g" := Gone("g")], map[], {"f", "g"} - missed, missed, map[], end)
  }

  lemma OneMiss(cfg: Config, first: Pass)
    requires cfg == Config(1, 0, 2) && first == Vanishing({"f"}, Complete)
    ensures History(cfg, [first])
    ensures var t := After(cfg, [first]); "f" in t.missing && t.missing["f"].count == 1
  {
    var t0 := Tables(map[], map[], map[]);
    assert [first][..0] == [] && After(cfg, []) == t0 && History(cfg, []);
    assert Sane(cfg, t0, first);
    assert Counted(t0.missing, "f", 0).count == 1;
    assert "f" in NextMissing(cfg, t0, first);
  }

  lemma SecondMiss(cfg: Config, t: Tables, p: Pass)
    requires cfg == Config(1, 0, 2) && p == Vanishing({"f", "g"}, Late) && "f" in t.missing && t.missing["f"].count == 1
    requires Key(1, 7, 0) !in UnsettledKeys(cfg, t, p)
    ensures Sane(cfg, t, p) && Forgotten(cfg, t, p, "f")
  {
    assert Counted(t.missing, "f", p.now).count == 2;
    assert !Deferred(p, UnsettledKeys(cfg, t, p), "f");
  }

  lemma NothingSettles(cfg: Config, first: Pass, second: Pass)
    requires cfg == Config(1, 0, 2) && first == Vanishing({"f"}, Complete) && second == Vanishing({"f", "g"}, Late)
    ensures Key(1, 7, 0) !in UnsettledKeys(cfg, After(cfg, [first]), second)
  {
    var t0 := Tables(map[], map[], map[]);
    assert [first][..0] == [] && After(cfg, []) == t0;
    assert forall n :: n !in NextSettling(cfg, t0, first);
    assert forall n :: n !in NextSettling(cfg, After(cfg, [first]), second);
  }

  /** A file missing in two passes, the second cancelled late: confirmed, and forgotten. */
  lemma LateCancelHappens()
    ensures exists cfg: Config, h: seq<Pass>, p: Pass, n: string ::
              cfg.deletionScans > 1 && History(cfg, h) && Sane(cfg, After(cfg, h), p) && Forgotten(cfg, After(cfg, h), p, n)
  {
    var cfg, first, second := Config(1, 0, 2), Vanishing({"f"}, Complete), Vanishing({"f", "g"}, Late);
    OneMiss(cfg, first);
    NothingSettles(cfg, first, second);
    SecondMiss(cfg, After(cfg, [first]), second);
  }

  /** A covering pass that sees the path forgets it; a pass that does not cover it, or ends
      before the deletion stage, keeps its count. */
  lemma SightingResets(cfg: Config, t: Tables, p: Pass, n: string)
    requires cfg.deletionScans > 1 && Sane(cfg, t, p)
    ensures ReachesDeletions(p) && InScope(p.scope, n) && n in p.seen ==> n !in Step(cfg, t, p).missing
    ensures !ReachesDeletions(p) || !InScope(p.scope, n) ==>
              (n in Step(cfg, t, p).missing <==> n in t.missing)
              && (n in t.missing ==> Step(cfg, t, p).missing[n] == t.missing[n])
  {
  }

  /** No deletion goes out for a hashed file whose size and time a file still settling has, nor
      for a directory above a missed one that does: it stays in the table with its full count. A
      path that no such file can claim goes out as soon as it has its count. */
  lemma RenameHalvesStayTogether(cfg: Config, t: Tables, p: Pass, n: string)
    requires cfg.deletionScans > 1 && Sane(cfg, t, p) && n in p.missed && n != "" && ReachesDeletions(p)
    ensures forall m :: Awaited(cfg, t, p, m) && (m == n || Names.Under(m, n)) ==>
              && !CountedOut(cfg, t, p, n) && n in Step(cfg, t, p).missing
              && Step(cfg, t, p).missing[n].count == 1 + if n in t.missing then t.missing[n].count else 0
    ensures (forall m :: Awaited(cfg, t, p, m) ==> m != n && !Names.Under(m, n)) ==>
              (CountedOut(cfg, t, p, n) <==> 1 + (if n in t.missing then t.missing[n].count else 0) >= cfg.deletionScans)
  {
    DeferredIsClaimable(cfg, t, p, n);
  }

  /** The blocks matter: the deletion of a file without block hashes (an empty file, or one
      never hashed) goes out once counted, although a settling file has its size and mtime. */
  lemma UnhashedDeletionIsNotDeferred(cfg: Config, t: Tables, p: Pass, n: string)
    requires cfg.deletionScans > 1 && Sane(cfg, t, p) && n in p.missed && ReachesDeletions(p)
    requires p.rows[n].kind == File && p.rows[n].blocks == []
    requires forall m :: Names.Under(m, n) ==> !Awaited(cfg, t, p, m)
    ensures CountedOut(cfg, t, p, n) <==> 1 + (if n in t.missing then t.missing[n].count else 0) >= cfg.deletionScans
  {
    DeferredIsClaimable(cfg, t, p, n);
  }

  /** A file renamed from "old" to "new": the new path is held, the old one missed; in the second
      pass another file is missed as well, for the first time, and stays remembered. */
  function Renaming(from: FileInfo, missed: set<string>): Pass
  {
    Pass([], 0, true, false, map["old" := from, "more" := Gone("more")], map["new" := KeyOf(from)],
         {"new"} + ({"more"} - missed), missed, map[], Complete)
  }

  function EmptyOne(): FileInfo
  {
    FileInfo("old", 0, 7, 0, 0, File, false, false, map[1 := 1], 1, 0, [])
  }

  lemma FirstSight(cfg: Config, from: FileInfo, p: Pass)
    requires cfg == Config(3, 0, 2) && from.name == "old" && !from.deleted && p == Renaming(from, {"old"})
    ensures History(cfg, [p])
    ensures var t := After(cfg, [p]);
            && "new" in t.settling && t.settling["new"] == Settle(KeyOf(from), 1, 0)
            && "old" in t.missing && t.missing["old"].count == 1
  {
    var t0 := Tables(map[], map[], map[]);
    assert [p][..0] == [] && After(cfg, []) == t0 && History(cfg, []);
    assert Sane(cfg, t0, p);
    assert Judge(cfg, t0.settling, p, "new", KeyOf(from)) == Hold(Settle(KeyOf(from), 1, 0));
    assert "new" in HeldBack(cfg, t0, p);
    assert Counted(t0.missing, "old", 0).count == 1;
    assert "old" in NextMissing(cfg, t0, p);
  }

  /** The old path has its count while the pass still holds a file of its size and time. */
  ghost predicate DueWhileHeld(cfg: Config, t: Tables, p: Pass, n: string, m: string)
  {
    && Sane(cfg, t, p) && p.end == Complete && n in p.missed && n in t.missing && t.missing[n].count + 1 >= cfg.deletionScans
    && p.rows[n].kind == File && m in p.found && KeyOf(p.rows[n]) == p.found[m] && m in Step(cfg, t, p).settling
  }

  lemma SecondSight(cfg: Config, from: FileInfo, t: Tables, p: Pass)
    requires cfg == Config(3, 0, 2) && from.name == "old" && !from.deleted && from.kind == File && p == Renaming(from, {"old", "more"})
    requires "new" in t.settling && t.settling["new"] == Settle(KeyOf(from), 1, 0)
    requires "old" in t.missing && t.missing["old"].count == 1
    ensures DueWhileHeld(cfg, t, p, "old", "new")
    ensures Reported(cfg, t, p, "old") <==> from.blocks == []
  {
    assert Judge(cfg, t.settling, p, "new", KeyOf(from)) == Hold(Settle(KeyOf(from), 2, 0));
    assert "new" in HeldBack(cfg, t, p);
    assert Counted(t.missing, "old", p.now).count == 2;
    DeferredIsClaimable(cfg, t, p, "old");
    if from.blocks != [] { assert Awaited(cfg, t, p, "old"); }
  }

  /** Two passes over that rename of an empty file: the deletion goes out although the pass
      finds, and still holds, a file with the old one's size and mtime. */
  lemma EmptyFileGoesOutEarly()
    ensures exists cfg: Config, h: seq<Pass>, p: Pass, n: string, m: string ::
              History(cfg, h) && DueWhileHeld(cfg, After(cfg, h), p, n, m) && Reported(cfg, After(cfg, h), p, n)
  {
    var cfg, first, p := Config(3, 0, 2), Renaming(EmptyOne(), {"old"}), Renaming(EmptyOne(), {"old", "more"});
    FirstSight(cfg, EmptyOne(), first);
    SecondSight(cfg, EmptyOne(), After(cfg, [first]), p);
  }

  /** Two passes over that rename of a hashed file: the deletion has its count and is deferred. */
  lemma RenameIsDeferred()
    ensures exists cfg: Config, h: seq<Pass>, p: Pass, n: string, m: string ::
              && History(cfg, h) && DueWhileHeld(cfg, After(cfg, h), p, n, m) && !Reported(cfg, After(cfg, h), p, n)
              && n in Step(cfg, After(cfg, h), p).missing
  {
    var cfg, first, p := Config(3, 0, 2), Renaming(Gone("old"), {"old"}), Renaming(Gone("old"), {"old", "more"});
    FirstSight(cfg, Gone("old"), first);
    SecondSight(cfg, Gone("old"), After(cfg, [first]), p);
    assert "old" in Step(cfg, After(cfg, [first]), p).missing;
  }

  // ---- the settle history ----

  /** The stat a pass is left with for n: the one after hashing if it moved. */
  predicate Observes(p: Pass, n: string, key: Key)
  {
    if n in p.drift then p.drift[n] == key else n in p.found && p.found[n] == key
  }

  predicate Records(p: Pass, n: string)
  {
    p.end == Complete && InScope(p.scope, n)
  }

  /** The latest recorded covering passes that all saw exactly this stat. */
  ghost function StableStreak(h: seq<Pass>, n: string, key: Key): nat
  {
    if h == [] then 0
    else
      var p, before := h[|h| - 1], h[..|h| - 1];
      if !Records(p, n) then StableStreak(before, n, key)
      else if Observes(p, n, key) then 1 + StableStreak(before, n, key)
      else 0
  }

  /** Pass k belongs to the latest unbroken run of this stat. */
  ghost predicate InRun(h: seq<Pass>, k: nat, n: string, key: Key)
  {
    k < |h| && Records(h[k], n) && forall j :: k <= j < |h| && Records(h[j], n) ==> Observes(h[j], n, key)
  }

  /** The recorded covering passes from pass k on. */
  ghost function RecordedSince(h: seq<Pass>, k: nat, n: string): nat
  {
    if |h| <= k then 0 else RecordedSince(h[..|h| - 1], k, n) + if Records(h[|h| - 1], n) then 1 else 0
  }

  /** The run a settling row counts begins with pass k, whose time is the row's start time
      unless the file drifted in it. */
  ghost predicate RunStart(h: seq<Pass>, k: nat, n: string, row: Settle)
  {
    && InRun(h, k, n, row.key) && RecordedSince(h, k, n) == row.count
    && (h[k].now == row.first || n in h[k].drift)
  }

  /** The row of n after the pass, from the rows before it. */
  ghost predicate Follows(p: Pass, n: string, settling: map<string, Settle>, row: Settle)
  {
    if !Records(p, n) then n in settling && row == settling[n]
    else
      && Observes(p, n, row.key)
      && (|| (row.count == 1 && (row.first == p.now || n in p.drift))
          || (n in settling && row == settling[n].(count := settling[n].count + 1)))
  }

  /** One pass either starts a row afresh, continues a run, or leaves the row alone. */
  lemma SettleStep(cfg: Config, t: Tables, p: Pass, n: string)
    requires Sane(cfg, t, p) && n in Step(cfg, t, p).settling
    ensures Follows(p, n, t.settling, Step(cfg, t, p).settling[n])
  {
  }

  lemma RunExtends(h: seq<Pass>, p: Pass, k: nat, n: string, row: Settle)
    requires RunStart(h, k, n, row) && (Records(p, n) ==> Observes(p, n, row.key))
    ensures RunStart(h + [p], k, n, row.(count := row.count + if Records(p, n) then 1 else 0))
  {
    assert (h + [p])[..|h|] == h;
  }

  lemma RunBegins(h: seq<Pass>, p: Pass, n: string, row: Settle)
    requires Records(p, n) && Observes(p, n, row.key) && row.count == 1 && (row.first == p.now || n in p.drift)
    ensures RunStart(h + [p], |h|, n, row)
  {
    assert (h + [p])[..|h|] == h && RecordedSince(h, |h|, n) == 0;
  }

  /** The row is backed by the passes of h: its count and start come from one unbroken run. */
  ghost predicate Backed(h: seq<Pass>, n: string, row: Settle)
  {
    1 <= row.count <= StableStreak(h, n, row.key) && exists k: nat :: RunStart(h, k, n, row)
  }

  lemma BackedFresh(h: seq<Pass>, p: Pass, n: string, row: Settle)
    requires Records(p, n) && Observes(p, n, row.key) && row.count == 1 && (row.first == p.now || n in p.drift)
    ensures Backed(h + [p], n, row)
  {
    assert (h + [p])[..|h|] == h;
    RunBegins(h, p, n, row);
  }

  lemma BackedOn(h: seq<Pass>, p: Pass, n: string, row: Settle)
    requires Backed(h, n, row) && (Records(p, n) ==> Observes(p, n, row.key))
    ensures Backed(h + [p], n, row.(count := row.count + if Records(p, n) then 1 else 0))
  {
    assert (h + [p])[..|h|] == h;
    var k: nat :| RunStart(h, k, n, row);
    RunExtends(h, p, k, n, row);
  }

  lemma StaysBacked(h: seq<Pass>, p: Pass, n: string, settling: map<string, Settle>, row: Settle)
    requires Follows(p, n, settling, row) && (n in settling ==> Backed(h, n, settling[n]))
    ensures Backed(h + [p], n, row)
  {
    if Records(p, n) && row.count == 1 && (row.first == p.now || n in p.drift) {
      BackedFresh(h, p, n, row);
    } else {
      BackedOn(h, p, n, settling[n]);
    }
  }

  lemma {:induction false} SettleRowIsBacked(cfg: Config, h: seq<Pass>, n: string)
    requires History(cfg, h) && n in After(cfg, h).settling
    ensures Backed(h, n, After(cfg, h).settling[n])
  {
    var before, p := h[..|h| - 1], h[|h| - 1];
    var settling := After(cfg, before).settling;
    assert h == before + [p];
    if n in settling { SettleRowIsBacked(cfg, before, n); }
    SettleStep(cfg, After(cfg, before), p, n);
    StaysBacked(before, p, n, settling, After(cfg, h).settling[n]);
  }

  /** With the gate on, a file is released to hashing only when settleScans consecutive
      recorded covering passes (this one included) saw exactly its stat; they form a run whose
      first pass lies settleSeconds back, unless the file drifted in that first pass. */
  lemma ReleaseIsSettled(cfg: Config, h: seq<Pass>, p: Pass, n: string)
    requires cfg.settleScans > 1 && History(cfg, h) && p.gateOn && !p.forced
    requires n in Released(cfg, After(cfg, h), p)
    ensures 1 + StableStreak(h, n, p.found[n]) >= cfg.settleScans
    ensures exists k: nat :: InRun(h, k, n, p.found[n]) && 1 + RecordedSince(h, k, n) >= cfg.settleScans
                             && (n in h[k].drift || p.now - h[k].now >= cfg.settleSeconds || cfg.settleSeconds <= 0)
  {
    var t := After(cfg, h);
    var key := p.found[n];
    assert n in t.settling && t.settling[n].key == key;
    SettleRowIsBacked(cfg, h, n);
    var k: nat :| RunStart(h, k, n, t.settling[n]);
    assert InRun(h, k, n, key);
  }

  /** A complete pass under the gate that finds n changed with this stat, still stable after hashing. */
  predicate Quiet(p: Pass, n: string, key: Key)
  {
    && p.end == Complete && p.gateOn && !p.forced && InScope(p.scope, n) && n !in p.drift
    && n in p.found && p.found[n] == key && (n in p.rows ==> KeyOf(p.rows[n]) != key)
  }

  ghost function AfterFrom(cfg: Config, t: Tables, ps: seq<Pass>): Tables
  {
    if ps == [] then t else Step(cfg, AfterFrom(cfg, t, ps[..|ps| - 1]), ps[|ps| - 1])
  }

  ghost predicate ReleasedAt(cfg: Config, t: Tables, ps: seq<Pass>, i: nat, n: string)
  {
    i < |ps| && n in Released(cfg, AfterFrom(cfg, t, ps[..i]), ps[i])
  }

  lemma HeldStep(cfg: Config, t: Tables, p: Pass, n: string, key: Key)
    requires Quiet(p, n, key) && n !in Released(cfg, t, p)
    ensures var u := Step(cfg, t, p);
            && n in u.settling && u.settling[n].key == key
            && (if n in t.settling && t.settling[n].key == key
                then u.settling[n].count == t.settling[n].count + 1 && u.settling[n].first == t.settling[n].first
                else u.settling[n].count == 1 && u.settling[n].first == p.now)
  {
    assert n in HeldBack(cfg, t, p);
  }

  /** The row of n counts at least i passes since a time not after `since`. */
  ghost predicate HeldFor(t: Tables, n: string, key: Key, i: nat, since: int)
  {
    n in t.settling && t.settling[n].key == key && t.settling[n].count >= i && t.settling[n].first <= since
  }

  ghost predicate NotAhead(t: Tables, n: string, since: int)
  {
    n in t.settling ==> t.settling[n].count >= 0 && t.settling[n].first <= since
  }

  /** While a quiet file is held, its count grows and its window stays put. */
  lemma HeldOnce(cfg: Config, t: Tables, p: Pass, n: string, key: Key, i: nat, since: int)
    requires Quiet(p, n, key) && n !in Released(cfg, t, p)
    requires if i == 0 then p.now == since && NotAhead(t, n, since) else HeldFor(t, n, key, i, since)
    ensures HeldFor(Step(cfg, t, p), n, key, i + 1, since)
  {
    HeldStep(cfg, t, p, n, key);
  }

  lemma {:induction false} HeldCountGrows(cfg: Config, t: Tables, ps: seq<Pass>, n: string, key: Key, i: nat)
    requires 0 < i <= |ps| && forall k :: 0 <= k < |ps| ==> Quiet(ps[k], n, key)
    requires forall k: nat :: k < i ==> !ReleasedAt(cfg, t, ps, k, n)
    requires NotAhead(t, n, ps[0].now)
    ensures HeldFor(AfterFrom(cfg, t, ps[..i]), n, key, i, ps[0].now)
  {
    var u := AfterFrom(cfg, t, ps[..i - 1]);
    assert !ReleasedAt(cfg, t, ps, i - 1, n);
    assert ps[..i][..i - 1] == ps[..i - 1];
    if i > 1 {
      HeldCountGrows(cfg, t, ps, n, key, i - 1);
    }
    HeldOnce(cfg, u, ps[i - 1], n, key, i - 1, ps[0].now);
  }

  /** The gate holds nothing forever: a file that settleScans passes in a row find quiet, over
      at least settleSeconds, is released by one of them. */
  lemma QuietFileIsReleased(cfg: Config, t: Tables, ps: seq<Pass>, n: string, key: Key)
    requires ps != [] && |ps| >= cfg.settleScans && forall k :: 0 <= k < |ps| ==> Quiet(ps[k], n, key)
    requires ps[|ps| - 1].now - ps[0].now >= cfg.settleSeconds
    requires NotAhead(t, n, ps[0].now)
    ensures exists i: nat :: ReleasedAt(cfg, t, ps, i, n)
  {
    var last := |ps| - 1;
    if forall k: nat :: k < last ==> !ReleasedAt(cfg, t, ps, k, n) {
      if last > 0 {
        HeldCountGrows(cfg, t, ps, n, key, last);
      } else {
        assert ps[..0] == [];
      }
      assert ReleasedAt(cfg, t, ps, last, n);
    }
  }

  /** Over any history, what is published as in flight is exactly what is settling. */
  lemma {:induction false} HeldIsSettling(cfg: Config, h: seq<Pass>)
    ensures After(cfg, h).held == After(cfg, h).settling
  {
    if h != [] {
      HeldIsSettling(cfg, h[..|h| - 1]);
    }
  }

  // ---- scoped passes ----

  /** A scoped pass reports deletions only inside its scope and leaves every settling row,
      missing row and published in-flight entry outside it as it was. */
  lemma ScopedPassStaysInScope(cfg: Config, t: Tables, p: Pass, n: string)
    requires cfg.deletionScans > 1 && p.scope != [] && Sane(cfg, t, p) && !InScope(p.scope, n)
    ensures !CountedOut(cfg, t, p, n)
    ensures n in Step(cfg, t, p).settling <==> n in t.settling
    ensures n in t.settling ==> Step(cfg, t, p).settling[n] == t.settling[n]
    ensures n in Step(cfg, t, p).missing <==> n in t.missing
    ensures n in t.missing ==> Step(cfg, t, p).missing[n] == t.missing[n]
    ensures n in Step(cfg, t, p).held <==> n in t.held
    ensures n in t.held ==> Step(cfg, t, p).held[n] == t.held[n]
  {
  }
}

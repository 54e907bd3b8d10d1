/** Families of directories on which a deletion goes wrong without the hold area, each with its
    exact condition, and concrete members, one with the hold area included. */
module DirFamilies {
  import opened Versions
  import opened Entries
  import opened GlobalModel
  import opened Overwrite
  import opened DirState
  import opened DirDelete
  import opened DirHold
  import ConflictNames
  import Names
  import Pending

  // ---- a pass, row by row ----

  lemma ListingIs(rows: View, dir: string, names: seq<string>)
    requires Descending(names) && LiveUnder(rows, dir) == set n | n in names
    ensures Listing(rows, dir) == names
  {
    var up := Reversed(names);
    Names.AscendingUnique(Names.SortedList(LiveUnder(rows, dir)), up);
    assert Reversed(up) == names;
  }

  /** A pass over rows that may all go works off exactly these. */
  lemma PassOver(site: Site, hold: bool, depth: nat, s: St, dir: string, names: seq<string>)
    requires Timed(site) && Bounded(s.rows, depth) && Names.Depth(dir) <= depth
    requires Descending(names) && LiveUnder(s.rows, dir) == set n | n in names
    requires forall n :: n in names ==> Deletable(site, s.rows, n)
    ensures forall n :: n in names ==> Names.Under(n, dir) && Names.Depth(n) <= depth
    ensures Children(site, hold, depth, s, dir) == Each(site, hold, depth, s, dir, names)
  {
    ListingIs(s.rows, dir, names);
    AllGo(site, s.rows, names);
    GoingOrStaying(site, s.rows, names);
    ChildrenAre(site, hold, depth, s, dir, names);
  }

  lemma ChildrenAre(site: Site, hold: bool, depth: nat, s: St, dir: string, names: seq<string>)
    requires Timed(site) && Bounded(s.rows, depth) && Names.Depth(dir) <= depth
    requires Listing(s.rows, dir) == names && Going(site, s.rows, names) == names && Staying(site, s.rows, names) == 0
    ensures forall n :: n in names ==> Names.Under(n, dir) && Names.Depth(n) <= depth
    ensures Children(site, hold, depth, s, dir) == Each(site, hold, depth, s, dir, names)
  {
    GoingOrStaying(site, s.rows, names);
  }

  /** Deleting n turns s into t. */
  ghost predicate Leads(site: Site, hold: bool, depth: nat, s: St, n: string, t: St)
  {
    && Timed(site) && Bounded(s.rows, depth) && Bounded(t.rows, depth) && Names.Depth(n) <= depth
    && !Apply(site, hold, depth, s, n).failed && Apply(site, hold, depth, s, n).st == t
  }

  lemma EachLeads(site: Site, depth: nat, s: St, t: St, dir: string, names: seq<string>, i: nat)
    requires i < |names| && Names.Depth(dir) <= depth && Leads(site, false, depth, s, names[i], t)
    requires forall n :: n in names ==> Names.Under(n, dir) && Names.Depth(n) <= depth
    ensures Each(site, false, depth, s, dir, names[i..]) == Each(site, false, depth, t, dir, names[i + 1..])
  {
    assert names[i..][0] == names[i] && names[i..][1..] == names[i + 1..];
    EachFirst(site, false, depth, s, dir, names[i..]);
  }

  // ---- a conflict copy takes the name of a row that is about to go ----

  /** d holds the file c, which loses a conflict to a deletion, and perhaps a deletable row under
      the very name c's copy gets. */
  ghost predicate Colliding(site: Site, rows: View, disk: set<string>, d: string, c: string, k: string)
  {
    && Names.Under(c, d) && Live(rows, d) && c in rows && k == CopyName(site, rows[c]) && Names.Less(k, c)
    && LiveUnder(rows, d) == (if Live(rows, k) then {c, k} else {c})
    && Deletable(site, rows, c) && (Live(rows, k) ==> Deletable(site, rows, k))
    && Winner(site, rows, d).Some? && Winner(site, rows, d).value.kind == Directory && !NeedsCopy(site, rows, d)
    && NeedsCopy(site, rows, c) && Winner(site, rows, c).value.kind != Directory
    && MayRename(site, disk, c, k) && NothingUnder(disk, c) && k !in site.stuck
  }

  /** What the copy's own row would be decided by. */
  ghost predicate CopyWins(site: Site, rows: View, k: string)
  {
    var copied := rows[k := CopyRow(site, rows, k)];
    Winner(site, copied, k).Some? && Winner(site, copied, k).value.kind != Directory && !NeedsCopy(site, copied, k)
  }

  lemma CopiedThenBuried(site: Site, depth: nat, s: St, c: string, k: string)
    requires Timed(site) && Bounded(s.rows, depth) && Names.Depth(c) <= depth
    requires Live(s.rows, c) && NeedsCopy(site, s.rows, c) && Winner(site, s.rows, c).value.kind != Directory
    requires k == CopyName(site, s.rows[c]) && MayRename(site, s.disk, c, k)
    ensures Leads(site, false, depth, s, c, Entombed(site, Aside(site, s, c, k), c))
  {
    assert Apply(site, false, depth, s, c).st == Entombed(site, Aside(site, s, c, k), c);
  }

  lemma JustBuried(site: Site, depth: nat, s: St, k: string)
    requires Timed(site) && Bounded(s.rows, depth) && Names.Depth(k) <= depth && Live(s.rows, k) && !site.versioning
    requires Winner(site, s.rows, k).Some? && Winner(site, s.rows, k).value.kind != Directory && !NeedsCopy(site, s.rows, k)
    ensures Leads(site, false, depth, s, k, Entombed(site, s, k))
  {
  }

  /** After c's own deletion the copy is live and on disk, and c is neither. */
  lemma CopyStands(site: Site, s: St, d: string, c: string, k: string)
    requires Timed(site) && Colliding(site, s.rows, s.disk, d, c, k) && s.rows[c].name == c
    ensures var u := Entombed(site, Aside(site, s, c, k), c);
            && Live(u.rows, k) && k in u.disk && !Live(u.rows, c) && c !in u.disk && NothingUnder(u.disk, k)
            && Pending.AgreeAt(u.rows, s.rows[k := CopyRow(site, s.rows, k)], k) && k != c && Names.Under(k, d)
  {
    CopyNameIsBeside(site, s.rows[c]);
    RenamedLoses(s.disk, c, k);
    var r := Renamed(s.disk, c, k);
    forall q | q in r ensures !Names.AtOrUnder(q, c) && !Names.Under(q, k) {
      if q !in Pruned(s.disk, c) {
        var p :| p in s.disk && Names.AtOrUnder(p, c) && q == k + p[|c|..];
        assert p == c && q == k;
      }
    }
  }

  lemma SameDecision(site: Site, rows: View, other: View, r: string)
    requires Pending.AgreeAt(rows, other, r)
    ensures Winner(site, rows, r) == Winner(site, other, r) && (NeedsCopy(site, rows, r) <==> NeedsCopy(site, other, r))
  {
  }

  /** Without the hold area: the conflict copy is destroyed by the very pass that made it exactly
      when a deletable row already bore its name, although the copy itself need not lose to any
      deletion: applyDeletion does not look at the winner again. */
  lemma CollisionDestroysCopy(site: Site, rows: View, disk: set<string>, d: string, c: string, k: string, depth: nat)
    requires Startable(site, rows, disk, d, depth) && Colliding(site, rows, disk, d, c, k) && CopyWins(site, rows, k)
    ensures var t := Deleted(site, rows, disk, d, false, depth).st;
            && !Live(t.rows, c) && c !in t.disk
            && (Live(t.rows, k) <==> !Live(rows, k)) && (k in t.disk <==> !Live(rows, k))
  {
    var s := St(rows, disk, {}, {});
    CopyStands(site, s, d, c, k);
    var u := Entombed(site, Aside(site, s, c, k), c);
    CollidingPass(site, s, u, d, c, k, depth, if Live(rows, k) then [c, k] else [c]);
    OuterStep(site, s, if Live(rows, k) then Entombed(site, u, k) else u, d, depth);
  }

  lemma CollidingPass(site: Site, s: St, u: St, d: string, c: string, k: string, depth: nat, names: seq<string>)
    requires Startable(site, s.rows, s.disk, d, depth) && Colliding(site, s.rows, s.disk, d, c, k) && CopyWins(site, s.rows, k)
    requires u == Entombed(site, Aside(site, s, c, k), c) && names == if Live(s.rows, k) then [c, k] else [c]
    ensures Children(site, false, depth, s, d) == Pass(if Live(s.rows, k) then Entombed(site, u, k) else u, 0)
  {
    CollidingNames(site, s.rows, s.disk, d, c, k, names);
    PassOver(site, false, depth, s, d, names);
    CollidingSteps(site, s, u, d, c, k, depth);
    OneOrTwo(site, depth, s, u, Entombed(site, u, k), d, names);
  }

  lemma CollidingNames(site: Site, rows: View, disk: set<string>, d: string, c: string, k: string, names: seq<string>)
    requires Colliding(site, rows, disk, d, c, k) && names == if Live(rows, k) then [c, k] else [c]
    ensures Descending(names) && LiveUnder(rows, d) == set n | n in names
    ensures forall n :: n in names ==> Deletable(site, rows, n)
  {
  }

  lemma OneOrTwo(site: Site, depth: nat, s: St, t: St, u: St, dir: string, names: seq<string>)
    requires 1 <= |names| <= 2 && Names.Depth(dir) <= depth
    requires forall n :: n in names ==> Names.Under(n, dir) && Names.Depth(n) <= depth
    requires Leads(site, false, depth, s, names[0], t) && (|names| == 2 ==> Leads(site, false, depth, t, names[1], u))
    ensures Each(site, false, depth, s, dir, names) == Pass(if |names| == 2 then u else t, 0)
  {
    EachLeads(site, depth, s, t, dir, names, 0);
    assert names[0..] == names;
    if |names| == 2 {
      EachLeads(site, depth, t, u, dir, names, 1);
    }
    assert names[|names|..] == [];
  }

  lemma CollidingSteps(site: Site, s: St, u: St, d: string, c: string, k: string, depth: nat)
    requires Startable(site, s.rows, s.disk, d, depth) && Colliding(site, s.rows, s.disk, d, c, k) && CopyWins(site, s.rows, k)
    requires u == Entombed(site, Aside(site, s, c, k), c)
    ensures Leads(site, false, depth, s, c, u) && Leads(site, false, depth, u, k, Entombed(site, u, k))
  {
    CopyStands(site, s, d, c, k);
    CopiedThenBuried(site, depth, s, c, k);
    SameDecision(site, u.rows, s.rows[k := CopyRow(site, s.rows, k)], k);
    JustBuried(site, depth, u, k);
  }

  /** The directory itself changes nothing about the rows and paths beneath it. */
  lemma OuterStep(site: Site, s: St, u: St, d: string, depth: nat)
    requires Timed(site) && Bounded(s.rows, depth) && Names.Depth(d) <= depth && Live(s.rows, d) && !site.versioning
    requires Winner(site, s.rows, d).Some? && Winner(site, s.rows, d).value.kind == Directory && !NeedsCopy(site, s.rows, d)
    requires Children(site, false, depth, s, d) == Pass(u, 0)
    ensures var t := Apply(site, false, depth, s, d).st;
            forall r :: r != d ==> (r in t.disk <==> r in u.disk) && (Live(t.rows, r) <==> Live(u.rows, r))
  {
  }

  // ---- a conflict copy carries a live row off ----

  /** d holds c holds y holds z. When c is moved aside to k, y and z get the names ky and kz. */
  datatype Shadow = Shadow(d: string, c: string, y: string, z: string, k: string, ky: string, kz: string)
  {
    ghost predicate Placed()
    {
      && Names.Under(c, d) && Names.Under(y, c) && Names.Under(z, y) && Beside(c, k) && Names.Depth(k) == Names.Depth(c)
      && ky == k + y[|c|..] && kz == k + z[|c|..] && Names.Less(kz, c)
    }
  }

  /** c, a directory, loses a conflict to a tombstone that is not typed as one; y is a directory
      whose deletion won; deletable rows already bear the names k, ky and kz. On disk are d, c,
      y and perhaps z, which is not indexed. The system itself refuses nothing. */
  ghost predicate Shadowed(site: Site, rows: View, disk: set<string>, p: Shadow)
  {
    && Live(rows, p.d) && LiveUnder(rows, p.d) == {p.y, p.c, p.kz, p.ky, p.k} && p.Placed()
    && p.c in rows && rows[p.c].name == p.c && p.k == CopyName(site, rows[p.c])
    && Deletable(site, rows, p.y) && Deletable(site, rows, p.c) && Deletable(site, rows, p.k)
    && PlainFile(site, rows, p.kz) && PlainFile(site, rows, p.ky)
    && PlainDirectory(site, rows, p.d) && PlainDirectory(site, rows, p.y)
    && Winner(site, rows, p.c).value.kind != Directory && NeedsCopy(site, rows, p.c)
    && (disk == {p.d, p.c, p.y} || disk == {p.d, p.c, p.y, p.z}) && site.stuck == {} && site.unmovable == {}
  }

  /** Deletable, without a copy, by a tombstone that is not typed as a directory. */
  ghost predicate PlainFile(site: Site, rows: View, x: string)
  {
    Deletable(site, rows, x) && Winner(site, rows, x).value.kind != Directory && !NeedsCopy(site, rows, x)
  }

  ghost predicate PlainDirectory(site: Site, rows: View, x: string)
  {
    DirRow(site, rows, x) && !NeedsCopy(site, rows, x)
  }

  /** What a shallower or equally deep path is not. */
  lemma NotUnderDeeper(a: string, b: string)
    requires Names.Depth(a) <= Names.Depth(b)
    ensures !Names.Under(a, b)
  {
    if Names.Under(a, b) { Names.UnderIsDeeper(a, b); }
  }

  /** What lies at or under one of two siblings has nothing to do with the other. */
  lemma OtherSide(c: string, k: string, a: string, b: string)
    requires Beside(c, k) && Names.AtOrUnder(a, c) && Names.AtOrUnder(b, k)
    ensures !Names.AtOrUnder(a, b) && !Names.AtOrUnder(b, a)
  {
    if Names.AtOrUnder(a, b) {
      Names.AtOrUnderTransitive(a, b, k);
      Names.AboveIsALine(a, c, k);
    }
    if Names.AtOrUnder(b, a) {
      Names.AtOrUnderTransitive(b, a, c);
      Names.AboveIsALine(b, c, k);
    }
  }

  /** Moving keeps who lies under whom. */
  lemma MovedAlong(c: string, k: string, q: string, e: string)
    requires Names.Under(q, e) && Names.AtOrUnder(e, c)
    ensures Names.Under(k + q[|c|..], k + e[|c|..])
  {
    var a, b := k + q[|c|..], k + e[|c|..];
    assert a[..|b|] == k + q[|c|..|e|] == b;
  }

  /** Who lies under whom, and in which order the listing has them. */
  lemma Lines(p: Shadow)
    requires p.Placed()
    ensures Names.Under(p.k, p.d) && Names.Under(p.y, p.d) && Names.Under(p.z, p.c) && Names.Under(p.z, p.d)
    ensures Names.Under(p.ky, p.k) && Names.Under(p.kz, p.ky) && Names.Under(p.kz, p.k)
    ensures Names.Under(p.ky, p.d) && Names.Under(p.kz, p.d)
  {
    Names.UnderTransitive(p.y, p.c, p.d);
    Names.UnderTransitive(p.z, p.y, p.c);
    Names.UnderTransitive(p.z, p.c, p.d);
    MovedAlong(p.c, p.k, p.y, p.c);
    MovedAlong(p.c, p.k, p.z, p.y);
    assert p.k + p.c[|p.c|..] == p.k;
    Names.UnderTransitive(p.kz, p.ky, p.k);
    Names.UnderTransitive(p.ky, p.k, p.d);
    Names.UnderTransitive(p.kz, p.k, p.d);
  }

  lemma Depths(p: Shadow)
    requires p.Placed()
    ensures Names.Depth(p.d) < Names.Depth(p.c) == Names.Depth(p.k) < Names.Depth(p.y) < Names.Depth(p.z)
    ensures Names.Depth(p.k) < Names.Depth(p.ky) < Names.Depth(p.kz)
  {
    Lines(p);
    Names.UnderIsDeeper(p.c, p.d);
    Names.UnderIsDeeper(p.y, p.c);
    Names.UnderIsDeeper(p.z, p.y);
    Names.UnderIsDeeper(p.ky, p.k);
    Names.UnderIsDeeper(p.kz, p.ky);
  }

  /** The listing, deepest first. */
  ghost predicate InTurn(p: Shadow, names: seq<string>)
  {
    |names| == 5 && names[0] == p.y && names[1] == p.c && names[2] == p.kz && names[3] == p.ky && names[4] == p.k
  }

  lemma TurnsExist(p: Shadow)
    ensures exists names :: InTurn(p, names)
  {
    var names := [p.y, p.c, p.kz, p.ky, p.k];
    assert InTurn(p, names);
  }

  lemma InOrder(p: Shadow, names: seq<string>)
    requires p.Placed() && InTurn(p, names)
    ensures Descending(names)
  {
    Lines(p);
    Names.ParentSortsFirst(p.y, p.c);
    Names.ParentSortsFirst(p.kz, p.ky);
    Names.ParentSortsFirst(p.ky, p.k);
    FromNeighbours(names);
  }

  lemma FromNeighbours(names: seq<string>)
    requires forall i :: 0 < i < |names| ==> Names.Less(names[i], names[i - 1])
    ensures Descending(names)
  {
    forall i, j | 0 <= i < j < |names| ensures Names.Less(names[j], names[i]) { Farther(names, i, j); }
  }

  lemma {:induction false} Farther(names: seq<string>, i: nat, j: nat)
    requires i < j < |names| && forall n :: 0 < n < |names| ==> Names.Less(names[n], names[n - 1])
    ensures Names.Less(names[j], names[i])
    decreases j
  {
    if i + 1 < j {
      Farther(names, i, j - 1);
      Names.LessTransitive(names[j], names[j - 1], names[i]);
    }
  }

  lemma Distinct(p: Shadow)
    requires p.Placed()
    ensures p.d !in {p.c, p.y, p.z, p.k, p.ky, p.kz} && p.c !in {p.k, p.ky, p.kz} && p.y !in {p.k, p.ky, p.kz}
    ensures p.z !in {p.y, p.c, p.k, p.ky, p.kz} && p.k !in {p.ky, p.kz} && p.ky != p.kz && p.c != p.y
  {
    Lines(p);
    Depths(p);
    NoShadow(p, p.c);
    NoShadow(p, p.y);
    NoShadow(p, p.z);
  }

  lemma NoShadow(p: Shadow, a: string)
    requires p.Placed() && Names.AtOrUnder(a, p.c)
    ensures a !in {p.k, p.ky, p.kz}
  {
    Lines(p);
    OtherSide(p.c, p.k, a, p.k);
    OtherSide(p.c, p.k, a, p.ky);
    OtherSide(p.c, p.k, a, p.kz);
  }

  /** The moves on disk. */
  lemma Relocation(p: Shadow)
    requires p.Placed()
    ensures Renamed({p.d, p.c, p.y, p.z}, p.c, p.k) == {p.d, p.k, p.ky, p.kz} && Renamed({p.d, p.c}, p.c, p.k) == {p.d, p.k}
    ensures NothingUnder({p.d, p.c, p.y, p.z}, p.k)
  {
    Lines(p);
    Depths(p);
    assert !Names.AtOrUnder(p.d, p.c) by { NotUnderDeeper(p.d, p.c); }
    assert p.k + p.c[|p.c|..] == p.k;
    assert Pruned({p.d, p.c, p.y, p.z}, p.c) == {p.d} == Pruned({p.d, p.c}, p.c);
    forall q | q in {p.c, p.y, p.z} ensures !Names.Under(q, p.k) { OtherSide(p.c, p.k, q, p.k); }
    NotUnderDeeper(p.d, p.k);
  }

  lemma NothingLeftUnder(p: Shadow)
    requires p.Placed()
    ensures NothingUnder({p.d, p.k, p.ky, p.kz}, p.kz) && NothingUnder({p.d, p.k, p.ky}, p.ky) && NothingUnder({p.d, p.k}, p.k)
    ensures NothingUnder({p.d}, p.d) && NothingUnder({p.d, p.c, p.y}, p.y)
  {
    Depths(p);
    forall q | q in {p.d, p.k, p.ky, p.kz} ensures !Names.Under(q, p.kz) { NotUnderDeeper(q, p.kz); }
    forall q | q in {p.d, p.k, p.ky} ensures !Names.Under(q, p.ky) { NotUnderDeeper(q, p.ky); }
    forall q | q in {p.d, p.k} ensures !Names.Under(q, p.k) { NotUnderDeeper(q, p.k); }
    forall q | q in {p.d, p.c, p.y} ensures !Names.Under(q, p.y) { NotUnderDeeper(q, p.y); }
    NotUnderDeeper(p.d, p.d);
  }

  /** The states of the pass: at the start, and after y, c, kz, ky and k. */
  datatype Stages = Stages(start: St, one: St, two: St, three: St, four: St, five: St)

  ghost predicate Staged(site: Site, p: Shadow, t: Stages)
  {
    && t.one == (if Refuses(site, t.start.disk, p.y) then t.start else Entombed(site, t.start, p.y))
    && t.two == Entombed(site, Aside(site, t.one, p.c, p.k), p.c) && t.three == Entombed(site, t.two, p.kz)
    && t.four == Entombed(site, t.three, p.ky) && t.five == Entombed(site, t.four, p.k)
  }

  ghost predicate Entered(site: Site, p: Shadow, depth: nat, t: Stages)
  {
    && Startable(site, t.start.rows, t.start.disk, p.d, depth) && Shadowed(site, t.start.rows, t.start.disk, p)
    && CopyWins(site, t.start.rows, p.k) && Staged(site, p, t)
  }

  /** Removing a path on which the system has no say. */
  lemma Unlinked(site: Site, s: St, x: string, disk: set<string>)
    requires site.stuck == {} && NothingUnder(s.disk, x) && disk == s.disk - {x}
    ensures Entombed(site, s, x).disk == disk
  {
  }

  lemma DiskAtTheEnd(site: Site, p: Shadow, t: Stages)
    requires p.Placed() && site.stuck == {} && Staged(site, p, t)
    requires t.two.disk == {p.d, p.k} || t.two.disk == {p.d, p.k, p.ky, p.kz}
    ensures t.five.disk == {p.d}
  {
    Distinct(p);
    NothingLeftUnder(p);
    Unlinked(site, t.two, p.kz, t.two.disk - {p.kz});
    Unlinked(site, t.three, p.ky, {p.d, p.k});
    Unlinked(site, t.four, p.k, {p.d});
  }

  lemma DiskAfterCopy(site: Site, p: Shadow, t: Stages)
    requires p.Placed() && site.stuck == {} && Staged(site, p, t)
    requires t.one.disk == {p.d, p.c} || t.one.disk == {p.d, p.c, p.y, p.z}
    ensures t.two.disk == {p.d, p.k} || t.two.disk == {p.d, p.k, p.ky, p.kz}
  {
    var disk := Renamed(t.one.disk, p.c, p.k);
    assert disk == {p.d, p.k} || disk == {p.d, p.k, p.ky, p.kz} by { Relocation(p); }
    assert p.c !in disk by { Distinct(p); }
    assert disk - {p.c} == disk;
  }

  /** y is removed on its turn exactly if z is not in it. */
  lemma DiskAtFirst(site: Site, p: Shadow, t: Stages)
    requires p.Placed() && site.stuck == {} && Staged(site, p, t)
    requires t.start.disk == {p.d, p.c, p.y} || t.start.disk == {p.d, p.c, p.y, p.z}
    ensures Refuses(site, t.start.disk, p.y) <==> p.z in t.start.disk
    ensures t.one.disk == {p.d, p.c} || t.one.disk == {p.d, p.c, p.y, p.z}
  {
    Distinct(p);
    NothingLeftUnder(p);
    if p.z !in t.start.disk { Unlinked(site, t.start, p.y, {p.d, p.c}); }
  }

  lemma OnDisk(site: Site, p: Shadow, depth: nat, t: Stages)
    requires Entered(site, p, depth, t)
    ensures Refuses(site, t.start.disk, p.y) <==> p.z in t.start.disk
    ensures p.c in t.one.disk && NothingUnder(t.one.disk, p.k) && t.five.disk == {p.d}
  {
    DiskAtFirst(site, p, t);
    DiskAfterCopy(site, p, t);
    DiskAtTheEnd(site, p, t);
    Relocation(p);
  }

  lemma IndexEarly(site: Site, p: Shadow, t: Stages)
    requires p.Placed() && Staged(site, p, t)
    ensures Pending.AgreeAt(t.one.rows, t.start.rows, p.c) && Pending.AgreeAt(t.two.rows, t.start.rows, p.kz)
    ensures Pending.AgreeAt(t.three.rows, t.start.rows, p.ky)
    ensures Pending.AgreeAt(t.four.rows, t.start.rows[p.k := CopyRow(site, t.start.rows, p.k)], p.k)
  {
    Distinct(p);
  }

  lemma IndexLate(site: Site, p: Shadow, t: Stages)
    requires p.Placed() && Staged(site, p, t) && Live(t.start.rows, p.y)
    ensures Live(t.five.rows, p.y) <==> Refuses(site, t.start.disk, p.y)
  {
    Distinct(p);
  }

  lemma EmptyDirectory(site: Site, depth: nat, s: St, y: string)
    requires Timed(site) && Bounded(s.rows, depth) && Names.Depth(y) <= depth && Live(s.rows, y) && !LiveBeneath(s.rows, y)
    requires PlainDirectory(site, s.rows, y) && !site.versioning
    ensures Leads(site, false, depth, s, y, if Refuses(site, s.disk, y) then s else Entombed(site, s, y))
  {
    EmptyPass(site, false, depth, s, y);
  }

  lemma NothingBeneathY(rows: View, p: Shadow)
    requires p.Placed() && LiveUnder(rows, p.d) == {p.y, p.c, p.kz, p.ky, p.k}
    ensures !LiveBeneath(rows, p.y)
  {
    Lines(p);
    Depths(p);
    forall r | Names.Under(r, p.y) ensures Names.Under(r, p.d) && r !in LiveUnder(rows, p.d) {
      Names.UnderTransitive(r, p.y, p.c);
      Names.UnderTransitive(r, p.y, p.d);
      Names.UnderIsDeeper(r, p.y);
      NoShadow(p, r);
    }
  }

  lemma FirstSteps(site: Site, p: Shadow, depth: nat, t: Stages)
    requires Entered(site, p, depth, t)
    ensures Leads(site, false, depth, t.start, p.y, t.one) && Leads(site, false, depth, t.one, p.c, t.two)
  {
    NothingBeneathY(t.start.rows, p);
    EmptyDirectory(site, depth, t.start, p.y);
    OnDisk(site, p, depth, t);
    IndexEarly(site, p, t);
    SameDecision(site, t.one.rows, t.start.rows, p.c);
    CopiedThenBuried(site, depth, t.one, p.c, p.k);
  }

  lemma LastSteps(site: Site, p: Shadow, depth: nat, t: Stages)
    requires Entered(site, p, depth, t) && Bounded(t.two.rows, depth)
    ensures Leads(site, false, depth, t.two, p.kz, t.three) && Leads(site, false, depth, t.three, p.ky, t.four)
    ensures Leads(site, false, depth, t.four, p.k, t.five)
  {
    IndexEarly(site, p, t);
    SameDecision(site, t.two.rows, t.start.rows, p.kz);
    JustBuried(site, depth, t.two, p.kz);
    SameDecision(site, t.three.rows, t.start.rows, p.ky);
    JustBuried(site, depth, t.three, p.ky);
    SameDecision(site, t.four.rows, t.start.rows[p.k := CopyRow(site, t.start.rows, p.k)], p.k);
    JustBuried(site, depth, t.four, p.k);
  }

  lemma ShadowedNames(site: Site, rows: View, disk: set<string>, p: Shadow, names: seq<string>)
    requires Shadowed(site, rows, disk, p) && InTurn(p, names)
    ensures Descending(names) && LiveUnder(rows, p.d) == set n | n in names
    ensures forall n :: n in names ==> Deletable(site, rows, n)
  {
    InOrder(p, names);
  }

  lemma ShadowedEach(site: Site, p: Shadow, depth: nat, t: Stages, names: seq<string>)
    requires InTurn(p, names)
    requires Names.Depth(p.d) <= depth && forall n :: n in names ==> Names.Under(n, p.d) && Names.Depth(n) <= depth
    requires Leads(site, false, depth, t.start, p.y, t.one) && Leads(site, false, depth, t.one, p.c, t.two)
    requires Leads(site, false, depth, t.two, p.kz, t.three) && Leads(site, false, depth, t.three, p.ky, t.four)
    requires Leads(site, false, depth, t.four, p.k, t.five)
    ensures Each(site, false, depth, t.start, p.d, names) == Pass(t.five, 0)
  {
    EachLeads(site, depth, t.start, t.one, p.d, names, 0);
    EachLeads(site, depth, t.one, t.two, p.d, names, 1);
    EachLeads(site, depth, t.two, t.three, p.d, names, 2);
    EachLeads(site, depth, t.three, t.four, p.d, names, 3);
    EachLeads(site, depth, t.four, t.five, p.d, names, 4);
    assert names[0..] == names && names[5..] == [];
  }

  lemma ShadowedListing(site: Site, p: Shadow, depth: nat, s: St, names: seq<string>)
    requires Startable(site, s.rows, s.disk, p.d, depth) && Shadowed(site, s.rows, s.disk, p) && InTurn(p, names)
    ensures forall n :: n in names ==> Names.Under(n, p.d) && Names.Depth(n) <= depth
    ensures Children(site, false, depth, s, p.d) == Each(site, false, depth, s, p.d, names)
  {
    ShadowedNames(site, s.rows, s.disk, p, names);
    PassOver(site, false, depth, s, p.d, names);
  }

  lemma ShadowedPass(site: Site, p: Shadow, depth: nat, t: Stages, names: seq<string>)
    requires Entered(site, p, depth, t) && InTurn(p, names)
    ensures Children(site, false, depth, t.start, p.d) == Pass(t.five, 0)
  {
    ShadowedListing(site, p, depth, t.start, names);
    FirstSteps(site, p, depth, t);
    LastSteps(site, p, depth, t);
    ShadowedEach(site, p, depth, t, names);
  }

  /** Without the hold area: d dies in every case, and over the live row y exactly when y cannot be
      removed on its turn, that is when z lies in it: y then goes aside with c, and everything is
      removed under its new name. */
  lemma RenameSwallowsRow(site: Site, rows: View, disk: set<string>, p: Shadow, depth: nat)
    requires Startable(site, rows, disk, p.d, depth) && Shadowed(site, rows, disk, p) && CopyWins(site, rows, p.k)
    ensures var t := Deleted(site, rows, disk, p.d, false, depth).st;
            && !Live(t.rows, p.d) && t.disk == {}
            && (Live(t.rows, p.y) <==> Refuses(site, disk, p.y)) && (Refuses(site, disk, p.y) <==> p.z in disk)
  {
    var s := St(rows, disk, {}, {});
    var one := if Refuses(site, disk, p.y) then s else Entombed(site, s, p.y);
    var two := Entombed(site, Aside(site, one, p.c, p.k), p.c);
    var three := Entombed(site, two, p.kz);
    var four := Entombed(site, three, p.ky);
    Swallowed(site, p, depth, Stages(s, one, two, three, four, Entombed(site, four, p.k)));
  }

  lemma Swallowed(site: Site, p: Shadow, depth: nat, t: Stages)
    requires Entered(site, p, depth, t)
    ensures var u := Apply(site, false, depth, t.start, p.d).st;
            && !Live(u.rows, p.d) && u.disk == {}
            && (Live(u.rows, p.y) <==> Refuses(site, t.start.disk, p.y)) && (Refuses(site, t.start.disk, p.y) <==> p.z in t.start.disk)
  {
    TurnsExist(p);
    var names :| InTurn(p, names);
    ShadowedPass(site, p, depth, t, names);
    OnDisk(site, p, depth, t);
    IndexLate(site, p, t);
    LastDirectory(site, t.start, t.five, p.d, p.y, depth);
    Distinct(p);
  }

  lemma LastDirectory(site: Site, s: St, u: St, d: string, y: string, depth: nat)
    requires Timed(site) && Bounded(s.rows, depth) && Names.Depth(d) <= depth && Live(s.rows, d) && !site.versioning
    requires PlainDirectory(site, s.rows, d) && Children(site, false, depth, s, d) == Pass(u, 0)
    requires u.disk == {d} && site.stuck == {} && y != d
    ensures var t := Apply(site, false, depth, s, d).st; !Live(t.rows, d) && t.disk == {} && (Live(t.rows, y) <==> Live(u.rows, y))
  {
    NotUnderDeeper(d, d);
    assert Apply(site, false, depth, s, d).st == Entombed(site, u, d);
  }

  // ---- concrete members ----

  function Row(name: string, kind: Kind, size: int, stamp: int, version: Vector): FileInfo
  {
    FileInfo(name, size, stamp, 0, 0, kind, false, false, version, 0, 1, [])
  }

  function Gone(name: string, kind: Kind, version: Vector): FileInfo
  {
    FileInfo(name, 0, 0, 0, 0, kind, true, false, version, 0, 0, [])
  }

  /** The formatted modification time of every row below: five seconds after the epoch. */
  const FIVE := "19700101-000005"

  function Plain(views: seq<View>): Site
  {
    Site(views, {}, 9, ConflictCopy, false, {}, {}, {}, {"d/x"}, (f: FileInfo) => FIVE, (k: string) => Row(k, File, 1, 5, map[]))
  }

  lemma FiveIsATime()
    ensures forall c :: c in FIVE ==> ConflictNames.IsTagChar(c)
  {
    assert forall i :: 0 <= i < |FIVE| ==> ConflictNames.IsTagChar(FIVE[i]);
  }

  lemma LaterWins(site: Site, view: View, rows: View, n: string)
    requires site.views == [view] && n in rows && n in view && !rows[n].deleted && view[n].deleted
    requires rows[n].version == map[1 := 1] && view[n].version == map[1 := 2]
    ensures Winner(site, rows, n) == Some(view[n]) && (n !in site.inFlight ==> Deletable(site, rows, n))
  {
    OneView(rows[n], view, n);
    OneIsBeforeTwo(rows[n].version, view[n].version);
  }

  lemma OneIsBeforeTwo(v: Vector, o: Vector)
    requires v == map[1 := 1] && o == map[1 := 2]
    ensures Compare(o, v) == Greater
  {
    assert Get(v, 1) == 1 && Get(o, 1) == 2;
  }

  function Dirs(d: string, x: string, y: string): View
  {
    map[d := Row(d, Directory, 0, 5, map[1 := 1]), x := Row(x, Directory, 0, 5, map[1 := 1]),
        y := Row(y, Directory, 0, 5, map[1 := 1])]
  }

  function DirsGone(d: string, x: string, y: string): View
  {
    map[d := Gone(d, Directory, map[1 := 2]), x := Gone(x, File, map[1 := 2]), y := Gone(y, Directory, map[1 := 2])]
  }

  lemma DirsDecisions(d: string, x: string, y: string)
    requires d != x && x != y && d != y
    ensures var site, rows := Plain([DirsGone(d, x, y)]), Dirs(d, x, y);
            && DirRow(site, rows, d) && DirRow(site, rows, y) && Deletable(site, rows, x) && Deletable(site, rows, y)
            && Winner(site, rows, x).Some? && Winner(site, rows, x).value.kind == File
  {
    var site, rows := Plain([DirsGone(d, x, y)]), Dirs(d, x, y);
    LaterWins(site, DirsGone(d, x, y), rows, d);
    LaterWins(site, DirsGone(d, x, y), rows, x);
    LaterWins(site, DirsGone(d, x, y), rows, y);
  }

  /** d holds x holds y holds z, which is not indexed. */
  ghost predicate InLine(d: string, x: string, y: string, z: string, depth: nat)
  {
    && Names.Under(x, d) && Names.Under(y, x) && Names.Under(y, d) && Names.Under(z, y) && Names.Under(z, x)
    && IsTree({d, x, y, z}) && z !in {d, x, y} && y !in {d, x} && d != x && !Names.Under(x, y) && !Names.Under(d, d)
    && Names.Depth(d) <= depth && Names.Depth(x) <= depth && Names.Depth(y) <= depth
  }

  /** The middle directory is held with everything in it, the innermost outlives the deletion. */
  lemma DirsOutlive(site: Site, rows: View, disk: set<string>, d: string, x: string, y: string, z: string, depth: nat)
    requires InLine(d, x, y, z, depth) && site == Plain([DirsGone(d, x, y)]) && x in site.holdable
    requires rows == Dirs(d, x, y) && disk == {d, x, y, z}
    ensures HeldDirectoryGoes(site, rows, disk, d) && Outlives(site, rows, disk, d, y)
  {
    DirsDecisions(d, x, y);
    assert Live(rows, x) && Names.Under(x, d) && HeldRow(site, rows, disk, x) && Names.AtOrUnder(z, x);
    assert Live(rows, y) && !Live(rows, z);
  }

  lemma DirsStart(site: Site, rows: View, disk: set<string>, d: string, x: string, y: string, z: string, depth: nat)
    requires InLine(d, x, y, z, depth) && site == Plain([DirsGone(d, x, y)]) && rows == Dirs(d, x, y) && disk == {d, x, y, z}
    ensures Startable(site, rows, disk, d, depth) && Live(rows, d) && DirRow(site, rows, d)
  {
    FiveIsATime();
    DirsDecisions(d, x, y);
  }

  lemma DirsDie(site: Site, rows: View, disk: set<string>, d: string, x: string, y: string, z: string, depth: nat)
    requires InLine(d, x, y, z, depth) && site == Plain([DirsGone(d, x, y)]) && x in site.holdable
    requires rows == Dirs(d, x, y) && disk == {d, x, y, z}
    ensures SomeDiesOverLive(true)
  {
    DirsStart(site, rows, disk, d, x, y, z, depth);
    DirsOutlive(site, rows, disk, d, x, y, z, depth);
    HeldDirectoryExactly(site, rows, disk, d, depth);
    ThisDies(site, rows, disk, d, true, depth);
  }

  /** Three directories, the middle one with a tombstone that lost its type, the innermost with
      an unindexed file: the outermost dies over the innermost, which stays live. */
  lemma HoldCanSwallow()
    ensures SomeDiesOverLive(true)
  {
    var d, x, y, z := "d", "d/x", "d/x/y", "d/x/y/z";
    Steps(d, x, y, z);
    DirsDie(Plain([DirsGone(d, x, y)]), Dirs(d, x, y), {d, x, y, z}, d, x, y, z, 7);
  }

  ghost predicate DiesOverLive(site: Site, rows: View, disk: set<string>, d: string, hold: bool, depth: nat)
    requires Startable(site, rows, disk, d, depth)
  {
    var t := Deleted(site, rows, disk, d, hold, depth).st;
    !Live(t.rows, d) && LiveBeneath(t.rows, d)
  }

  lemma Steps(d: string, x: string, y: string, z: string)
    requires d == "d" && x == "d/x" && y == "d/x/y" && z == "d/x/y/z"
    ensures InLine(d, x, y, z, 7)
  {
    Names.DepthIsShort(d);
    Names.DepthIsShort(x);
    Names.DepthIsShort(y);
    assert x == d + "/" + "x" && y == x + "/" + "y" && z == y + "/" + "z";
    Line(d, x, "x", y, "y", z, "z");
    Names.UnderTransitive(z, y, x);
  }

  lemma Line(d: string, x: string, a: string, y: string, b: string, z: string, c: string)
    requires '/' !in d && '/' !in a && '/' !in b && '/' !in c
    requires x == d + "/" + a && y == x + "/" + b && z == y + "/" + c
    ensures Names.Under(x, d) && Names.Under(y, x) && Names.Under(y, d) && Names.Under(z, y)
    ensures !Names.Under(d, d) && IsTree({d, x, y, z})
  {
    forall u: string ensures (Names.Under(x, u) <==> u == d) && (Names.Under(y, u) <==> u == x || u == d)
                             && (Names.Under(z, u) <==> u == y || u == x || u == d) && !Names.Under(d, u)
    {
      Names.UnderChild(d, a, u);
      Names.UnderChild(x, b, u);
      Names.UnderChild(y, c, u);
      if |u| < |d| { assert d[|u|] in d; }
    }
  }

  // The collision, with sane dates: c was edited here and there, and deleted on a third device.

  lemma TwoViews(local: FileInfo, v: View, w: View, n: string)
    ensures var best := if n in v then Pick(local, v[n]) else local;
            Global(Some(local), [v, w], n) == Some(if n in w then Pick(best, w[n]) else best)
  {
    assert [v, w][..1] == [v];
    OneView(local, v, n);
  }

  lemma EditLosesToDeletion(l: FileInfo, edit: FileInfo, dead: FileInfo)
    requires l.version == map[1 := 1, 3 := 1] && edit.version == map[1 := 2] && dead.version == map[1 := 2, 2 := 1]
    requires Stamp(edit) > Stamp(l) && !SameContent(l, dead)
    ensures Pick(l, edit) == edit && Pick(edit, dead) == dead && IsConflict(l, dead)
  {
    var a, b, c := l.version, edit.version, dead.version;
    assert Get(a, 1) == 1 && Get(a, 2) == 0 && Get(a, 3) == 1;
    assert Get(b, 1) == 2 && Get(b, 2) == 0 && Get(b, 3) == 0;
    assert Get(c, 1) == 2 && Get(c, 2) == 1 && Get(c, 3) == 0;
  }

  lemma CopyBeatsDeletion(copy: FileInfo, dead: FileInfo)
    requires copy.version == Bump(map[1 := 1], 9) && dead.version == map[1 := 2] && Stamp(copy) > Stamp(dead)
    ensures Pick(copy, dead) == copy && !IsConflict(copy, copy)
  {
    assert Get(copy.version, 9) == 1 && Get(dead.version, 9) == 0 && Get(copy.version, 1) == 1 && Get(dead.version, 1) == 2;
    LeqReflexive(copy.version);
  }

  /** This device's entry for c, changed beside the other devices' changes. */
  function Edited(c: string, kind: Kind): FileInfo
  {
    Row(c, kind, if kind == File then 1 else 0, 5, map[1 := 1, 3 := 1])
  }

  function Others(c: string, kind: Kind): View
  {
    map[c := Row(c, kind, if kind == File then 1 else 0, 10, map[1 := 2])]
  }

  function Third(d: string, c: string, k: string): View
  {
    map[d := Gone(d, Directory, map[1 := 2]), c := Gone(c, File, map[1 := 2, 2 := 1]), k := Gone(k, File, map[1 := 2])]
  }

  function Mine(d: string, c: string, k: string, kind: Kind): View
  {
    map[d := Row(d, Directory, 0, 5, map[1 := 1]), c := Edited(c, kind), k := Row(k, kind, 1, 5, map[1 := 1])]
  }

  /** A plain deletion wins without a conflict. */
  lemma PlainDeletion(site: Site, v: View, w: View, rows: View, n: string)
    requires site.views == [v, w] && site.inFlight == {} && n in rows && n !in v && n in w
    requires !rows[n].deleted && w[n].deleted && rows[n].version == map[1 := 1] && w[n].version == map[1 := 2]
    ensures Winner(site, rows, n) == Some(w[n]) && Deletable(site, rows, n) && !NeedsCopy(site, rows, n)
  {
    TwoViews(rows[n], v, w, n);
    OneIsBeforeTwo(rows[n].version, w[n].version);
  }

  /** A deletion made on top of a newer edit wins in conflict with this device's own edit. */
  lemma ConflictingDeletion(site: Site, v: View, w: View, rows: View, n: string)
    requires site.views == [v, w] && site.inFlight == {} && site.policy == ConflictCopy && !site.versioning
    requires n in rows && n in v && n in w && (rows[n] == Edited(n, File) || rows[n] == Edited(n, Directory)) && v[n] == Others(n, rows[n].kind)[n]
    requires w[n] == Gone(n, File, map[1 := 2, 2 := 1])
    ensures Winner(site, rows, n) == Some(w[n]) && Deletable(site, rows, n) && NeedsCopy(site, rows, n)
  {
    TwoViews(rows[n], v, w, n);
    StampsInOrder();
    EditLosesToDeletion(rows[n], v[n], w[n]);
  }

  lemma StampsInOrder()
    ensures forall f: FileInfo :: 0 <= f.modS <= 10 && f.modNs == 0 ==> Stamp(f) == f.modS * 1_000_000_000
  {
    forall f: FileInfo | 0 <= f.modS <= 10 && f.modNs == 0 ensures Stamp(f) == f.modS * 1_000_000_000 {
      WrapIsIdentity(f.modS * 1_000_000_000);
    }
  }

  /** The copy itself wins against the old tombstone of its name. */
  lemma CopyIsDecided(site: Site, v: View, w: View, rows: View, k: string)
    requires site.views == [v, w] && site.node == 9 && site.seen(k) == Row(k, File, 1, 5, map[]) && k !in v && k in w && k in rows
    requires w[k] == Gone(k, File, map[1 := 2]) && rows[k].version == map[1 := 1]
    ensures CopyWins(site, rows, k)
  {
    var copy := CopyRow(site, rows, k);
    TwoViews(copy, v, w, k);
    StampsInOrder();
    CopyBeatsDeletion(copy, w[k]);
  }

  ghost predicate LeavesNoTrace(site: Site, rows: View, disk: set<string>, d: string, c: string, depth: nat)
    requires Startable(site, rows, disk, d, depth) && c in rows
  {
    var t, k := Deleted(site, rows, disk, d, false, depth).st, CopyName(site, rows[c]);
    !Live(t.rows, c) && c !in t.disk && !Live(t.rows, k) && k !in t.disk
  }

  lemma CollisionDecisions(d: string, c: string, k: string)
    requires d != c && d != k && c != k
    ensures var site, rows := Plain([Others(c, File), Third(d, c, k)]), Mine(d, c, k, File);
            && Winner(site, rows, d) == Some(Third(d, c, k)[d]) && !NeedsCopy(site, rows, d)
            && Winner(site, rows, c) == Some(Third(d, c, k)[c]) && NeedsCopy(site, rows, c) && Deletable(site, rows, c)
            && Deletable(site, rows, k) && CopyWins(site, rows, k)
  {
    var v, w, rows := Others(c, File), Third(d, c, k), Mine(d, c, k, File);
    var site := Plain([v, w]);
    PlainDeletion(site, v, w, rows, d);
    PlainDeletion(site, v, w, rows, k);
    ConflictingDeletion(site, v, w, rows, c);
    CopyIsDecided(site, v, w, rows, k);
  }

  lemma CollisionRows(d: string, c: string, k: string, depth: nat)
    requires d != c && d != k && c != k && Names.Under(c, d) && Names.Under(k, d) && !Names.Under(d, d)
    requires Names.Depth(d) <= depth && Names.Depth(c) <= depth && Names.Depth(k) <= depth
    ensures Bounded(Mine(d, c, k, File), depth) && LiveUnder(Mine(d, c, k, File), d) == {c, k}
  {
  }

  lemma CollisionMember(d: string, c: string, k: string, depth: nat)
    requires d != c && d != k && c != k && k == ConflictNames.ConflictName(c, FIVE, 9) && Names.Less(k, c)
    requires Names.Under(c, d) && Names.Under(k, d) && !Names.Under(d, d)
    requires IsTree({d, c}) && NothingUnder({d, c}, k) && NothingUnder({d, c}, c)
    requires Names.Depth(d) <= depth && Names.Depth(c) <= depth && Names.Depth(k) <= depth
    ensures var site, rows, disk := Plain([Others(c, File), Third(d, c, k)]), Mine(d, c, k, File), {d, c};
            && Startable(site, rows, disk, d, depth) && NeedsCopy(site, rows, c)
            && Colliding(site, rows, disk, d, c, k) && Live(rows, k) && CopyWins(site, rows, k)
  {
    FiveIsATime();
    CollisionDecisions(d, c, k);
    CollisionRows(d, c, k, depth);
  }

  /** A concurrent edit in a deleted directory leaves no trace: its row is a tombstone, and so is
      the row of the copy that was to preserve it; neither is on disk. */
  lemma CollisionHappens()
    ensures exists site: Site, rows: View, disk: set<string>, d: string, c: string, depth: nat ::
              Startable(site, rows, disk, d, depth) && NeedsCopy(site, rows, c) && LeavesNoTrace(site, rows, disk, d, c, depth)
  {
    var d, c := "d", "d/.t";
    var k := ConflictNames.ConflictName(c, FIVE, 9);
    CopyComesFirst(d, c, k);
    CollisionMember(d, c, k, 4);
    var site, rows, disk := Plain([Others(c, File), Third(d, c, k)]), Mine(d, c, k, File), {d, c};
    CollisionDestroysCopy(site, rows, disk, d, c, k, 4);
    assert LeavesNoTrace(site, rows, disk, d, c, 4);
  }

  lemma CopyComesFirst(d: string, c: string, k: string)
    requires d == "d" && c == "d/.t" && k == ConflictNames.ConflictName(c, FIVE, 9)
    ensures Names.Less(k, c) && Names.Under(c, d) && Names.Under(k, d) && !Names.Under(d, d)
    ensures d != c && d != k && c != k && IsTree({d, c}) && NothingUnder({d, c}, k) && NothingUnder({d, c}, c)
    ensures Names.Depth(d) <= 4 && Names.Depth(c) <= 4 && Names.Depth(k) <= 4
  {
    Names.DepthIsShort(d);
    Names.DepthIsShort(c);
    FiveIsATime();
    ConflictNames.CopyIsSibling(c, FIVE, 9);
    assert c == d + "/" + ".t";
    forall u: string ensures (Names.Under(c, u) <==> u == d) && !Names.Under(d, u) {
      Names.UnderChild(d, ".t", u);
    }
    CopySortsFirst(c, k, "");
    assert k + "" == k;
  }

  lemma DotFileParts(c: string)
    requires c == "d/.t"
    ensures ConflictNames.Ext(c) == ".t" && ConflictNames.Base(c) == "d/"
  {
    assert ConflictNames.ExtFrom(c, 3) == ".t";
  }

  lemma CopySortsFirst(c: string, k: string, more: string)
    requires c == "d/.t" && k == ConflictNames.ConflictName(c, FIVE, 9)
    ensures Names.Less(k + more, c)
  {
    DotFileParts(c);
    var rest := ConflictNames.Tag(FIVE, 9) + ".t" + more;
    SmallTail(rest);
    assert k + more == "d/" + ConflictNames.SUFFIX + rest;
    assert c == "d/" + ".t";
    SharedPrefix("d/", ConflictNames.SUFFIX + rest, ".t");
    assert "d/" + (ConflictNames.SUFFIX + rest) == k + more;
  }

  lemma SmallTail(rest: string)
    ensures Names.Less(ConflictNames.SUFFIX + rest, ".t")
  {
    var s := ConflictNames.SUFFIX + rest;
    assert s[0] == '.' && s[1..][0] == 's' && ".t"[1..] == "t";
    assert Names.Less(s[1..], "t");
  }

  lemma {:induction false} SharedPrefix(p: string, a: string, b: string)
    requires Names.Less(a, b)
    ensures Names.Less(p + a, p + b)
    decreases |p|
  {
    if p == "" {
      assert p + a == a && p + b == b;
    } else {
      assert (p + a)[1..] == p[1..] + a && (p + b)[1..] == p[1..] + b;
      SharedPrefix(p[1..], a, b);
    }
  }

  // The same conflict over a directory, with an earlier copy of it still in the index.

  function MineToo(p: Shadow): View
  {
    Mine(p.d, p.c, p.k, Directory)
    [p.y := Row(p.y, Directory, 0, 5, map[1 := 1])][p.ky := Row(p.ky, Directory, 0, 5, map[1 := 1])][p.kz := Row(p.kz, File, 1, 5, map[1 := 1])]
  }

  function ThirdToo(p: Shadow): View
  {
    Third(p.d, p.c, p.k)
    [p.y := Gone(p.y, Directory, map[1 := 2])][p.ky := Gone(p.ky, File, map[1 := 2])][p.kz := Gone(p.kz, File, map[1 := 2])]
  }

  lemma ShadowDecisions(site: Site, v: View, w: View, rows: View, p: Shadow)
    requires p.Placed() && v == Others(p.c, Directory) && w == ThirdToo(p) && site == Plain([v, w]) && rows == MineToo(p)
    ensures PlainDirectory(site, rows, p.d) && PlainDirectory(site, rows, p.y) && Deletable(site, rows, p.y)
    ensures PlainFile(site, rows, p.ky) && PlainFile(site, rows, p.kz)
    ensures Deletable(site, rows, p.c) && NeedsCopy(site, rows, p.c) && Winner(site, rows, p.c).value.kind != Directory
    ensures Deletable(site, rows, p.k) && CopyWins(site, rows, p.k)
  {
    Distinct(p);
    PlainDeletion(site, v, w, rows, p.d);
    PlainDeletion(site, v, w, rows, p.y);
    PlainDeletion(site, v, w, rows, p.k);
    PlainDeletion(site, v, w, rows, p.ky);
    PlainDeletion(site, v, w, rows, p.kz);
    ConflictingDeletion(site, v, w, rows, p.c);
    CopyIsDecided(site, v, w, rows, p.k);
  }

  lemma ShadowKeys(p: Shadow, rows: View)
    requires rows == MineToo(p)
    ensures rows.Keys == {p.d, p.c, p.y, p.k, p.ky, p.kz} && forall r :: r in rows ==> rows[r].name == r && !rows[r].deleted
  {
  }

  lemma ShadowRows(p: Shadow, rows: View, depth: nat)
    requires p.Placed() && rows == MineToo(p) && Names.Depth(p.z) <= depth && Names.Depth(p.kz) <= depth
    ensures Bounded(rows, depth) && LiveUnder(rows, p.d) == {p.y, p.c, p.kz, p.ky, p.k}
  {
    ShadowKeys(p, rows);
    ShadowBounded(p, rows.Keys, depth);
  }

  lemma ShadowBounded(p: Shadow, keys: set<string>, depth: nat)
    requires p.Placed() && keys == {p.d, p.c, p.y, p.k, p.ky, p.kz} && Names.Depth(p.z) <= depth && Names.Depth(p.kz) <= depth
    ensures forall r :: r in keys ==> Names.Depth(r) <= depth
    ensures (set r | r in keys && Names.Under(r, p.d)) == {p.y, p.c, p.kz, p.ky, p.k}
  {
    Depths(p);
    Lines(p);
    NotUnderDeeper(p.d, p.d);
  }

  lemma ShadowStarts(site: Site, rows: View, p: Shadow, depth: nat)
    requires p.Placed() && IsTree({p.d, p.c, p.y, p.z}) && site == Plain([Others(p.c, Directory), ThirdToo(p)]) && rows == MineToo(p)
    requires Names.Depth(p.z) <= depth && Names.Depth(p.kz) <= depth
    ensures Startable(site, rows, {p.d, p.c, p.y, p.z}, p.d, depth)
  {
    FiveIsATime();
    Depths(p);
    ShadowRows(p, rows, depth);
  }

  lemma ShadowIndex(p: Shadow, rows: View)
    requires p.Placed() && rows == MineToo(p)
    ensures Live(rows, p.d) && p.c in rows && rows[p.c] == Edited(p.c, Directory)
  {
    Distinct(p);
  }

  lemma ShadowMember(site: Site, rows: View, p: Shadow, depth: nat)
    requires p.Placed() && p.k == ConflictNames.ConflictName(p.c, FIVE, 9) && IsTree({p.d, p.c, p.y, p.z})
    requires site == Plain([Others(p.c, Directory), ThirdToo(p)]) && rows == MineToo(p)
    requires Names.Depth(p.z) <= depth && Names.Depth(p.kz) <= depth
    ensures Shadowed(site, rows, {p.d, p.c, p.y, p.z}, p) && CopyWins(site, rows, p.k)
  {
    ShadowRows(p, rows, depth);
    ShadowIndex(p, rows);
    ShadowDecisions(site, Others(p.c, Directory), ThirdToo(p), rows, p);
  }

  lemma ShadowPlaces(p: Shadow)
    requires p.d == "d" && p.c == "d/.t" && p.y == "d/.t/y" && p.z == "d/.t/y/z"
    requires p.k == ConflictNames.ConflictName(p.c, FIVE, 9) && p.ky == p.k + "/y" && p.kz == p.k + "/y/z"
    ensures p.Placed() && IsTree({p.d, p.c, p.y, p.z}) && Names.Depth(p.z) <= 8 && Names.Depth(p.kz) <= 8
  {
    CopyComesFirst(p.d, p.c, p.k);
    FiveIsATime();
    ConflictNames.CopyIsSibling(p.c, FIVE, 9);
    Names.DepthIsShort(p.z);
    Names.DepthIsShort(p.c);
    Names.DepthAppends(p.k, "/y/z");
    Names.DepthIsShort("/y/z");
    assert p.c == p.d + "/" + ".t" && p.y == p.c + "/" + "y" && p.z == p.y + "/" + "z";
    assert p.y[|p.c|..] == "/y" && p.z[|p.c|..] == "/y/z";
    Line(p.d, p.c, ".t", p.y, "y", p.z, "z");
    CopySortsFirst(p.c, p.k, "/y/z");
  }

  /** Some directory dies over a live row. */
  ghost predicate SomeDiesOverLive(hold: bool)
  {
    exists site: Site, rows: View, disk: set<string>, d: string, depth: nat ::
      Startable(site, rows, disk, d, depth) && Live(rows, d) && DiesOverLive(site, rows, disk, d, hold, depth)
  }

  lemma ThisDies(site: Site, rows: View, disk: set<string>, d: string, hold: bool, depth: nat)
    requires Startable(site, rows, disk, d, depth) && Live(rows, d) && DiesOverLive(site, rows, disk, d, hold, depth)
    ensures SomeDiesOverLive(hold)
  {
  }

  lemma ShadowDies(site: Site, rows: View, disk: set<string>, p: Shadow, depth: nat)
    requires Startable(site, rows, disk, p.d, depth) && Shadowed(site, rows, disk, p) && CopyWins(site, rows, p.k) && p.z in disk
    ensures DiesOverLive(site, rows, disk, p.d, false, depth)
  {
    RenameSwallowsRow(site, rows, disk, p, depth);
    Lines(p);
    assert Live(Deleted(site, rows, disk, p.d, false, depth).st.rows, p.y);
  }

  /** Without the hold area too, a directory can die over a live row. */
  lemma RenameCanSwallow()
    ensures SomeDiesOverLive(false)
  {
    var c := "d/.t";
    var k := ConflictNames.ConflictName(c, FIVE, 9);
    var p := Shadow("d", c, "d/.t/y", "d/.t/y/z", k, k + "/y", k + "/y/z");
    ShadowPlaces(p);
    var site, rows := Plain([Others(c, Directory), ThirdToo(p)]), MineToo(p);
    ShadowStarts(site, rows, p, 8);
    ShadowMember(site, rows, p, 8);
    ShadowDies(site, rows, {p.d, p.c, p.y, p.z}, p, 8);
    ThisDies(site, rows, {p.d, p.c, p.y, p.z}, p.d, false, 8);
  }
}

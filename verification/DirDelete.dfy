/** Applying tombstones, directories included: the recursion (engine.go applyDeletion,
    deleteDeletedChildren; index.go ListPrefix). */
module DirDelete {
  import opened Versions
  import opened Entries
  import opened GlobalModel
  import opened Overwrite
  import opened DirState
  import Names
  import Pending

  // ---- the listing ----

  ghost predicate Descending(names: seq<string>)
  {
    forall i, j :: 0 <= i < j < |names| ==> Names.Less(names[j], names[i])
  }

  /** The names of live rows under a directory, in descending order. */
  ghost predicate IsSubtreeListing(rows: View, dir: string, listing: seq<string>)
  {
    (forall n :: n in listing <==> Live(rows, n) && Names.Under(n, dir)) && Descending(listing)
  }

  function Reversed(s: seq<string>): (r: seq<string>)
    ensures |r| == |s| && forall i :: 0 <= i < |s| ==> r[i] == s[|s| - 1 - i]
    ensures forall n :: n in r <==> n in s
  {
    if s == [] then [] else
      var r := Reversed(s[1..]) + [s[0]];
      assert forall n :: n in s <==> n == s[0] || n in s[1..];
      r
  }

  function LiveUnder(rows: View, dir: string): set<string>
  {
    set n | n in rows && !rows[n].deleted && Names.Under(n, dir)
  }

  ghost function Listing(rows: View, dir: string): (listing: seq<string>)
    ensures IsSubtreeListing(rows, dir, listing)
  {
    Reversed(Names.SortedList(LiveUnder(rows, dir)))
  }

  /** ListPrefix: live names from "dir/" up to "dir0", in descending order, are exactly the
      live rows of the subtree, children before their parents. */
  method ListPrefix(rows: View, dir: string) returns (listing: seq<string>)
    ensures listing == Listing(rows, dir)
  {
    var found := set n | n in rows && !rows[n].deleted && !Names.Less(n, dir + "/") && Names.Less(n, dir + "0");
    forall n ensures n in found <==> n in rows && !rows[n].deleted && Names.Under(n, dir) {
      Names.RangeIsSubtree(n, dir);
    }
    assert found == LiveUnder(rows, dir);
    var ascending := Names.SortNames(found);
    listing := Reversed(ascending);
  }

  /** The listing holds exactly the live rows of the subtree, children before their parents. */
  lemma ChildrenFirst(rows: View, dir: string)
    ensures var listing := Listing(rows, dir);
            && (forall n :: n in listing <==> Live(rows, n) && Names.Under(n, dir))
            && forall i, j :: 0 <= i < |listing| && 0 <= j < |listing| && Names.Under(listing[i], listing[j]) ==> i < j
  {
    var listing := Listing(rows, dir);
    forall i, j | 0 <= i < |listing| && 0 <= j < |listing| && Names.Under(listing[i], listing[j]) ensures i < j {
      if j <= i { NotAbove(listing, j, i); }
    }
  }

  /** In a descending list nothing lies under something earlier, and nothing repeats. */
  lemma NotAbove(names: seq<string>, i: nat, j: nat)
    requires Descending(names) && i <= j < |names|
    ensures !Names.Under(names[j], names[i]) && (i < j ==> names[j] != names[i])
  {
    Names.LessIrreflexive(names[i]);
    if Names.Under(names[j], names[i]) {
      Names.ParentSortsFirst(names[j], names[i]);
      if i < j { Names.LessTransitive(names[i], names[j], names[i]); }
    }
  }

  /** The listed rows that may go. */
  ghost function Going(site: Site, rows: View, listing: seq<string>): seq<string>
  {
    if listing == [] then []
    else
      var init, last := listing[..|listing| - 1], listing[|listing| - 1];
      Going(site, rows, init) + if Deletable(site, rows, last) then [last] else []
  }

  /** The number of listed rows that must stay. */
  ghost function Staying(site: Site, rows: View, listing: seq<string>): nat
  {
    if listing == [] then 0
    else
      var init, last := listing[..|listing| - 1], listing[|listing| - 1];
      Staying(site, rows, init) + if Deletable(site, rows, last) then 0 else 1
  }

  lemma GoingOrStaying(site: Site, rows: View, listing: seq<string>)
    ensures forall n :: n in Going(site, rows, listing) <==> n in listing && Deletable(site, rows, n)
    ensures Staying(site, rows, listing) == 0 <==> forall n :: n in listing ==> Deletable(site, rows, n)
    ensures Descending(listing) ==> Descending(Going(site, rows, listing))
  {
    GoingMembers(site, rows, listing);
    GoingDescends(site, rows, listing);
  }

  lemma {:induction false} GoingMembers(site: Site, rows: View, listing: seq<string>)
    ensures forall n :: n in Going(site, rows, listing) <==> n in listing && Deletable(site, rows, n)
    ensures Staying(site, rows, listing) == 0 <==> forall n :: n in listing ==> Deletable(site, rows, n)
  {
    if listing != [] {
      var init, last := listing[..|listing| - 1], listing[|listing| - 1];
      assert listing == init + [last];
      GoingMembers(site, rows, init);
    }
  }

  lemma {:induction false} GoingDescends(site: Site, rows: View, listing: seq<string>)
    ensures Descending(listing) ==> Descending(Going(site, rows, listing))
  {
    if listing != [] && Descending(listing) {
      var init, last := listing[..|listing| - 1], listing[|listing| - 1];
      GoingDescends(site, rows, init);
      GoingMembers(site, rows, init);
      var r := Going(site, rows, init);
      forall i | 0 <= i < |r| ensures Names.Less(last, r[i]) {
        assert r[i] in r && r[i] in init;
      }
    }
  }

  // ---- the recursion ----

  /** The index is keyed by name and no name lies deeper than `depth`. */
  ghost predicate Bounded(rows: View, depth: nat)
  {
    forall r :: r in rows ==> rows[r].name == r && Names.Depth(r) <= depth
  }

  datatype Result = Result(st: St, failed: bool, held: bool)

  datatype Pass = Pass(st: St, kept: nat)

  lemma ExecutedBounded(site: Site, hold: bool, depth: nat, s: St, c: string)
    requires Timed(site) && Bounded(s.rows, depth) && Executed(site, hold, s, c).Some?
    ensures Bounded(Executed(site, hold, s, c).value.rows, depth)
  {
    if Live(s.rows, c) {
      CopyNameIsBeside(site, s.rows[c]);
    }
  }

  /** applyDeletion. A conflict copy lies no deeper than its original, so the recursion ends
      although rows are added on the way. */
  ghost function Apply(site: Site, hold: bool, depth: nat, s: St, c: string): (o: Result)
    requires Timed(site) && Bounded(s.rows, depth) && Names.Depth(c) <= depth
    ensures Bounded(o.st.rows, depth)
    decreases depth - Names.Depth(c), 2, 0
  {
    match Winner(site, s.rows, c)
    case None => Result(s, true, false)
    case Some(w) =>
      if c in s.rows && s.rows[c].deleted && w.deleted then Result(s, false, false)
      else match Executed(site, hold, s, c)
        case None => Result(s, true, false)
        case Some(t) =>
          ExecutedBounded(site, hold, depth, s, c);
          if w.kind == Directory then
            var p := Children(site, hold, depth, t, c);
            if p.kept > 0 || Refuses(site, p.st.disk, c) then Result(p.st, false, false)
            else Result(Entombed(site, p.st, c), false, false)
          else if hold && c in t.disk && c in site.holdable then Result(Entombed(site, Lifted(t, c), c), false, true)
          else Result(Entombed(site, t, c), false, false)
  }

  /** deleteDeletedChildren: the deletable rows of the subtree, deepest first; a row that must
      stay or whose deletion fails counts as kept. */
  ghost function Children(site: Site, hold: bool, depth: nat, s: St, dir: string): (p: Pass)
    requires Timed(site) && Bounded(s.rows, depth) && Names.Depth(dir) <= depth
    ensures Bounded(p.st.rows, depth)
    decreases depth - Names.Depth(dir), 1, 0
  {
    var listing := Listing(s.rows, dir);
    var going := Going(site, s.rows, listing);
    GoingOrStaying(site, s.rows, listing);
    var p := Each(site, hold, depth, s, dir, going);
    p.(kept := Staying(site, s.rows, listing) + p.kept)
  }

  ghost function Each(site: Site, hold: bool, depth: nat, s: St, dir: string, names: seq<string>): (p: Pass)
    requires Timed(site) && Bounded(s.rows, depth) && Names.Depth(dir) <= depth
    requires forall n :: n in names ==> Names.Under(n, dir) && Names.Depth(n) <= depth
    ensures Bounded(p.st.rows, depth)
    decreases depth - Names.Depth(dir), 0, |names|
  {
    if names == [] then Pass(s, 0)
    else
      assert names[0] in names;
      Names.UnderIsDeeper(names[0], dir);
      var o := Apply(site, hold, depth, s, names[0]);
      var p := Each(site, hold, depth, o.st, dir, names[1..]);
      p.(kept := p.kept + if o.failed then 1 else 0)
  }

  lemma EachFirst(site: Site, hold: bool, depth: nat, s: St, dir: string, names: seq<string>)
    requires Timed(site) && Bounded(s.rows, depth) && Names.Depth(dir) <= depth
    requires names != [] && forall n :: n in names ==> Names.Under(n, dir) && Names.Depth(n) <= depth
    requires Names.Depth(names[0]) <= depth && !Apply(site, hold, depth, s, names[0]).failed
    ensures Each(site, hold, depth, s, dir, names) == Each(site, hold, depth, Apply(site, hold, depth, s, names[0]).st, dir, names[1..])
  {
    assert names[0] in names;
    Names.UnderIsDeeper(names[0], dir);
  }

  // ---- what the recursion keeps ----

  /** Every live row beneath dir is on disk or was carried off. */
  ghost predicate Settled(s: St, dir: string)
  {
    forall r :: PlacedOk(s, dir, [], r)
  }

  ghost predicate PlacedOk(s: St, dir: string, pending: seq<string>, r: string)
  {
    Live(s.rows, r) && Names.Under(r, dir) ==> Placed(s, r) || r in pending
  }

  ghost predicate SettledBut(s: St, dir: string, pending: seq<string>)
  {
    forall r :: PlacedOk(s, dir, pending, r)
  }

  /** A pass beneath dir: nothing outside the subtree changes. */
  ghost predicate PassFrame(s: St, t: St, dir: string)
  {
    && (forall q :: q in s.disk && q !in t.disk ==> Names.Under(q, dir)) && s.moved <= t.moved && s.copies <= t.copies
    && (forall r :: OutsideOk(s, t, dir, r))
  }

  ghost predicate OutsideOk(s: St, t: St, dir: string, r: string)
  {
    !Names.Under(r, dir) ==> Pending.AgreeAt(t.rows, s.rows, r)
  }

  /** No row outside the list goes astray. */
  ghost predicate PassStray(s: St, t: St, names: seq<string>)
  {
    forall r :: PassStrayOk(s, t, names, r)
  }

  ghost predicate PassStrayOk(s: St, t: St, names: seq<string>, r: string)
  {
    Astray(t, r) && r !in names ==> Astray(s, r) && Pending.AgreeAt(t.rows, s.rows, r)
  }

  /** The directory went away: nothing is left of it on disk, every row beneath it was
      deletable, and what is live beneath it was carried off. */
  ghost predicate DiedClean(site: Site, s: St, t: St, c: string)
  {
    && AllDeletable(site, s.rows, c)
    && (forall q :: q in t.disk ==> !Names.AtOrUnder(q, c))
    && (forall r :: Live(t.rows, r) && Names.Under(r, c) ==> Excused(t, r))
  }

  /** What one applyDeletion promises. */
  ghost predicate Applied(site: Site, run: Run, s: St, o: Result, c: string)
  {
    && Inv(site, run, o.st) && Frame(s, o.st, c)
    && (o.failed ==> o.st == s)
    && (Settled(s, c) ==> NoneStray(s, o.st, c) && (!o.failed ==> !Astray(o.st, c)))
    && (var w := Winner(site, s.rows, c);
        w.Some? && !o.failed ==>
          && (w.value.kind != Directory && (Live(s.rows, c) || !w.value.deleted) ==> !Live(o.st.rows, c))
          && (w.value.kind == Directory && Live(s.rows, c) && !Live(o.st.rows, c) ==> DiedClean(site, s, o.st, c)))
  }

  /** What a pass over the children promises. */
  ghost predicate Passed(site: Site, run: Run, s: St, p: Pass, dir: string, names: seq<string>)
  {
    && Inv(site, run, p.st) && PassFrame(s, p.st, dir)
    && (Settled(s, dir) ==> Settled(p.st, dir) && PassStray(s, p.st, []))
    && (SettledBut(s, dir, names) && p.kept == 0 ==> Settled(p.st, dir) && PassStray(s, p.st, names))
  }

  ghost predicate AllCalled(site: Site, run: Run, s: St, dir: string, names: seq<string>)
  {
    Descending(names) && forall n :: n in names ==> n != run.root && Names.Under(n, dir) && Called(site, run, s, n)
  }

  // One child.

  lemma ChildFrame(s: St, t: St, dir: string, c: string)
    requires Frame(s, t, c) && Names.Under(c, dir)
    ensures PassFrame(s, t, dir)
  {
    forall q | q in s.disk && q !in t.disk ensures Names.Under(q, dir) {
      Names.AtOrUnderTransitive(q, c, dir);
      if q == dir { Names.UnderTransitive(c, dir, c); }
    }
    forall r ensures OutsideOk(s, t, dir, r) {
      assert RowFrame(s, t, c, r);
      if Names.AtOrUnder(r, c) && r != c { Names.UnderTransitive(r, c, dir); }
    }
  }

  lemma PassFrameTransitive(s: St, t: St, u: St, dir: string)
    requires PassFrame(s, t, dir) && PassFrame(t, u, dir)
    ensures PassFrame(s, u, dir)
  {
    forall r ensures OutsideOk(s, u, dir, r) { assert OutsideOk(s, t, dir, r) && OutsideOk(t, u, dir, r); }
  }

  lemma StillCalled(site: Site, run: Run, s: St, t: St, dir: string, names: seq<string>)
    requires names != [] && AllCalled(site, run, s, dir, names) && Frame(s, t, names[0])
    ensures AllCalled(site, run, t, dir, names[1..])
  {
    var rest := names[1..];
    forall n | n in rest ensures n != run.root && Names.Under(n, dir) && Called(site, run, t, n) {
      var i :| 0 <= i < |rest| && rest[i] == n;
      NotAbove(names, 0, i + 1);
      assert n in names && RowFrame(s, t, names[0], n);
    }
  }

  /** Once every row beneath dir is in place, a child leaves it so, failed or not. */
  lemma ChildKeepsSettled(site: Site, run: Run, s: St, o: Result, dir: string, c: string)
    requires Applied(site, run, s, o, c) && Names.Under(c, dir) && Settled(s, dir)
    ensures Settled(o.st, dir) && PassStray(s, o.st, [])
  {
    SettledBelow(s, dir, c);
    forall r ensures PassStrayOk(s, o.st, [], r) && PlacedOk(o.st, dir, [], r) {
      assert StrayOk(s, o.st, c, r) && PlacedOk(s, dir, [], r);
      assert PlacedOk(s, dir, [], c);
    }
  }

  lemma SettledBelow(s: St, dir: string, c: string)
    requires Settled(s, dir) && Names.Under(c, dir)
    ensures Settled(s, c)
  {
    forall r ensures PlacedOk(s, c, [], r) {
      assert PlacedOk(s, dir, [], r);
      if Names.Under(r, c) { Names.UnderTransitive(r, c, dir); }
    }
  }

  /** While only listed rows may be out of place, what lies beneath the next one is in place. */
  lemma NextIsSettled(s: St, dir: string, names: seq<string>)
    requires names != [] && Descending(names) && Names.Under(names[0], dir) && SettledBut(s, dir, names)
    ensures Settled(s, names[0])
  {
    var c := names[0];
    forall r ensures PlacedOk(s, c, [], r) {
      assert PlacedOk(s, dir, names, r);
      if Live(s.rows, r) && Names.Under(r, c) {
        Names.UnderTransitive(r, c, dir);
        if r in names {
          var i :| 0 <= i < |names| && names[i] == r;
          NotAbove(names, 0, i);
        }
      }
    }
  }

  lemma ChildKeepsSettledBut(site: Site, run: Run, s: St, o: Result, dir: string, names: seq<string>)
    requires names != [] && Descending(names) && Names.Under(names[0], dir) && SettledBut(s, dir, names)
    requires Applied(site, run, s, o, names[0]) && !o.failed
    ensures SettledBut(o.st, dir, names[1..]) && PassStray(s, o.st, names)
  {
    var c := names[0];
    NextIsSettled(s, dir, names);
    forall r ensures PassStrayOk(s, o.st, names, r) && PlacedOk(o.st, dir, names[1..], r) {
      assert StrayOk(s, o.st, c, r) && PlacedOk(s, dir, names, r);
      assert r in names ==> r == c || r in names[1..];
      assert c in names;
    }
  }

  lemma StrayThrough(s: St, t: St, u: St, names: seq<string>, first: seq<string>, rest: seq<string>)
    requires PassStray(s, t, first) && PassStray(t, u, rest)
    requires forall r :: r in first || r in rest ==> r in names
    ensures PassStray(s, u, names)
  {
    forall r ensures PassStrayOk(s, u, names, r) { assert PassStrayOk(s, t, first, r) && PassStrayOk(t, u, rest, r); }
  }

  lemma {:induction false} EachKeeps(site: Site, run: Run, depth: nat, s: St, dir: string, names: seq<string>)
    requires Timed(site) && Bounded(s.rows, depth) && Names.Depth(dir) <= depth && Inv(site, run, s)
    requires AllCalled(site, run, s, dir, names) && forall n :: n in names ==> Names.Depth(n) <= depth
    ensures Passed(site, run, s, Each(site, run.hold, depth, s, dir, names), dir, names)
    decreases depth - Names.Depth(dir), 0, |names|
  {
    var p := Each(site, run.hold, depth, s, dir, names);
    if names == [] {
      forall r ensures OutsideOk(s, s, dir, r) && PassStrayOk(s, s, [], r) {}
      if SettledBut(s, dir, names) { assert Settled(s, dir); }
    } else {
      var c, rest := names[0], names[1..];
      assert c in names;
      Names.UnderIsDeeper(c, dir);
      var o := Apply(site, run.hold, depth, s, c);
      ApplyKeeps(site, run, depth, s, c);
      StillCalled(site, run, s, o.st, dir, names);
      EachKeeps(site, run, depth, o.st, dir, rest);
      EachStep(site, run, s, o, p, dir, names);
    }
  }

  lemma EachStep(site: Site, run: Run, s: St, o: Result, p: Pass, dir: string, names: seq<string>)
    requires names != [] && Names.Under(names[0], dir) && Descending(names) && Applied(site, run, s, o, names[0])
    requires p.kept >= (if o.failed then 1 else 0)
    requires Passed(site, run, o.st, p.(kept := p.kept - if o.failed then 1 else 0), dir, names[1..])
    ensures Passed(site, run, s, p, dir, names)
  {
    var c, rest := names[0], names[1..];
    ChildFrame(s, o.st, dir, c);
    PassFrameTransitive(s, o.st, p.st, dir);
    if Settled(s, dir) {
      ChildKeepsSettled(site, run, s, o, dir, c);
      StrayThrough(s, o.st, p.st, [], [], []);
    }
    if SettledBut(s, dir, names) && p.kept == 0 {
      ChildKeepsSettledBut(site, run, s, o, dir, names);
      StrayThrough(s, o.st, p.st, names, names, rest);
    }
  }

  lemma ChildrenKeep(site: Site, run: Run, depth: nat, s: St, dir: string)
    requires Timed(site) && Bounded(s.rows, depth) && Names.Depth(dir) <= depth && Inv(site, run, s)
    requires Names.AtOrUnder(dir, run.root)
    ensures var p := Children(site, run.hold, depth, s, dir);
            && Inv(site, run, p.st) && PassFrame(s, p.st, dir)
            && (Settled(s, dir) ==> Settled(p.st, dir) && PassStray(s, p.st, []))
            && (p.kept == 0 ==> AllDeletable(site, s.rows, dir) && Settled(p.st, dir))
            && (!LiveBeneath(s.rows, dir) ==> p == Pass(s, 0))
    decreases depth - Names.Depth(dir), 1, 0
  {
    var listing := Listing(s.rows, dir);
    var going := Going(site, s.rows, listing);
    GoingOrStaying(site, s.rows, listing);
    assert AllCalled(site, run, s, dir, going) by { GoingAreCalled(site, run, s, dir); }
    EachKeeps(site, run, depth, s, dir, going);
    var p := Children(site, run.hold, depth, s, dir);
    if p.kept == 0 {
      forall r ensures PlacedOk(s, dir, going, r) {}
      assert SettledBut(s, dir, going);
    }
  }

  lemma GoingAreCalled(site: Site, run: Run, s: St, dir: string)
    requires Inv(site, run, s) && Names.AtOrUnder(dir, run.root)
    ensures AllCalled(site, run, s, dir, Going(site, s.rows, Listing(s.rows, dir)))
  {
    var going := Going(site, s.rows, Listing(s.rows, dir));
    GoingOrStaying(site, s.rows, Listing(s.rows, dir));
    forall n | n in going ensures n != run.root && Names.Under(n, dir) && Called(site, run, s, n) {
      Names.AtOrUnderTransitive(n, dir, run.root);
      assert RowOk(site, run, s, n);
      DeletableIsBuried(site, s.rows, n);
      if n == run.root {
        Names.UnderIsDeeper(n, dir);
        if dir != run.root { Names.UnderIsDeeper(dir, run.root); }
      }
    }
  }

  /** The branch for a winner that is not a directory: the row always dies. */
  lemma FileApplied(site: Site, run: Run, s: St, t: St, o: Result, c: string)
    requires Prepared(site, run, s, t, c) && !o.failed
    requires Winner(site, s.rows, c).Some? && Winner(site, s.rows, c).value.kind != Directory
    requires var lifts := run.hold && c in t.disk && c in site.holdable;
             o.st == Entombed(site, if lifts then Lifted(t, c) else t, c)
    ensures Applied(site, run, s, o, c)
  {
    var lifts := run.hold && c in t.disk && c in site.holdable;
    var u := if lifts then Lifted(t, c) else t;
    if lifts {
      LiftedKeepsInv(site, run, t, c);
      FrameTransitive(s, t, u, c);
    }
    EntombedKeepsInv(site, run, u, c);
    FrameTransitive(s, u, o.st, c);
  }

  lemma PassIsFrame(s: St, t: St, c: string)
    requires PassFrame(s, t, c)
    ensures Frame(s, t, c) && Pending.AgreeAt(t.rows, s.rows, c)
    ensures PassStray(s, t, []) ==> NoneStray(s, t, c)
  {
    forall r ensures RowFrame(s, t, c, r) { assert OutsideOk(s, t, c, r); }
    assert OutsideOk(s, t, c, c);
    if PassStray(s, t, []) {
      forall r ensures StrayOk(s, t, c, r) { assert PassStrayOk(s, t, [], r); }
    }
  }

  /** Execute leaves every live row beneath the path in place. */
  lemma PreparedIsSettled(site: Site, run: Run, s: St, t: St, c: string)
    requires Prepared(site, run, s, t, c) && Settled(s, c)
    ensures Settled(t, c)
  {
    forall r ensures PlacedOk(t, c, [], r) { assert StrayOk(s, t, c, r) && PlacedOk(s, c, [], r); }
  }

  /** A directory that is kept is still in place. */
  lemma KeptIsPlaced(site: Site, run: Run, t: St, p: Pass, c: string)
    requires Inv(site, run, t) && Settled(t, c) && PassFrame(t, p.st, c) && Live(t.rows, c)
    requires LiveBeneath(t.rows, c) || Refuses(site, p.st.disk, c)
    ensures Placed(p.st, c)
  {
    if !Refuses(site, p.st.disk, c) && c !in t.disk {
      var r :| Live(t.rows, r) && Names.Under(r, c);
      assert PlacedOk(t, c, [], r);
      var x :| x in t.moved && Names.AtOrUnder(r, x);
      Names.AboveIsALine(r, x, c);
      if Names.AtOrUnder(c, x) {
        assert x in p.st.moved;
      } else {
        assert AboveOk(t, x, c);
        ExcuseStays(t, p.st, c);
      }
    }
  }

  lemma DirectoryStays(site: Site, run: Run, s: St, t: St, p: Pass, c: string)
    requires Prepared(site, run, s, t, c) && Frame(s, p.st, c) && PassFrame(t, p.st, c)
    requires Pending.AgreeAt(p.st.rows, t.rows, c)
    requires !LiveBeneath(t.rows, c) ==> p == Pass(t, 0)
    requires p.kept > 0 || Refuses(site, p.st.disk, c)
    ensures Live(s.rows, c) ==> Live(p.st.rows, c)
    ensures Settled(t, c) ==> !Astray(p.st, c)
  {
    if Settled(t, c) && Live(t.rows, c) { KeptIsPlaced(site, run, t, p, c); }
  }

  /** The branch for a directory. */
  lemma DirectoryApplied(site: Site, run: Run, s: St, t: St, p: Pass, o: Result, c: string)
    requires Timed(site) && Prepared(site, run, s, t, c) && !o.failed
    requires Winner(site, s.rows, c).Some? && Winner(site, s.rows, c).value.kind == Directory
    requires Inv(site, run, p.st) && PassFrame(t, p.st, c)
    requires Settled(t, c) ==> Settled(p.st, c) && PassStray(t, p.st, [])
    requires p.kept == 0 ==> AllDeletable(site, t.rows, c) && Settled(p.st, c)
    requires !LiveBeneath(t.rows, c) ==> p == Pass(t, 0)
    requires o.st == if p.kept > 0 || Refuses(site, p.st.disk, c) then p.st else Entombed(site, p.st, c)
    ensures Applied(site, run, s, o, c)
  {
    PassIsFrame(t, p.st, c);
    FrameTransitive(s, t, p.st, c);
    if Settled(s, c) { PreparedIsSettled(site, run, s, t, c); }
    if p.kept > 0 || Refuses(site, p.st.disk, c) {
      DirectoryStays(site, run, s, t, p, c);
    } else {
      DirectoryDies(site, run, s, t, p, c);
      FrameTransitive(s, p.st, o.st, c);
    }
  }

  lemma RootIsNoCopy(site: Site, run: Run, s: St)
    requires Timed(site) && Inv(site, run, s) && Pending.AgreeAt(s.rows, run.start, run.root)
    ensures run.root !in s.copies
  {
    assert RowOk(site, run, s, run.root);
    if run.root in run.start {
      CopyNameIsBeside(site, run.start[run.root]);
    }
  }

  lemma DirectoryDies(site: Site, run: Run, s: St, t: St, p: Pass, c: string)
    requires Timed(site) && Prepared(site, run, s, t, c) && Inv(site, run, p.st) && PassFrame(t, p.st, c) && Frame(t, p.st, c)
    requires Pending.AgreeAt(p.st.rows, t.rows, c)
    requires p.kept == 0 && AllDeletable(site, t.rows, c) && Settled(p.st, c) && !Refuses(site, p.st.disk, c)
    ensures Inv(site, run, Entombed(site, p.st, c)) && DiedClean(site, s, Entombed(site, p.st, c), c)
    ensures !Live(Entombed(site, p.st, c).rows, c)
  {
    var u := Entombed(site, p.st, c);
    if c == run.root { RootIsNoCopy(site, run, p.st); }
    EntombedKeepsInv(site, run, p.st, c);
    forall r | Live(s.rows, r) && Names.Under(r, c) ensures Deletable(site, s.rows, r) {
      assert Pending.AgreeAt(t.rows, s.rows, r);
      assert Live(t.rows, r);
    }
    forall r | Live(u.rows, r) && Names.Under(r, c) ensures Excused(u, r) {
      assert PlacedOk(p.st, c, [], r);
      ExcuseStays(p.st, u, r);
    }
  }

  /** Nothing happens: the deletion failed, or the row is a tombstone already. */
  lemma NothingApplied(site: Site, run: Run, s: St, o: Result, c: string)
    requires Inv(site, run, s) && o.st == s && (o.failed || !Live(s.rows, c))
    requires !o.failed && Winner(site, s.rows, c).Some? ==> Winner(site, s.rows, c).value.deleted
    ensures Applied(site, run, s, o, c)
  {
    forall r ensures RowFrame(s, s, c, r) && StrayOk(s, s, c, r) {}
  }

  lemma ApplyKeeps(site: Site, run: Run, depth: nat, s: St, c: string)
    requires Timed(site) && Bounded(s.rows, depth) && Names.Depth(c) <= depth
    requires Inv(site, run, s) && Called(site, run, s, c)
    ensures Applied(site, run, s, Apply(site, run.hold, depth, s, c), c)
    decreases depth - Names.Depth(c), 2, 0
  {
    var o, w := Apply(site, run.hold, depth, s, c), Winner(site, s.rows, c);
    if o.failed || (c in s.rows && s.rows[c].deleted && w.value.deleted) {
      NothingApplied(site, run, s, o, c);
      return;
    }
    var t := Executed(site, run.hold, s, c).value;
    ExecutedBounded(site, run.hold, depth, s, c);
    ExecutedPrepares(site, run, s, c);
    if w.value.kind == Directory {
      ChildrenKeep(site, run, depth, t, c);
      DirectoryApplied(site, run, s, t, Children(site, run.hold, depth, t, c), o, c);
    } else {
      FileApplied(site, run, s, t, o, c);
    }
  }

  // ---- one whole deletion ----

  ghost predicate Startable(site: Site, rows: View, disk: set<string>, name: string, depth: nat)
  {
    Timed(site) && Bounded(rows, depth) && IsTree(disk) && Names.Depth(name) <= depth
  }

  ghost function Deleted(site: Site, rows: View, disk: set<string>, name: string, hold: bool, depth: nat): Result
    requires Startable(site, rows, disk, name, depth)
  {
    Apply(site, hold, depth, St(rows, disk, {}, {}), name)
  }

  lemma DeletedKeeps(site: Site, rows: View, disk: set<string>, name: string, hold: bool, depth: nat)
    requires Startable(site, rows, disk, name, depth)
    ensures Applied(site, Run(rows, disk, name, hold), St(rows, disk, {}, {}), Deleted(site, rows, disk, name, hold, depth), name)
  {
    var run, s := Run(rows, disk, name, hold), St(rows, disk, {}, {});
    InvStarts(site, run);
    ApplyKeeps(site, run, depth, s, name);
  }

  lemma InvStarts(site: Site, run: Run)
    requires IsTree(run.before) && forall r :: r in run.start ==> run.start[r].name == r
    ensures Inv(site, run, St(run.start, run.before, {}, {}))
  {
    var s := St(run.start, run.before, {}, {});
    forall r ensures RowOk(site, run, s, r) {}
    forall x ensures BeneathOk(run, s, x) {}
    forall x ensures MovedOk(site, run, s, x) {}
    forall x, a ensures AboveOk(s, x, a) {}
    forall q ensures LostOk(site, run, s, q) {}
  }

  /** Which rows die: the path itself, and beneath it rows that were deletable, or that bear the
      name of a conflict copy of this device while a peer holds a tombstone under that name. A
      row that no conflict copy took over dies with its own version bumped. */
  lemma OnlyTheDoomedDie(site: Site, rows: View, disk: set<string>, name: string, hold: bool, depth: nat, r: string)
    requires Startable(site, rows, disk, name, depth)
    ensures var t, run := Deleted(site, rows, disk, name, hold, depth).st, Run(rows, disk, name, hold);
            && (Live(rows, r) && !Live(t.rows, r) ==> MayDie(site, run, r))
            && (!IsCopyName(site, r) ==> OldRow(site, run, t, r))
            && (hold ==> OldRow(site, run, t, r))
  {
    DeletedKeeps(site, rows, disk, name, hold, depth);
    var t, run := Deleted(site, rows, disk, name, hold, depth).st, Run(rows, disk, name, hold);
    assert RowOk(site, run, t, r);
  }

  /** Applying a deletion to a path that is a tombstone already changes nothing, beneath it or on disk. */
  lemma BuriedStays(site: Site, rows: View, disk: set<string>, name: string, hold: bool, depth: nat)
    requires Startable(site, rows, disk, name, depth) && name in rows && rows[name].deleted
    requires Winner(site, rows, name).Some? && Winner(site, rows, name).value.deleted
    ensures var o := Deleted(site, rows, disk, name, hold, depth); o.st == St(rows, disk, {}, {}) && !o.failed && !o.held
  {
  }

  /** Where the copy of a conflict cannot be made, because the file is not there, the system refuses
      the rename or a directory with contents has the name, the deletion fails and changes nothing. */
  lemma NoCopyNoDeath(site: Site, rows: View, disk: set<string>, name: string, depth: nat)
    requires Startable(site, rows, disk, name, depth) && NeedsCopy(site, rows, name)
    ensures var o := Deleted(site, rows, disk, name, false, depth);
            o.failed <==>
            || name !in disk || name in site.unmovable || exists q :: q in disk && Names.Under(q, CopyName(site, rows[name]))
    ensures var o := Deleted(site, rows, disk, name, false, depth); o.failed ==> o.st == St(rows, disk, {}, {})
  {
  }

  /** A live row beneath the path that is being written, or whose winner is not a deletion, is not
      touched, unless it bears the name of a conflict copy of this device. */
  lemma UndoomedStay(site: Site, rows: View, disk: set<string>, name: string, hold: bool, depth: nat, r: string)
    requires Startable(site, rows, disk, name, depth) && Live(rows, r) && r != name && (hold || !IsCopyName(site, r))
    requires r in site.inFlight || Global(Some(rows[r]), site.views, r).None? || !Global(Some(rows[r]), site.views, r).value.deleted
    ensures var t := Deleted(site, rows, disk, name, hold, depth).st.rows; r in t && t[r] == rows[r]
  {
    OnlyTheDoomedDie(site, rows, disk, name, hold, depth, r);
  }

  /** A row that dies leaves a tombstone without type, content and time whose version comes after
      the row's, up to the wrap of the counter; so no device that still has the row, or an older
      one, brings it back. Rows that a conflict copy took over are `CopySupersedes`. */
  lemma DeathIsFinal(site: Site, rows: View, disk: set<string>, name: string, hold: bool, depth: nat, r: string)
    requires Startable(site, rows, disk, name, depth) && Live(rows, r) && (hold || !IsCopyName(site, r))
    requires !Live(Deleted(site, rows, disk, name, hold, depth).st.rows, r)
    ensures var t := Deleted(site, rows, disk, name, hold, depth).st.rows;
            && r in t && t[r].deleted && t[r].name == r && t[r].kind == File && t[r].size == 0 && t[r].blocks == []
            && t[r].modS == 0 && t[r].modNs == 0
            && (Compare(t[r].version, rows[r].version) == Greater <==> Get(rows[r].version, site.node) < MAX_U64)
            && (Get(rows[r].version, site.node) < MAX_U64 ==> Prevails(t[r], r, rows[r].version))
  {
    OnlyTheDoomedDie(site, rows, disk, name, hold, depth, r);
    BumpIsAbove(rows[r].version, site.node);
    if Get(rows[r].version, site.node) < MAX_U64 {
      LaterPrevails(Deleted(site, rows, disk, name, hold, depth).st.rows[r], r, rows[r].version);
    }
  }

  /** Whatever a deletion does to a row, it forgets nothing that other devices did to the name. */
  lemma HistoryIsKept(site: Site, rows: View, disk: set<string>, name: string, hold: bool, depth: nat, r: string, d: U64)
    requires Startable(site, rows, disk, name, depth) && d != site.node
    ensures var t := Deleted(site, rows, disk, name, hold, depth).st.rows;
            && (r in rows ==> r in t) && Get(VersionAt(t, r), d) == Get(VersionAt(rows, r), d)
  {
    DeletedKeeps(site, rows, disk, name, hold, depth);
    var run, t := Run(rows, disk, name, hold), Deleted(site, rows, disk, name, hold, depth).st;
    assert RowOk(site, run, t, r) && SameHistory(site, run, t, r);
  }

  /** Which paths leave the disk: beneath the path only, and without the hold area only paths
      of rows that may die, or what a conflict copy took along to its new name. */
  lemma OnlyTheDoomedAreLost(site: Site, rows: View, disk: set<string>, name: string, hold: bool, depth: nat, q: string)
    requires Startable(site, rows, disk, name, depth)
    requires q in disk && q !in Deleted(site, rows, disk, name, hold, depth).st.disk
    ensures var run := Run(rows, disk, name, hold);
            && Names.AtOrUnder(q, name)
            && (hold || MayDie(site, run, q) || exists c :: CopyCause(site, run, c) && Names.AtOrUnder(q, c))
  {
    DeletedKeeps(site, rows, disk, name, hold, depth);
    assert LostOk(site, Run(rows, disk, name, hold), Deleted(site, rows, disk, name, hold, depth).st, q);
  }

  /** A directory row dies only if every live row beneath it was deletable and nothing of it is
      left on disk; and a row it dies over lies at or under a risky path. */
  lemma DirectoryDiesOverLiveRow(site: Site, rows: View, disk: set<string>, name: string, hold: bool, depth: nat)
    requires Startable(site, rows, disk, name, depth) && Live(rows, name)
    requires Winner(site, rows, name).Some? && Winner(site, rows, name).value.kind == Directory
    requires !Live(Deleted(site, rows, disk, name, hold, depth).st.rows, name)
    ensures var t, run := Deleted(site, rows, disk, name, hold, depth).st, Run(rows, disk, name, hold);
            && AllDeletable(site, rows, name) && (forall q :: q in t.disk ==> !Names.AtOrUnder(q, name))
            && forall r :: Live(t.rows, r) && Names.Under(r, name) ==> exists x :: Names.AtOrUnder(r, x) && Risky(site, run, x)
  {
    DeletedKeeps(site, rows, disk, name, hold, depth);
    var t, run := Deleted(site, rows, disk, name, hold, depth).st, Run(rows, disk, name, hold);
    forall r | Live(t.rows, r) && Names.Under(r, name) ensures exists x :: Names.AtOrUnder(r, x) && Risky(site, run, x) {
      var x :| x in t.moved && Names.AtOrUnder(r, x);
      assert MovedOk(site, run, t, x);
    }
  }

  // ---- without the hold area: when no peer has buried the name of a copy ----

  /** No peer holds a tombstone beneath dir under a name shaped like a conflict copy made here. */
  ghost predicate NoBuriedCopies(site: Site, dir: string)
  {
    forall k :: Names.Under(k, dir) && IsCopyName(site, k) ==> !Buried(site, k)
  }

  /** Nothing is left of the root beneath it, and no copy beneath it was buried. */
  ghost predicate Emptied(site: Site, run: Run, t: St)
  {
    && Timed(site) && Inv(site, run, t) && !run.hold && run.root !in t.moved && NoBuriedCopies(site, run.root)
    && (forall r :: r in run.start ==> run.start[r].name == r) && (forall q :: q in t.disk ==> !Names.Under(q, run.root))
  }

  lemma NoCopyIsMoved(site: Site, run: Run, t: St, k: string)
    requires Emptied(site, run, t)
    ensures IsCopyName(site, k) ==> k !in t.moved
  {
    assert MovedOk(site, run, t, k);
  }

  /** A copy stays where it was put, so what was carried off was carried off with something above. */
  lemma CarriedFromAbove(site: Site, run: Run, t: St, x: string)
    requires Emptied(site, run, t) && x in t.moved
    ensures exists y :: y in t.moved && Names.Under(x, y)
  {
    NoCopyIsMoved(site, run, t, x);
    assert MovedOk(site, run, t, x);
    var k := CopyName(site, run.start[x]);
    CopyNameIsBeside(site, run.start[x]);
    NoCopyIsMoved(site, run, t, k);
    assert RowOk(site, run, t, k);
  }

  lemma {:induction false} NothingCarriedOff(site: Site, run: Run, t: St, x: string)
    requires Emptied(site, run, t)
    ensures x !in t.moved
    decreases Names.Depth(x)
  {
    if x in t.moved {
      CarriedFromAbove(site, run, t, x);
      var y :| y in t.moved && Names.Under(x, y);
      Names.UnderIsDeeper(x, y);
      NothingCarriedOff(site, run, t, y);
    }
  }

  lemma EmptyPass(site: Site, hold: bool, depth: nat, s: St, dir: string)
    requires Timed(site) && Bounded(s.rows, depth) && Names.Depth(dir) <= depth && !LiveBeneath(s.rows, dir)
    ensures Children(site, hold, depth, s, dir) == Pass(s, 0)
  {
  }

  /** A row that is not on disk dies, unless it needs a copy. */
  lemma AbsentApply(site: Site, depth: nat, s: St, c: string)
    requires Timed(site) && Bounded(s.rows, depth) && Names.Depth(c) <= depth
    requires Live(s.rows, c) && c !in s.disk && !LiveBeneath(s.rows, c)
    ensures var o := Apply(site, false, depth, s, c);
            o == if Winner(site, s.rows, c).None? || NeedsCopy(site, s.rows, c) then Result(s, true, false)
                 else Result(Entombed(site, s, c), false, false)
  {
    EmptyPass(site, false, depth, s, c);
    assert s.disk - {c} == s.disk;
  }

  lemma {:induction false} AbsentEach(site: Site, depth: nat, s: St, dir: string, names: seq<string>)
    requires Timed(site) && Bounded(s.rows, depth) && Names.Depth(dir) <= depth && Descending(names)
    requires forall n :: n in names <==> Live(s.rows, n) && Names.Under(n, dir)
    requires forall q :: q in s.disk ==> !Names.Under(q, dir)
    requires forall n :: n in names ==> Names.Depth(n) <= depth
    ensures var p := Each(site, false, depth, s, dir, names); p.kept == 0 ==> !LiveBeneath(p.st.rows, dir)
    decreases |names|
  {
    if names != [] && Each(site, false, depth, s, dir, names).kept == 0 {
      var c, rest := names[0], names[1..];
      assert c in names && forall n :: n in names <==> n == c || n in rest;
      forall n | n in rest ensures !Names.AtOrUnder(n, c) {
        var i :| 0 <= i < |rest| && rest[i] == n;
        NotAbove(names, 0, i + 1);
      }
      NoneBeneath(s.rows, dir, c, rest);
      AbsentApply(site, depth, s, c);
      Names.UnderIsDeeper(c, dir);
      AbsentEach(site, depth, Entombed(site, s, c), dir, rest);
    }
  }

  lemma NoneBeneath(rows: View, dir: string, c: string, rest: seq<string>)
    requires Names.Under(c, dir) && forall n :: Live(rows, n) && Names.Under(n, dir) ==> n == c || n in rest
    requires forall n :: n in rest ==> !Names.AtOrUnder(n, c)
    ensures !LiveBeneath(rows, c)
  {
    if r :| Live(rows, r) && Names.Under(r, c) {
      Names.UnderTransitive(r, c, dir);
      Names.UnderIsDeeper(r, c);
    }
  }

  /** A directory that was itself moved aside as a conflict copy dies alone. */
  lemma CopiedDirectoryDiesAlone(site: Site, rows: View, disk: set<string>, name: string, depth: nat)
    requires Startable(site, rows, disk, name, depth) && NeedsCopy(site, rows, name)
    requires Winner(site, rows, name).value.kind == Directory
    ensures var t := Deleted(site, rows, disk, name, false, depth).st;
            !Live(t.rows, name) ==> !LiveBeneath(t.rows, name)
  {
    var s, k := St(rows, disk, {}, {}), CopyName(site, rows[name]);
    var e := Executed(site, false, s, name);
    if e.Some? {
      ExecutedBounded(site, false, depth, s, name);
      AsideIsElsewhere(site, rows[name], disk);
      RootUntouched(site, rows, disk, name, false, depth);
      AbsentDirectory(site, depth, s, e.value, name);
    }
  }

  lemma AbsentDirectory(site: Site, depth: nat, s: St, t: St, c: string)
    requires Timed(site) && Bounded(s.rows, depth) && Bounded(t.rows, depth) && Names.Depth(c) <= depth && Live(s.rows, c)
    requires Winner(site, s.rows, c).Some? && Winner(site, s.rows, c).value.kind == Directory
    requires Executed(site, false, s, c) == Some(t) && forall q :: q in t.disk ==> !Names.Under(q, c)
    requires Live(Children(site, false, depth, t, c).st.rows, c)
    ensures var u := Apply(site, false, depth, s, c).st; !Live(u.rows, c) ==> !LiveBeneath(u.rows, c)
  {
    AbsentChildren(site, depth, t, c);
    NoneRevived(site, Children(site, false, depth, t, c).st, c);
  }

  /** The pass beneath a path leaves its own row alone. */
  lemma RootUntouched(site: Site, rows: View, disk: set<string>, name: string, hold: bool, depth: nat)
    requires Startable(site, rows, disk, name, depth) && Executed(site, hold, St(rows, disk, {}, {}), name).Some?
    ensures var t := Executed(site, hold, St(rows, disk, {}, {}), name).value;
            Bounded(t.rows, depth) && Pending.AgreeAt(Children(site, hold, depth, t, name).st.rows, rows, name)
  {
    var run, s := Run(rows, disk, name, hold), St(rows, disk, {}, {});
    InvStarts(site, run);
    ExecutedBounded(site, hold, depth, s, name);
    ExecutedPrepares(site, run, s, name);
    var t := Executed(site, hold, s, name).value;
    ChildrenKeep(site, run, depth, t, name);
    assert OutsideOk(t, Children(site, hold, depth, t, name).st, name, name);
  }

  lemma NoneRevived(site: Site, s: St, c: string)
    ensures LiveBeneath(Entombed(site, s, c).rows, c) ==> LiveBeneath(s.rows, c)
  {
  }

  lemma AsideIsElsewhere(site: Site, f: FileInfo, disk: set<string>)
    requires Timed(site)
    ensures forall q :: q in Renamed(disk, f.name, CopyName(site, f)) ==> !Names.Under(q, f.name)
  {
    var c, k := f.name, CopyName(site, f);
    CopyNameIsBeside(site, f);
    forall q | q in Renamed(disk, c, k) ensures !Names.Under(q, c) {
      if q !in Pruned(disk, c) && Names.Under(q, c) {
        var p :| p in disk && Names.AtOrUnder(p, c) && q == k + p[|c|..];
        if p == c { assert q == k; } else { assert q[..|k|] == k && q[|k|] == '/'; }
        Names.AboveIsALine(q, k, c);
      }
    }
  }

  lemma AbsentChildren(site: Site, depth: nat, s: St, dir: string)
    requires Timed(site) && Bounded(s.rows, depth) && Names.Depth(dir) <= depth
    requires forall q :: q in s.disk ==> !Names.Under(q, dir)
    ensures var p := Children(site, false, depth, s, dir); p.kept == 0 ==> !LiveBeneath(p.st.rows, dir)
  {
    var listing := Listing(s.rows, dir);
    GoingOrStaying(site, s.rows, listing);
    if Children(site, false, depth, s, dir).kept == 0 {
      AbsentEach(site, depth, s, dir, Going(site, s.rows, listing));
    }
  }

  /** Without the hold area a directory dies over a live row only where conflict copies are made
      and a peer has buried the name of one beneath it. */
  lemma DirectoryDiesAlone(site: Site, rows: View, disk: set<string>, name: string, depth: nat)
    requires Startable(site, rows, disk, name, depth) && Live(rows, name)
    requires Winner(site, rows, name).Some? && Winner(site, rows, name).value.kind == Directory
    requires site.policy == ConflictCopy && !site.versioning ==> NoBuriedCopies(site, name)
    ensures var t := Deleted(site, rows, disk, name, false, depth).st;
            !Live(t.rows, name) ==> !LiveBeneath(t.rows, name)
  {
    var t, run := Deleted(site, rows, disk, name, false, depth).st, Run(rows, disk, name, false);
    if NeedsCopy(site, rows, name) {
      CopiedDirectoryDiesAlone(site, rows, disk, name, depth);
    } else if !Live(t.rows, name) {
      DeletedKeeps(site, rows, disk, name, false, depth);
      if r :| Live(t.rows, r) && Names.Under(r, name) {
        var x :| x in t.moved && Names.AtOrUnder(r, x);
        assert MovedOk(site, run, t, x) && MovedOk(site, run, t, name);
        NothingCarriedOff(site, run, t, x);
      }
    }
  }

  /** A tombstone that is not typed as a directory never looks beneath its path: the row dies,
      the rows beneath stay, so it dies over a live row exactly when there was one. */
  lemma FileTombstoneIgnoresBeneath(site: Site, rows: View, disk: set<string>, name: string, hold: bool, depth: nat)
    requires Startable(site, rows, disk, name, depth) && Live(rows, name)
    requires Winner(site, rows, name).Some? && Winner(site, rows, name).value.kind != Directory
    requires !Deleted(site, rows, disk, name, hold, depth).failed
    ensures var t := Deleted(site, rows, disk, name, hold, depth).st;
            && !Live(t.rows, name) && (LiveBeneath(t.rows, name) <==> LiveBeneath(rows, name))
            && forall r :: Names.Under(r, name) ==> Pending.AgreeAt(t.rows, rows, r)
  {
    CopyNameIsBeside(site, rows[name]);
    var t := Deleted(site, rows, disk, name, hold, depth).st;
    forall r | Names.Under(r, name) ensures Pending.AgreeAt(t.rows, rows, r) && (Live(t.rows, r) <==> Live(rows, r)) {
    }
  }

  /** What the deletion of a live row by a tombstone that is not typed as a directory takes from the
      disk, when nothing has to be preserved as a copy: with the hold area, if it accepts the
      path, everything at and under it; otherwise at most the path itself, if nothing lies under
      it and the system removes it or versioning archives it. */
  lemma FileTombstoneOnDisk(site: Site, rows: View, disk: set<string>, name: string, hold: bool, depth: nat, q: string)
    requires Startable(site, rows, disk, name, depth) && Live(rows, name)
    requires Winner(site, rows, name).Some? && Winner(site, rows, name).value.kind != Directory
    requires hold || !NeedsCopy(site, rows, name)
    ensures q in Deleted(site, rows, disk, name, hold, depth).st.disk <==>
              && q in disk
              && !(if hold && name in disk && name in site.holdable then q == name || Names.Under(q, name)
                   else && q == name && (forall x :: x in disk ==> !Names.Under(x, name))
                        && (name !in site.stuck || (!hold && site.versioning && name in site.archived)))
  {
    var t := Deleted(site, rows, disk, name, hold, depth).st;
    var s := St(rows, disk, {}, {});
    var e := Executed(site, hold, s, name).value;
    assert t == if hold && name in e.disk && name in site.holdable then Entombed(site, Lifted(e, name), name) else Entombed(site, e, name);
  }

  /** The loser of a conflict with a winning deletion survives: its row dies only once a copy is
      indexed under its conflict name, and that copy is still live and in place at the end unless
      a peer holds a tombstone under exactly that name. The one other way to die is for a row
      that bears a conflict name itself: another row's copy takes the name, and is then buried. */
  lemma LoserIsKept(site: Site, rows: View, disk: set<string>, name: string, depth: nat, r: string)
    requires Startable(site, rows, disk, name, depth) && NeedsCopy(site, rows, r)
    requires !Live(Deleted(site, rows, disk, name, false, depth).st.rows, r)
    ensures var t, k := Deleted(site, rows, disk, name, false, depth).st, CopyName(site, rows[r]);
            || (r in t.copies && IsCopyName(site, r) && Buried(site, r) && Names.Under(r, name))
            || (Buried(site, k) && Names.Under(k, name))
            || (Live(t.rows, k) && (k in t.disk || exists x :: Names.AtOrUnder(k, x) && Risky(site, Run(rows, disk, name, false), x)))
  {
    DeletedKeeps(site, rows, disk, name, false, depth);
    var run, t, k := Run(rows, disk, name, false), Deleted(site, rows, disk, name, false, depth).st, CopyName(site, rows[r]);
    assert RowOk(site, run, t, r) && RowOk(site, run, t, k);
    if Excused(t, k) {
      var x :| x in t.moved && Names.AtOrUnder(k, x);
      assert MovedOk(site, run, t, x);
    }
  }

  /** With one peer whose tombstones carry no modification time, and live rows that do, a
      deletion never wins against a concurrent edit, so none needs a conflict copy. */
  lemma OnePeerNeedsNoCopy(site: Site, view: View, rows: View, r: string)
    requires site.views == [view] && Live(rows, r) && Stamp(rows[r]) > 0
    requires r in view && view[r].deleted ==> Stamp(view[r]) == 0
    ensures Deletable(site, rows, r) ==> !NeedsCopy(site, rows, r)
  {
    OneView(rows[r], view, r);
  }
}

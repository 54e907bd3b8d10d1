/** Directory deletions with the hold area, exactly: which rows and which paths are left, read
    off the index and the disk before the deletion. */
module DirHold {
  import opened Entries
  import opened GlobalModel
  import opened DirState
  import opened DirDelete
  import Names
  import Pending

  /** The winner of x is typed as a directory. */
  ghost predicate DirRow(site: Site, rows: View, x: string)
  {
    Winner(site, rows, x).Some? && Winner(site, rows, x).value.kind == Directory
  }

  /** The hold area takes x away whole: its winner is not typed as a directory. */
  ghost predicate HeldRow(site: Site, rows: View, disk: set<string>, x: string)
  {
    Winner(site, rows, x).Some? && Winner(site, rows, x).value.kind != Directory && x in disk && x in site.holdable
  }

  lemma HoldNeverFails(site: Site, depth: nat, s: St, c: string)
    requires Timed(site) && Bounded(s.rows, depth) && Names.Depth(c) <= depth && Live(s.rows, c)
    ensures Winner(site, s.rows, c).Some? && !Apply(site, true, depth, s, c).failed
  {
    WinnerComesFromAView(s.rows[c], site.views, c);
  }

  // ---- a pass that can remove nothing from the disk ----

  /** A live row beneath dir is deletable and typed as a directory, and if it is on disk the
      system refuses to remove it. */
  ghost predicate TidyAt(site: Site, s: St, dir: string, x: string)
  {
    Live(s.rows, x) && Names.Under(x, dir) ==>
      Deletable(site, s.rows, x) && DirRow(site, s.rows, x) && (x in s.disk ==> Refuses(site, s.disk, x))
  }

  ghost predicate Tidy(site: Site, s: St, dir: string)
  {
    forall x :: TidyAt(site, s, dir, x)
  }

  /** Inside, exactly the live rows that are not on disk die; nothing else changes. */
  ghost predicate SweptAt(s: St, t: St, inside: bool, x: string)
  {
    && (Live(t.rows, x) <==> Live(s.rows, x) && (inside ==> x in s.disk))
    && (Live(t.rows, x) || !Live(s.rows, x) ==> Pending.AgreeAt(t.rows, s.rows, x))
  }

  ghost predicate Swept(s: St, t: St, dir: string)
  {
    t.disk == s.disk && forall x :: SweptAt(s, t, Names.Under(x, dir), x)
  }

  ghost predicate SweptWith(s: St, t: St, c: string)
  {
    t.disk == s.disk && forall x :: SweptAt(s, t, Names.AtOrUnder(x, c), x)
  }

  lemma {:induction false} QuietEach(site: Site, depth: nat, s: St, dir: string, names: seq<string>)
    requires Timed(site) && Bounded(s.rows, depth) && Names.Depth(dir) <= depth && Tidy(site, s, dir) && Descending(names)
    requires forall n :: n in names ==> Live(s.rows, n) && Names.Under(n, dir) && Names.Depth(n) <= depth
    requires forall x :: Live(s.rows, x) && Names.Under(x, dir) ==> x in s.disk || x in names
    ensures var p := Each(site, true, depth, s, dir, names); p.kept == 0 && Swept(s, p.st, dir)
    decreases depth - Names.Depth(dir), 0, |names|
  {
    var p := Each(site, true, depth, s, dir, names);
    if names == [] {
      forall x ensures SweptAt(s, s, Names.Under(x, dir), x) {}
    } else {
      var c, rest := names[0], names[1..];
      assert c in names;
      Names.UnderIsDeeper(c, dir);
      assert TidyAt(site, s, dir, c);
      TidyBelow(site, s, dir, c);
      QuietApply(site, depth, s, c);
      var t := Apply(site, true, depth, s, c).st;
      StillTidy(site, s, t, dir, c);
      forall n | n in rest ensures n in names && Live(t.rows, n) && n != c {
        var i :| 0 <= i < |rest| && rest[i] == n;
        NotAbove(names, 0, i + 1);
        assert n == names[i + 1] && SweptAt(s, t, Names.AtOrUnder(n, c), n);
      }
      forall x | Live(t.rows, x) && Names.Under(x, dir) ensures x in t.disk || x in rest {
        assert SweptAt(s, t, Names.AtOrUnder(x, c), x);
      }
      QuietEach(site, depth, t, dir, rest);
      forall x ensures SweptAt(s, p.st, Names.Under(x, dir), x) {
        assert SweptAt(s, t, Names.AtOrUnder(x, c), x) && SweptAt(t, p.st, Names.Under(x, dir), x);
        if Names.AtOrUnder(x, c) { Names.AtOrUnderTransitive(x, c, dir); }
      }
    }
  }

  lemma TidyBelow(site: Site, s: St, dir: string, c: string)
    requires Tidy(site, s, dir) && Names.Under(c, dir)
    ensures Tidy(site, s, c)
  {
    forall x ensures TidyAt(site, s, c, x) {
      assert TidyAt(site, s, dir, x);
      if Names.Under(x, c) { Names.UnderTransitive(x, c, dir); }
    }
  }

  lemma StillTidy(site: Site, s: St, t: St, dir: string, c: string)
    requires Tidy(site, s, dir) && SweptWith(s, t, c)
    ensures Tidy(site, t, dir)
  {
    forall x ensures TidyAt(site, t, dir, x) {
      assert TidyAt(site, s, dir, x) && SweptAt(s, t, Names.AtOrUnder(x, c), x);
    }
  }

  lemma QuietChildren(site: Site, depth: nat, s: St, dir: string)
    requires Timed(site) && Bounded(s.rows, depth) && Names.Depth(dir) <= depth && Tidy(site, s, dir)
    ensures var p := Children(site, true, depth, s, dir); p.kept == 0 && Swept(s, p.st, dir)
    decreases depth - Names.Depth(dir), 1, 0
  {
    var listing := Listing(s.rows, dir);
    var going := Going(site, s.rows, listing);
    GoingOrStaying(site, s.rows, listing);
    forall n | n in listing ensures Deletable(site, s.rows, n) { assert TidyAt(site, s, dir, n); }
    QuietEach(site, depth, s, dir, going);
  }

  lemma QuietApply(site: Site, depth: nat, s: St, c: string)
    requires Timed(site) && Bounded(s.rows, depth) && Names.Depth(c) <= depth
    requires Live(s.rows, c) && DirRow(site, s.rows, c) && (c in s.disk ==> Refuses(site, s.disk, c)) && Tidy(site, s, c)
    ensures var o := Apply(site, true, depth, s, c); !o.failed && SweptWith(s, o.st, c)
    decreases depth - Names.Depth(c), 2, 0
  {
    QuietChildren(site, depth, s, c);
    var o, p := Apply(site, true, depth, s, c), Children(site, true, depth, s, c);
    assert !Names.Under(c, c);
    assert SweptAt(s, p.st, Names.Under(c, c), c);
    assert o.st == if c in s.disk then p.st else Entombed(site, p.st, c);
    assert c !in s.disk ==> s.disk - {c} == s.disk;
    forall x ensures SweptAt(s, o.st, Names.AtOrUnder(x, c), x) {
      assert SweptAt(s, p.st, Names.Under(x, c), x);
    }
  }

  // ---- the state after any part of a pass ----

  // `done` are the rows beneath the directory that have had their turn; rows and disk are
  // those before the pass.

  /** Nothing in `done` can make p go away by itself. */
  ghost predicate Solid(site: Site, done: set<string>, p: string)
  {
    p !in done || p in site.stuck
  }

  /** No row of `done` took p to the hold area. */
  ghost predicate Unheld(site: Site, rows: View, disk: set<string>, done: set<string>, p: string)
  {
    forall h :: h in done && HeldRow(site, rows, disk, h) ==> !Names.AtOrUnder(p, h)
  }

  /** A path is still on disk: something solid at or under it was not taken away. */
  ghost predicate Remains(site: Site, rows: View, disk: set<string>, done: set<string>, q: string)
  {
    exists p :: p in disk && Names.AtOrUnder(p, q) && Solid(site, done, p) && Unheld(site, rows, disk, done, p)
  }

  /** p went to the hold area early enough for r: with a row that lies beneath a directory row
      at or above r, which looks at r again on its own turn. */
  ghost predicate GoneFor(site: Site, rows: View, disk: set<string>, done: set<string>, r: string, p: string)
  {
    exists h, a :: h in done && a in done && HeldRow(site, rows, disk, h) && DirRow(site, rows, a)
                   && Names.AtOrUnder(p, h) && Names.Under(h, a) && Names.AtOrUnder(r, a)
  }

  /** A directory row stays live: something solid at or under it stood in the way every time. */
  ghost predicate StaysLive(site: Site, rows: View, disk: set<string>, done: set<string>, r: string)
  {
    DirRow(site, rows, r) &&
    exists p :: p in disk && Names.AtOrUnder(p, r) && Solid(site, done, p) && !GoneFor(site, rows, disk, done, r, p)
  }

  ghost predicate FormAt(site: Site, rows: View, disk: set<string>, done: set<string>, s: St, x: string)
  {
    && (x in s.disk <==> Remains(site, rows, disk, done, x))
    && (if x in done && !StaysLive(site, rows, disk, done, x) then !Live(s.rows, x) else Pending.AgreeAt(s.rows, rows, x))
  }

  ghost predicate Form(site: Site, rows: View, disk: set<string>, done: set<string>, s: St)
  {
    forall x :: FormAt(site, rows, disk, done, s, x)
  }

  /** c is next: everything live beneath it had its turn, nothing at or above it had. */
  ghost predicate Next(site: Site, rows: View, disk: set<string>, done: set<string>, c: string)
  {
    && IsTree(disk) && Live(rows, c) && Deletable(site, rows, c)
    && (forall x :: Live(rows, x) && Names.Under(x, c) ==> x in done)
    && (forall h :: h in done ==> Live(rows, h) && Deletable(site, rows, h) && !Names.AtOrUnder(c, h))
  }

  /** A path above c is solid and cannot have been taken away yet. */
  lemma AboveRemains(site: Site, rows: View, disk: set<string>, done: set<string>, c: string, p: string, x: string)
    requires Next(site, rows, disk, done, c) && p in disk && Names.AtOrUnder(p, x) && Names.Under(c, x)
    ensures Remains(site, rows, disk, done + {c}, x) && Remains(site, rows, disk, done, x)
  {
    assert x in disk && x !in done + {c};
    forall h | h in done + {c} ensures !Names.AtOrUnder(x, h) {
      if Names.AtOrUnder(x, h) { Names.AtOrUnderTransitive(c, x, h); }
      if h == c && Names.AtOrUnder(x, c) { Names.UnderIsDeeper(c, x); }
    }
  }

  lemma {:induction false} DiskAfterHeld(site: Site, rows: View, disk: set<string>, done: set<string>, c: string, x: string)
    requires Next(site, rows, disk, done, c) && HeldRow(site, rows, disk, c)
    ensures Remains(site, rows, disk, done + {c}, x) <==> Remains(site, rows, disk, done, x) && !Names.AtOrUnder(x, c)
  {
    if Remains(site, rows, disk, done + {c}, x) {
      var p :| p in disk && Names.AtOrUnder(p, x) && Solid(site, done + {c}, p) && Unheld(site, rows, disk, done + {c}, p);
      assert c in done + {c};
      assert Solid(site, done, p) && Unheld(site, rows, disk, done, p);
      if Names.AtOrUnder(x, c) { Names.AtOrUnderTransitive(p, x, c); }
    }
    if Remains(site, rows, disk, done, x) && !Names.AtOrUnder(x, c) {
      var p :| p in disk && Names.AtOrUnder(p, x) && Solid(site, done, p) && Unheld(site, rows, disk, done, p);
      if Names.AtOrUnder(p, c) {
        Names.AboveIsALine(p, x, c);
        AboveRemains(site, rows, disk, done, c, p, x);
      } else {
        assert Solid(site, done + {c}, p) && Unheld(site, rows, disk, done + {c}, p);
      }
    }
  }

  /** The turn of a row that is not held: what was on disk stays, c itself only if it cannot be removed. */
  lemma DiskAfterRemove(site: Site, rows: View, disk: set<string>, done: set<string>, s: St, c: string, x: string)
    requires Next(site, rows, disk, done, c) && !HeldRow(site, rows, disk, c) && Form(site, rows, disk, done, s) && c !in done
    ensures Remains(site, rows, disk, done + {c}, x) <==>
            if x == c then Refuses(site, s.disk, c) else Remains(site, rows, disk, done, x)
  {
    assert forall p :: Unheld(site, rows, disk, done + {c}, p) <==> Unheld(site, rows, disk, done, p);
    if x == c {
      CAfterRemove(site, rows, disk, done, s, c);
    } else if Remains(site, rows, disk, done, x) {
      var p :| p in disk && Names.AtOrUnder(p, x) && Solid(site, done, p) && Unheld(site, rows, disk, done, p);
      if p == c {
        AboveRemains(site, rows, disk, done, c, p, x);
      } else {
        assert Solid(site, done + {c}, p);
      }
    }
  }

  lemma CAfterRemove(site: Site, rows: View, disk: set<string>, done: set<string>, s: St, c: string)
    requires Next(site, rows, disk, done, c) && !HeldRow(site, rows, disk, c) && Form(site, rows, disk, done, s) && c !in done
    ensures Remains(site, rows, disk, done + {c}, c) <==> Refuses(site, s.disk, c)
  {
    assert FormAt(site, rows, disk, done, s, c);
    if Remains(site, rows, disk, done + {c}, c) {
      var p :| p in disk && Names.AtOrUnder(p, c) && Solid(site, done + {c}, p) && Unheld(site, rows, disk, done + {c}, p);
      assert Unheld(site, rows, disk, done, p) && Solid(site, done, p);
      assert Remains(site, rows, disk, done, p) && Remains(site, rows, disk, done, c);
      assert FormAt(site, rows, disk, done, s, p);
    }
    if Refuses(site, s.disk, c) {
      CRefused(site, rows, disk, done, s, c);
    }
  }

  lemma CRefused(site: Site, rows: View, disk: set<string>, done: set<string>, s: St, c: string)
    requires Next(site, rows, disk, done, c) && !HeldRow(site, rows, disk, c) && Form(site, rows, disk, done, s) && c !in done
    requires Refuses(site, s.disk, c)
    ensures Remains(site, rows, disk, done + {c}, c)
  {
    assert forall p :: Unheld(site, rows, disk, done + {c}, p) <==> Unheld(site, rows, disk, done, p);
    if c in site.stuck {
      assert FormAt(site, rows, disk, done, s, c);
      var p :| p in disk && Names.AtOrUnder(p, c) && Solid(site, done, p) && Unheld(site, rows, disk, done, p);
      assert Unheld(site, rows, disk, done, c);
      assert c in disk;
    } else {
      var q :| q in s.disk && Names.Under(q, c);
      assert FormAt(site, rows, disk, done, s, q);
      var p :| p in disk && Names.AtOrUnder(p, q) && Solid(site, done, p) && Unheld(site, rows, disk, done, p);
      Names.AtOrUnderTransitive(p, q, c);
      if p == c { Names.UnderIsDeeper(q, c); if p != q { Names.UnderIsDeeper(p, q); } }
      assert Solid(site, done + {c}, p);
    }
  }

  // ---- one turn ----

  /** Rows outside the subtree of c do not notice its turn. */
  lemma OthersStay(site: Site, rows: View, disk: set<string>, done: set<string>, c: string, x: string)
    requires Next(site, rows, disk, done, c) && x in done
    requires Names.Under(x, c) ==> !DirRow(site, rows, c)
    ensures StaysLive(site, rows, disk, done + {c}, x) <==> StaysLive(site, rows, disk, done, x)
  {
    forall p ensures GoneFor(site, rows, disk, done + {c}, x, p) <==> GoneFor(site, rows, disk, done, x, p) {
      if h, a :| h in done + {c} && a in done + {c} && HeldRow(site, rows, disk, h) && DirRow(site, rows, a)
                 && Names.AtOrUnder(p, h) && Names.Under(h, a) && Names.AtOrUnder(x, a) {
        assert a in done && h in done;
      }
    }
    forall p | Names.AtOrUnder(p, x) ensures Solid(site, done + {c}, p) <==> Solid(site, done, p) {
      assert p != c;
    }
  }

  /** A held row above or at p, on the line down from c, lies beneath c. */
  lemma HeldIsBeneath(site: Site, rows: View, disk: set<string>, done: set<string>, c: string, p: string, h: string)
    requires Next(site, rows, disk, done, c) && h in done && Names.AtOrUnder(p, h) && Names.AtOrUnder(p, c)
    ensures Names.Under(h, c)
  {
    Names.AboveIsALine(p, h, c);
  }

  /** On the turn of a directory row everything live beneath it is looked at again: what is not
      on disk dies. */
  lemma SecondLook(site: Site, rows: View, disk: set<string>, done: set<string>, c: string, x: string)
    requires Next(site, rows, disk, done, c) && DirRow(site, rows, c) && c !in done
    requires x == c || (x in done && Names.Under(x, c))
    ensures StaysLive(site, rows, disk, done + {c}, x) <==>
            Remains(site, rows, disk, done + {c}, x) && (x == c || StaysLive(site, rows, disk, done, x))
  {
    forall p | p in disk && Names.AtOrUnder(p, x)
      ensures GoneFor(site, rows, disk, done + {c}, x, p) <==> !Unheld(site, rows, disk, done + {c}, p)
    {
      Names.AtOrUnderTransitive(p, x, c);
      if h :| h in done + {c} && HeldRow(site, rows, disk, h) && Names.AtOrUnder(p, h) {
        assert h in done;
        HeldIsBeneath(site, rows, disk, done, c, p, h);
        assert c in done + {c};
      }
    }
    if x != c && Remains(site, rows, disk, done + {c}, x) {
      var p :| p in disk && Names.AtOrUnder(p, x) && Solid(site, done + {c}, p) && Unheld(site, rows, disk, done + {c}, p);
      assert GoneFor(site, rows, disk, done, x, p) ==> GoneFor(site, rows, disk, done + {c}, x, p);
    }
    if x != c && StaysLive(site, rows, disk, done + {c}, x) {
      var p :| p in disk && Names.AtOrUnder(p, x) && Solid(site, done + {c}, p) && !GoneFor(site, rows, disk, done + {c}, x, p);
      assert GoneFor(site, rows, disk, done, x, p) ==> GoneFor(site, rows, disk, done + {c}, x, p);
    }
  }

  /** A row that is still live has its old entry, so the same winner. */
  lemma SameWinner(site: Site, rows: View, disk: set<string>, done: set<string>, s: St, x: string)
    requires FormAt(site, rows, disk, done, s, x) && (Live(s.rows, x) || x !in done)
    ensures Pending.AgreeAt(s.rows, rows, x)
    ensures Winner(site, s.rows, x) == Winner(site, rows, x) && (Deletable(site, s.rows, x) <==> Deletable(site, rows, x))
  {
  }

  lemma FileTurn(site: Site, rows: View, disk: set<string>, done: set<string>, s: St, c: string, depth: nat)
    requires Timed(site) && Bounded(s.rows, depth) && Names.Depth(c) <= depth
    requires Next(site, rows, disk, done, c) && c !in done && Form(site, rows, disk, done, s) && !DirRow(site, rows, c)
    ensures var o := Apply(site, true, depth, s, c); !o.failed && Form(site, rows, disk, done + {c}, o.st)
  {
    assert FormAt(site, rows, disk, done, s, c);
    SameWinner(site, rows, disk, done, s, c);
    HoldNeverFails(site, depth, s, c);
    CStillThere(site, rows, disk, done, s, c);
    var o := Apply(site, true, depth, s, c);
    var held := c in s.disk && c in site.holdable;
    assert held <==> HeldRow(site, rows, disk, c);
    assert o.st == Entombed(site, if held then Lifted(s, c) else s, c);
    forall x ensures FormAt(site, rows, disk, done + {c}, o.st, x) {
      assert FormAt(site, rows, disk, done, s, x);
      if held {
        DiskAfterHeld(site, rows, disk, done, c, x);
      } else {
        DiskAfterRemove(site, rows, disk, done, s, c, x);
      }
      if x in done { OthersStay(site, rows, disk, done, c, x); }
    }
  }

  /** Until its turn a row is on disk if it was. */
  lemma CStillThere(site: Site, rows: View, disk: set<string>, done: set<string>, s: St, c: string)
    requires Next(site, rows, disk, done, c) && c !in done && FormAt(site, rows, disk, done, s, c)
    ensures c in s.disk <==> c in disk
  {
    if c in disk {
      assert Solid(site, done, c) && Unheld(site, rows, disk, done, c);
    }
  }

  /** Before the turn of c, what is live beneath it are directory rows that cannot be removed. */
  lemma BeneathIsTidy(site: Site, rows: View, disk: set<string>, done: set<string>, s: St, c: string)
    requires Next(site, rows, disk, done, c) && Form(site, rows, disk, done, s)
    ensures Tidy(site, s, c)
  {
    forall x ensures TidyAt(site, s, c, x) {
      assert FormAt(site, rows, disk, done, s, x);
      if Live(s.rows, x) && Names.Under(x, c) {
        SameWinner(site, rows, disk, done, s, x);
        assert x in done;
        if x in s.disk {
          var p :| p in disk && Names.AtOrUnder(p, x) && Solid(site, done, p) && Unheld(site, rows, disk, done, p);
          assert Remains(site, rows, disk, done, p) && FormAt(site, rows, disk, done, s, p);
        }
      }
    }
  }

  lemma DirectoryTurn(site: Site, rows: View, disk: set<string>, done: set<string>, s: St, c: string, depth: nat)
    requires Timed(site) && Bounded(s.rows, depth) && Names.Depth(c) <= depth
    requires Next(site, rows, disk, done, c) && c !in done && Form(site, rows, disk, done, s) && DirRow(site, rows, c)
    ensures var o := Apply(site, true, depth, s, c); !o.failed && Form(site, rows, disk, done + {c}, o.st)
  {
    assert FormAt(site, rows, disk, done, s, c);
    SameWinner(site, rows, disk, done, s, c);
    BeneathIsTidy(site, rows, disk, done, s, c);
    QuietChildren(site, depth, s, c);
    var o, t := Apply(site, true, depth, s, c), Children(site, true, depth, s, c).st;
    assert o.st == if Refuses(site, s.disk, c) then t else Entombed(site, t, c);
    forall x ensures FormAt(site, rows, disk, done + {c}, o.st, x) {
      assert FormAt(site, rows, disk, done, s, x) && SweptAt(s, t, Names.Under(x, c), x);
      DiskAfterRemove(site, rows, disk, done, s, c, x);
      if x == c || (x in done && Names.Under(x, c)) {
        SecondLook(site, rows, disk, done, c, x);
      } else if x in done {
        OthersStay(site, rows, disk, done, c, x);
      }
    }
  }

  // ---- a whole pass ----

  /** The rows still to come, in order; those done and those to come are the live rows. */
  ghost predicate Order(site: Site, rows: View, disk: set<string>, done: set<string>, dir: string, names: seq<string>)
  {
    && IsTree(disk) && Descending(names)
    && (forall x :: Live(rows, x) && Names.Under(x, dir) <==> x in done || x in names)
    && (forall x :: x in done || x in names ==> Deletable(site, rows, x))
    && (forall h, n :: h in done && n in names ==> !Names.AtOrUnder(n, h))
  }

  lemma OrderNext(site: Site, rows: View, disk: set<string>, done: set<string>, dir: string, names: seq<string>)
    requires Order(site, rows, disk, done, dir, names) && names != []
    ensures Next(site, rows, disk, done, names[0]) && names[0] !in done && Names.Under(names[0], dir)
    ensures Order(site, rows, disk, done + {names[0]}, dir, names[1..])
  {
    var c, rest := names[0], names[1..];
    assert c in names && forall n :: n in names <==> n == c || n in rest;
    forall n | n in rest ensures !Names.AtOrUnder(n, c) {
      var i :| 0 <= i < |rest| && rest[i] == n;
      assert names[i + 1] == n;
      NotAbove(names, 0, i + 1);
    }
    forall x | Live(rows, x) && Names.Under(x, c) ensures x in done {
      Names.UnderTransitive(x, c, dir);
      assert !Names.Under(c, c);
    }
  }

  function Elements(names: seq<string>): set<string>
  {
    if names == [] then {} else {names[0]} + Elements(names[1..])
  }

  lemma {:induction false} ElementsAre(names: seq<string>)
    ensures forall x :: x in Elements(names) <==> x in names
  {
    if names != [] {
      ElementsAre(names[1..]);
      assert forall x :: x in names <==> x == names[0] || x in names[1..];
    }
  }

  lemma {:induction false} EachForm(site: Site, rows: View, disk: set<string>, done: set<string>, s: St, dir: string,
                                    names: seq<string>, depth: nat)
    requires Timed(site) && Bounded(s.rows, depth) && Names.Depth(dir) <= depth
    requires Order(site, rows, disk, done, dir, names) && Form(site, rows, disk, done, s)
    requires forall n :: n in names ==> Names.Under(n, dir) && Names.Depth(n) <= depth
    ensures var p := Each(site, true, depth, s, dir, names); p.kept == 0 && Form(site, rows, disk, done + Elements(names), p.st)
    decreases |names|
  {
    if names == [] {
      assert done + Elements(names) == done;
    } else {
      var c, rest := names[0], names[1..];
      assert c in names;
      OrderNext(site, rows, disk, done, dir, names);
      Turn(site, rows, disk, done, s, c, depth);
      EachFirst(site, true, depth, s, dir, names);
      EachForm(site, rows, disk, done + {c}, Apply(site, true, depth, s, c).st, dir, rest, depth);
      assert done + {c} + Elements(rest) == done + Elements(names);
    }
  }

  lemma Turn(site: Site, rows: View, disk: set<string>, done: set<string>, s: St, c: string, depth: nat)
    requires Timed(site) && Bounded(s.rows, depth) && Names.Depth(c) <= depth
    requires Next(site, rows, disk, done, c) && c !in done && Form(site, rows, disk, done, s)
    ensures var o := Apply(site, true, depth, s, c); !o.failed && Form(site, rows, disk, done + {c}, o.st)
  {
    if DirRow(site, rows, c) {
      DirectoryTurn(site, rows, disk, done, s, c, depth);
    } else {
      FileTurn(site, rows, disk, done, s, c, depth);
    }
  }

  lemma PassForm(site: Site, rows: View, disk: set<string>, dir: string, depth: nat)
    requires Timed(site) && Bounded(rows, depth) && Names.Depth(dir) <= depth && IsTree(disk) && AllDeletable(site, rows, dir)
    ensures var p := Children(site, true, depth, St(rows, disk, {}, {}), dir);
            p.kept == 0 && Form(site, rows, disk, LiveUnder(rows, dir), p.st)
  {
    var s, listing := St(rows, disk, {}, {}), Listing(rows, dir);
    GoingOrStaying(site, rows, listing);
    AllGo(site, rows, listing);
    FormStarts(site, rows, disk);
    EachForm(site, rows, disk, {}, s, dir, listing, depth);
    ElementsAre(listing);
    assert {} + Elements(listing) == LiveUnder(rows, dir);
  }

  lemma FormStarts(site: Site, rows: View, disk: set<string>)
    requires IsTree(disk)
    ensures Form(site, rows, disk, {}, St(rows, disk, {}, {}))
  {
    forall x ensures FormAt(site, rows, disk, {}, St(rows, disk, {}, {}), x) {
      if x in disk { assert Solid(site, {}, x) && Unheld(site, rows, disk, {}, x); }
    }
  }

  lemma {:induction false} AllGo(site: Site, rows: View, listing: seq<string>)
    requires forall n :: n in listing ==> Deletable(site, rows, n)
    ensures Going(site, rows, listing) == listing
  {
    if listing != [] {
      var init, last := listing[..|listing| - 1], listing[|listing| - 1];
      assert listing == init + [last];
      AllGo(site, rows, init);
    }
  }

  // ---- the theorems ----

  /** The directory row itself goes: every live row beneath it is deletable, and if the directory
      is on disk, the system lets it go and everything in it that does not go away by itself (it
      bears no live row, or the system refuses) is taken away with a held row. */
  ghost predicate HeldDirectoryGoes(site: Site, rows: View, disk: set<string>, d: string)
  {
    && AllDeletable(site, rows, d)
    && (d in disk ==>
          && d !in site.stuck
          && forall p :: p in disk && Names.Under(p, d) && (!Live(rows, p) || p in site.stuck) ==>
               exists h :: Live(rows, h) && Names.Under(h, d) && HeldRow(site, rows, disk, h) && Names.AtOrUnder(p, h))
  }

  /** A row beneath d outlives the deletion: it is typed as a directory, and at or under it is
      something that does not go away by itself and that no held row takes away, except held
      rows above every directory row at or above r. */
  ghost predicate Outlives(site: Site, rows: View, disk: set<string>, d: string, r: string)
  {
    && Live(rows, r) && Names.Under(r, d) && DirRow(site, rows, r)
    && exists p :: p in disk && Names.AtOrUnder(p, r) && (!Live(rows, p) || p in site.stuck)
                   && forall h, a :: (&& Live(rows, h) && Live(rows, a) && Names.Under(h, d) && Names.Under(a, d)
                                      && HeldRow(site, rows, disk, h) && DirRow(site, rows, a)
                                      && Names.AtOrUnder(p, h) && Names.AtOrUnder(r, a)) ==> !Names.Under(h, a)
  }

  lemma OutlivesIs(site: Site, rows: View, disk: set<string>, d: string, r: string)
    requires Live(rows, r) && Names.Under(r, d)
    ensures Outlives(site, rows, disk, d, r) <==> StaysLive(site, rows, disk, LiveUnder(rows, d), r)
  {
    var done := LiveUnder(rows, d);
    forall p | Names.AtOrUnder(p, r) ensures Solid(site, done, p) <==> !Live(rows, p) || p in site.stuck {
      Names.AtOrUnderTransitive(p, r, d);
      assert p != d by { NotBothWays(p, r, d); }
    }
    assert forall x :: x in done <==> Live(rows, x) && Names.Under(x, d);
  }

  lemma NotBothWays(p: string, r: string, d: string)
    requires Names.AtOrUnder(p, r) && Names.Under(r, d)
    ensures p != d
  {
    Names.UnderIsDeeper(r, d);
    if p != r { Names.UnderIsDeeper(p, r); }
  }

  lemma GoesIs(site: Site, rows: View, disk: set<string>, d: string, t: St)
    requires IsTree(disk) && AllDeletable(site, rows, d) && Form(site, rows, disk, LiveUnder(rows, d), t)
    ensures Refuses(site, t.disk, d) <==> !HeldDirectoryGoes(site, rows, disk, d)
  {
    var done := LiveUnder(rows, d);
    assert FormAt(site, rows, disk, done, t, d) && !Names.Under(d, d) && d !in done;
    assert d in t.disk <==> d in disk by {
      if d in disk { NothingAbove(site, rows, disk, d); }
    }
    if q :| q in t.disk && Names.Under(q, d) {
      assert FormAt(site, rows, disk, done, t, q);
      var p :| p in disk && Names.AtOrUnder(p, q) && Solid(site, done, p) && Unheld(site, rows, disk, done, p);
      Names.AtOrUnderTransitive(p, q, d);
      NotBothWays(p, q, d);
      assert !Live(rows, p) || p in site.stuck;
      assert forall h :: Live(rows, h) && Names.Under(h, d) ==> h in done;
    }
    if p :| p in disk && Names.Under(p, d) && (!Live(rows, p) || p in site.stuck) && Unheld(site, rows, disk, done, p) {
      assert Solid(site, done, p) && FormAt(site, rows, disk, done, t, p);
      assert Remains(site, rows, disk, done, p);
    }
  }

  lemma NothingAbove(site: Site, rows: View, disk: set<string>, d: string)
    requires d in disk
    ensures Remains(site, rows, disk, LiveUnder(rows, d), d)
  {
    var done := LiveUnder(rows, d);
    forall h | h in done ensures !Names.AtOrUnder(d, h) {
      Names.UnderIsDeeper(h, d);
      if Names.Under(d, h) { Names.UnderIsDeeper(d, h); }
    }
    assert Solid(site, done, d) && Unheld(site, rows, disk, done, d);
  }

  /** With the hold area, from the index and the disk before the deletion alone: when the
      directory row dies, which rows beneath it are live afterwards, and hence exactly when it
      dies over a live row. */
  lemma HeldDirectoryExactly(site: Site, rows: View, disk: set<string>, d: string, depth: nat)
    requires Startable(site, rows, disk, d, depth) && Live(rows, d) && DirRow(site, rows, d)
    ensures var t := Deleted(site, rows, disk, d, true, depth).st;
            && (!Live(t.rows, d) <==> HeldDirectoryGoes(site, rows, disk, d))
            && (AllDeletable(site, rows, d) ==>
                  forall r :: Names.Under(r, d) ==>
                    && (Live(t.rows, r) <==> Outlives(site, rows, disk, d, r))
                    && (r in t.disk <==> Remains(site, rows, disk, LiveUnder(rows, d), r)))
            && (!Live(t.rows, d) && LiveBeneath(t.rows, d) <==>
                  HeldDirectoryGoes(site, rows, disk, d) && exists r :: Outlives(site, rows, disk, d, r))
  {
    var t := Deleted(site, rows, disk, d, true, depth).st;
    if AllDeletable(site, rows, d) {
      PassForm(site, rows, disk, d, depth);
      var u := Children(site, true, depth, St(rows, disk, {}, {}), d).st;
      GoesIs(site, rows, disk, d, u);
      assert FormAt(site, rows, disk, LiveUnder(rows, d), u, d) && !Names.Under(d, d);
      assert t == if Refuses(site, u.disk, d) then u else Entombed(site, u, d);
      forall r | Names.Under(r, d)
        ensures Live(t.rows, r) <==> Outlives(site, rows, disk, d, r)
        ensures r in t.disk <==> Remains(site, rows, disk, LiveUnder(rows, d), r)
      {
        assert FormAt(site, rows, disk, LiveUnder(rows, d), u, r);
        if Live(rows, r) { OutlivesIs(site, rows, disk, d, r); }
      }
    } else {
      KeptForARow(site, rows, disk, d, depth);
    }
  }

  lemma KeptForARow(site: Site, rows: View, disk: set<string>, d: string, depth: nat)
    requires Startable(site, rows, disk, d, depth) && Live(rows, d) && DirRow(site, rows, d) && !AllDeletable(site, rows, d)
    ensures Live(Deleted(site, rows, disk, d, true, depth).st.rows, d)
  {
    DeletedKeeps(site, rows, disk, d, true, depth);
  }

  // ---- without the hold area, as long as nothing is preserved ----

  /** No live row at or under dir has to be preserved. */
  ghost predicate NoCopies(site: Site, rows: View, dir: string)
  {
    forall x :: Live(rows, x) && Names.AtOrUnder(x, dir) ==> !NeedsCopy(site, rows, x)
  }

  /** A hold area that accepts nothing. */
  function Refusing(site: Site): Site
  {
    site.(holdable := {})
  }

  ghost predicate DwindlesAt(s: St, t: St, x: string)
  {
    Live(t.rows, x) ==> Pending.AgreeAt(t.rows, s.rows, x)
  }

  /** Rows only die. */
  ghost predicate Dwindles(s: St, t: St)
  {
    forall x :: DwindlesAt(s, t, x)
  }

  lemma NoCopiesLater(site: Site, s: St, t: St, dir: string)
    requires NoCopies(site, s.rows, dir) && Dwindles(s, t)
    ensures NoCopies(site, t.rows, dir)
  {
    forall x | Live(t.rows, x) && Names.AtOrUnder(x, dir) ensures !NeedsCopy(site, t.rows, x) {
      assert DwindlesAt(s, t, x);
    }
  }

  lemma {:induction false} SameGoing(site: Site, rows: View, listing: seq<string>)
    ensures Going(Refusing(site), rows, listing) == Going(site, rows, listing)
    ensures Staying(Refusing(site), rows, listing) == Staying(site, rows, listing)
  {
    if listing != [] {
      SameGoing(site, rows, listing[..|listing| - 1]);
    }
  }

  lemma {:induction false} SameEach(site: Site, depth: nat, s: St, dir: string, names: seq<string>)
    requires Timed(site) && Bounded(s.rows, depth) && Names.Depth(dir) <= depth && !site.versioning && NoCopies(site, s.rows, dir)
    requires forall n :: n in names ==> Names.Under(n, dir) && Names.Depth(n) <= depth
    ensures Timed(Refusing(site))
    ensures Each(site, false, depth, s, dir, names) == Each(Refusing(site), true, depth, s, dir, names)
    ensures Dwindles(s, Each(site, false, depth, s, dir, names).st)
    decreases depth - Names.Depth(dir), 0, |names|
  {
    if names != [] {
      var c := names[0];
      assert c in names;
      Names.UnderIsDeeper(c, dir);
      forall x | Live(s.rows, x) && Names.AtOrUnder(x, c) ensures !NeedsCopy(site, s.rows, x) {
        Names.AtOrUnderTransitive(x, c, dir);
      }
      SameApply(site, depth, s, c);
      var t := Apply(site, false, depth, s, c).st;
      NoCopiesLater(site, s, t, dir);
      SameEach(site, depth, t, dir, names[1..]);
      var u := Each(site, false, depth, s, dir, names).st;
      forall x ensures DwindlesAt(s, u, x) { assert DwindlesAt(s, t, x) && DwindlesAt(t, u, x); }
    } else {
      forall x ensures DwindlesAt(s, s, x) {}
    }
  }

  lemma SameChildren(site: Site, depth: nat, s: St, dir: string)
    requires Timed(site) && Bounded(s.rows, depth) && Names.Depth(dir) <= depth && !site.versioning && NoCopies(site, s.rows, dir)
    ensures Timed(Refusing(site))
    ensures Children(site, false, depth, s, dir) == Children(Refusing(site), true, depth, s, dir)
    ensures Dwindles(s, Children(site, false, depth, s, dir).st)
    decreases depth - Names.Depth(dir), 1, 0
  {
    var listing := Listing(s.rows, dir);
    SameGoing(site, s.rows, listing);
    GoingOrStaying(site, s.rows, listing);
    SameEach(site, depth, s, dir, Going(site, s.rows, listing));
  }

  /** What both kinds of deletion come down to where nothing is preserved. */
  lemma PlainApply(site: Site, hold: bool, depth: nat, s: St, c: string)
    requires Timed(site) && Bounded(s.rows, depth) && Names.Depth(c) <= depth
    requires Executed(site, hold, s, c) == Some(s) && (hold ==> c !in site.holdable)
    ensures var w, p := Winner(site, s.rows, c), Children(site, hold, depth, s, c);
            Apply(site, hold, depth, s, c) ==
            if w.None? then Result(s, true, false)
            else if c in s.rows && s.rows[c].deleted && w.value.deleted then Result(s, false, false)
            else if w.value.kind != Directory then Result(Entombed(site, s, c), false, false)
            else Result(if p.kept > 0 || Refuses(site, p.st.disk, c) then p.st else Entombed(site, p.st, c), false, false)
  {
  }

  lemma EntombedDwindles(site: Site, s: St, t: St, c: string)
    requires Dwindles(s, t)
    ensures Dwindles(s, Entombed(site, t, c))
  {
    forall x ensures DwindlesAt(s, Entombed(site, t, c), x) { assert DwindlesAt(s, t, x); }
  }

  /** Where nothing is preserved, deleting outright is deleting with a hold area that accepts
      nothing. */
  lemma SameApply(site: Site, depth: nat, s: St, c: string)
    requires Timed(site) && Bounded(s.rows, depth) && Names.Depth(c) <= depth && !site.versioning && NoCopies(site, s.rows, c)
    ensures Timed(Refusing(site))
    ensures Apply(site, false, depth, s, c) == Apply(Refusing(site), true, depth, s, c)
    ensures Dwindles(s, Apply(site, false, depth, s, c).st)
    decreases depth - Names.Depth(c), 2, 0
  {
    SameChildren(site, depth, s, c);
    assert Live(s.rows, c) ==> !NeedsCopy(site, s.rows, c);
    PlainApply(site, false, depth, s, c);
    PlainApply(Refusing(site), true, depth, s, c);
    assert Dwindles(s, s) by { forall x ensures DwindlesAt(s, s, x) {} }
    EntombedDwindles(site, s, s, c);
    EntombedDwindles(site, s, Children(site, false, depth, s, c).st, c);
  }

  /** Without the hold area and without anything to preserve: the directory row dies exactly if
      every live row beneath it is deletable and, being on disk, it and everything in it goes
      away by itself; what stays live beneath are the directory rows over something that does
      not; and so it never dies over a live row. */
  lemma PlainDirectoryExactly(site: Site, rows: View, disk: set<string>, d: string, depth: nat)
    requires Startable(site, rows, disk, d, depth) && Live(rows, d) && DirRow(site, rows, d)
    requires !site.versioning && NoCopies(site, rows, d)
    ensures var t := Deleted(site, rows, disk, d, false, depth).st;
            && (!Live(t.rows, d) <==> GoesPlainly(site, rows, disk, d))
            && (AllDeletable(site, rows, d) ==>
                  forall r :: Names.Under(r, d) ==> (Live(t.rows, r) <==> Unremovable(site, rows, disk, r)))
            && (!Live(t.rows, d) ==> !LiveBeneath(t.rows, d))
  {
    var e := Refusing(site);
    SameApply(site, depth, St(rows, disk, {}, {}), d);
    var t := Deleted(site, rows, disk, d, false, depth).st;
    assert t == Deleted(e, rows, disk, d, true, depth).st;
    HeldDirectoryExactly(e, rows, disk, d, depth);
    NothingIsHeld(site, rows, disk, d);
    if AllDeletable(site, rows, d) {
      forall r | Names.Under(r, d) ensures Live(t.rows, r) <==> Unremovable(site, rows, disk, r) {
        PlainOutlives(site, rows, disk, d, r);
      }
    }
  }

  /** A directory row over something that does not go away by itself. */
  ghost predicate Unremovable(site: Site, rows: View, disk: set<string>, r: string)
  {
    && Live(rows, r) && DirRow(site, rows, r)
    && exists p :: p in disk && Names.AtOrUnder(p, r) && (!Live(rows, p) || p in site.stuck)
  }

  lemma PlainOutlives(site: Site, rows: View, disk: set<string>, d: string, r: string)
    requires Names.Under(r, d)
    ensures Outlives(Refusing(site), rows, disk, d, r) <==> Unremovable(site, rows, disk, r)
  {
  }

  lemma NothingIsHeld(site: Site, rows: View, disk: set<string>, d: string)
    requires IsTree(disk)
    ensures AllDeletable(Refusing(site), rows, d) <==> AllDeletable(site, rows, d)
    ensures HeldDirectoryGoes(Refusing(site), rows, disk, d) <==> GoesPlainly(site, rows, disk, d)
    ensures GoesPlainly(site, rows, disk, d) ==> forall r :: Names.Under(r, d) ==> !Unremovable(site, rows, disk, r)
  {
    assert forall r :: Deletable(Refusing(site), rows, r) <==> Deletable(site, rows, r);
    if GoesPlainly(site, rows, disk, d) {
      forall r | Names.Under(r, d) ensures !Unremovable(site, rows, disk, r) {
        if p :| p in disk && Names.AtOrUnder(p, r) && (!Live(rows, p) || p in site.stuck) {
          Names.AtOrUnderTransitive(p, r, d);
          NotBothWays(p, r, d);
        }
      }
    }
  }

  /** Every live row beneath is deletable, and if d is on disk, it and all in it go by themselves. */
  ghost predicate GoesPlainly(site: Site, rows: View, disk: set<string>, d: string)
  {
    && AllDeletable(site, rows, d)
    && (d in disk ==> d !in site.stuck && forall p :: p in disk && Names.Under(p, d) ==> Live(rows, p) && p !in site.stuck)
  }
}

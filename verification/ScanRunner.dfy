/** The scanner as it runs: the walk, the deletion gate and the tables it writes
    (internal/scanner/scanner.go scanScoped, confirmDeletions). */
module ScanRunner {
  import opened Entries
  import opened GlobalModel
  import opened ScanGates
  import opened Renames

  /** The rows of a table outside the scope of a pass. */
  method KeepOutside<V>(m: map<string, V>, scope: seq<string>) returns (r: map<string, V>)
    ensures r == Outside(m, scope)
  {
    r := map[];
    var todo := m.Keys;
    while todo != {}
      invariant todo <= m.Keys
      invariant r == map n | n in m && n !in todo && !InScope(scope, n) :: m[n]
    {
      var n :| n in todo;
      todo := todo - {n};
      if !InScope(scope, n) {
        r := r[n := m[n]];
      }
    }
  }

  /** The walk: every regular file met is left alone, held back, or queued for hashing. */
  method Walk(cfg: Config, t: Tables, p: Pass, visited: seq<string>)
    returns (held: map<string, Settle>, queued: map<string, int>)
    requires forall n :: n in visited <==> n in p.found
    ensures held == HeldBack(cfg, t, p)
    ensures queued.Keys == Released(cfg, t, p)
    ensures forall n :: n in queued ==> queued[n] == FirstOf(cfg, t, p, n)
  {
    held, queued := map[], map[];
    var i := 0;
    while i < |visited|
      invariant i <= |visited|
      invariant forall n :: n in held <==> n in visited[..i] && Judge(cfg, t.settling, p, n, p.found[n]).Hold?
      invariant forall n :: n in held ==> held[n] == Judge(cfg, t.settling, p, n, p.found[n]).row
      invariant forall n :: n in queued <==> n in visited[..i] && Judge(cfg, t.settling, p, n, p.found[n]).Hash?
      invariant forall n :: n in queued ==> queued[n] == FirstOf(cfg, t, p, n)
    {
      var n := visited[i];
      assert n in visited;
      match Judge(cfg, t.settling, p, n, p.found[n]) {
        case Unchanged =>
        case Hold(row) => held := held[n := row];
        case Hash(first) => queued := queued[n := first];
      }
      assert visited[..i + 1] == visited[..i] + [n];
      i := i + 1;
    }
    assert visited[..i] == visited;
  }

  // ---- the paths above a deferred deletion ----

  function LastSlash(p: string): (i: int)
    ensures -1 <= i < |p|
    ensures i >= 0 ==> p[i] == '/'
    ensures forall k :: i < k < |p| ==> p[k] != '/'
  {
    if p == "" then -1
    else if p[|p| - 1] == '/' then |p| - 1
    else LastSlash(p[..|p| - 1])
  }

  /** Cutting at the last slash until nothing is left visits exactly the path and the
      directories above it. */
  method MarkUpwards(name: string, marked: set<string>) returns (all: set<string>)
    ensures forall a :: a in all <==> a in marked || AtOrAbove(a, name)
  {
    all := marked;
    var p := name;
    while p != ""
      invariant forall a :: a in all || AtOrAbove(a, p) <==> a in marked || AtOrAbove(a, name)
      decreases |p|
    {
      forall a: string ensures AtOrAbove(a, p) <==> a == p || (LastSlash(p) >= 0 && AtOrAbove(a, p[..LastSlash(p)])) {
      }
      all := all + {p};
      var i := LastSlash(p);
      p := if i < 0 then "" else p[..i];
    }
  }

  // ---- the deletion gate ----

  function MissedNames(changes: seq<Change>): set<string>
  {
    set i | 0 <= i < |changes| && changes[i].Deleted? :: changes[i].info.name
  }

  /** The changes speak for the pass: its misses are the deletions among them. */
  ghost predicate SpeaksFor(changes: seq<Change>, p: Pass)
  {
    && p.missed == MissedNames(changes)
    && forall c :: c in changes && c.Deleted? ==> c.info.name in p.rows && p.rows[c.info.name] == c.info
  }

  method FindDeferred(changes: seq<Change>, p: Pass, unsettled: set<Key>) returns (deferred: set<string>)
    requires SpeaksFor(changes, p)
    ensures forall a :: a in deferred <==> Deferred(p, unsettled, a)
  {
    deferred := {};
    var i := 0;
    while i < |changes|
      invariant i <= |changes|
      invariant forall a :: a in deferred <==> Marked(changes, i, unsettled, a)
    {
      var c := changes[i];
      ghost var before := deferred;
      if c.Deleted? && Waits(c.info, unsettled) {
        deferred := MarkUpwards(c.info.name, deferred);
      }
      forall a: string ensures Marked(changes, i + 1, unsettled, a) <==>
          Marked(changes, i, unsettled, a) || (c.Deleted? && Waits(c.info, unsettled) && AtOrAbove(a, c.info.name))
      {
      }
      i := i + 1;
    }
    forall a: string ensures Marked(changes, |changes|, unsettled, a) <==> Deferred(p, unsettled, a) {
    }
  }

  ghost predicate Marked(changes: seq<Change>, n: nat, unsettled: set<Key>, a: string)
    requires n <= |changes|
  {
    exists k :: 0 <= k < n && changes[k].Deleted? && Waits(changes[k].info, unsettled) && AtOrAbove(a, changes[k].info.name)
  }

  /** The reported changes: deletions only once confirmed and not deferred. */
  ghost function Confirmed(cfg: Config, t: Tables, p: Pass, changes: seq<Change>): seq<Change>
  {
    if changes == [] then []
    else
      var init, c := changes[..|changes| - 1], changes[|changes| - 1];
      if c.Deleted? && !CountedOut(cfg, t, p, c.info.name) then Confirmed(cfg, t, p, init)
      else Confirmed(cfg, t, p, init) + [c]
  }

  method ConfirmDeletions(cfg: Config, t: Tables, p: Pass, changes: seq<Change>, unsettled: set<Key>)
    returns (out: seq<Change>, next: map<string, Missing>)
    requires SpeaksFor(changes, p) && Sane(cfg, t, p) && ReachesDeletions(p) && unsettled == UnsettledKeys(cfg, t, p)
    ensures out == Confirmed(cfg, t, p, changes) && next == NextMissing(cfg, t, p)
  {
    if cfg.deletionScans <= 1 {
      GateOff(cfg, t, p, changes);
      return changes, map[];
    }
    next := KeepOutside(t.missing, p.scope);
    var deferred := FindDeferred(changes, p, unsettled);
    out := [];
    var i := 0;
    while i < |changes|
      invariant i <= |changes|
      invariant out == Confirmed(cfg, t, p, changes[..i])
      invariant next == Suspected(cfg, t, p, changes[..i])
    {
      var c := changes[i];
      assert c in changes;
      assert changes[..i + 1][..i] == changes[..i];
      if c.Deleted? {
        var n := c.info.name;
        assert n in MissedNames(changes);
        var st := Counted(t.missing, n, p.now);
        if st.count < cfg.deletionScans || n in deferred {
          next := next[n := st];
        } else {
          out := out + [c];
        }
      } else {
        out := out + [c];
      }
      i := i + 1;
    }
    assert changes[..i] == changes;
    SuspectedIsNext(cfg, t, p, changes);
  }

  /** The missing table built while going over the changes. */
  ghost function Suspected(cfg: Config, t: Tables, p: Pass, changes: seq<Change>): map<string, Missing>
  {
    if changes == [] then Outside(t.missing, p.scope)
    else
      var before, c := Suspected(cfg, t, p, changes[..|changes| - 1]), changes[|changes| - 1];
      if c.Deleted? && !CountedOut(cfg, t, p, c.info.name) then before[c.info.name := Counted(t.missing, c.info.name, p.now)]
      else before
  }

  ghost predicate SuspectedAt(cfg: Config, t: Tables, p: Pass, changes: seq<Change>, n: string)
  {
    var m := Suspected(cfg, t, p, changes);
    if n in MissedNames(changes) then
      (n in m <==> !CountedOut(cfg, t, p, n)) && (n in m ==> m[n] == Counted(t.missing, n, p.now))
    else
      (n in m <==> n in t.missing && !InScope(p.scope, n)) && (n in m ==> m[n] == t.missing[n])
  }

  lemma {:induction false} SuspectedIs(cfg: Config, t: Tables, p: Pass, changes: seq<Change>, n: string)
    requires MissedNames(changes) <= p.missed && Sane(cfg, t, p)
    ensures SuspectedAt(cfg, t, p, changes, n)
  {
    if changes != [] {
      var k := |changes| - 1;
      assert changes[..k + 1] == changes;
      SuspectedIs(cfg, t, p, changes[..k], n);
    }
  }

  lemma SuspectedIsNext(cfg: Config, t: Tables, p: Pass, changes: seq<Change>)
    requires MissedNames(changes) == p.missed && Sane(cfg, t, p) && cfg.deletionScans > 1
    ensures Suspected(cfg, t, p, changes) == NextMissing(cfg, t, p)
  {
    var m, want := Suspected(cfg, t, p, changes), NextMissing(cfg, t, p);
    forall n: string ensures (n in m <==> n in want) && (n in m ==> m[n] == want[n]) {
      SuspectedIs(cfg, t, p, changes, n);
    }
  }

  lemma {:induction false} GateOff(cfg: Config, t: Tables, p: Pass, changes: seq<Change>)
    requires cfg.deletionScans <= 1 && ReachesDeletions(p) && MissedNames(changes) <= p.missed
    ensures Confirmed(cfg, t, p, changes) == changes
  {
    if changes != [] {
      var n := |changes| - 1;
      assert changes[..n + 1] == changes;
      GateOff(cfg, t, p, changes[..n]);
    }
  }

  /** The gate holds back deletions only. */
  lemma {:induction false} OthersPass(cfg: Config, t: Tables, p: Pass, changes: seq<Change>, c: Change)
    requires !c.Deleted?
    ensures c in Confirmed(cfg, t, p, changes) <==> c in changes
  {
    if changes != [] {
      var init, last := changes[..|changes| - 1], changes[|changes| - 1];
      assert changes == init + [last];
      OthersPass(cfg, t, p, init, c);
    }
  }

  /** What a complete pass returns are exactly the reported deletions, with their rows. */
  lemma {:induction false} ConfirmedAreReported(cfg: Config, t: Tables, p: Pass, changes: seq<Change>, f: FileInfo)
    requires p.end == Complete
    ensures Deleted(f) in Confirmed(cfg, t, p, changes) <==> Deleted(f) in changes && Reported(cfg, t, p, f.name)
  {
    if changes != [] {
      var init, c := changes[..|changes| - 1], changes[|changes| - 1];
      assert changes == init + [c];
      ConfirmedAreReported(cfg, t, p, init, f);
    }
  }

  // ---- a whole pass ----

  /** rows lists the live rows of the index, in whatever order they come. */
  ghost predicate Lists(index: View, rows: seq<FileInfo>)
  {
    && (forall r :: r in rows ==> r.name in index && index[r.name] == r && !r.deleted)
    && (forall n :: n in index && !index[n].deleted ==> index[n] in rows)
  }

  /** What the pass met and what the rename detector is given agree. */
  ghost predicate Observed(cfg: Config, t: Tables, p: Pass, visited: seq<string>, e: Evidence, rows: seq<FileInfo>)
  {
    && (forall n :: n in visited <==> n in p.found)
    && (forall n :: n in p.found ==> n in p.seen && InScope(p.scope, n))
    && (forall n :: n in p.drift ==> n in Released(cfg, t, p))
    && Lists(p.rows, rows) && e.seen == p.seen && e.scope == p.scope
    && (forall c :: c in e.changes ==> !c.Deleted?)
  }

  /** The pass with the misses that rename detection leaves. */
  ghost function Paired(p: Pass, e: Evidence, rows: seq<FileInfo>): Pass
  {
    p.(missed := MissedNames(Detected(e, rows)))
  }

  lemma PairedIsSane(cfg: Config, t: Tables, p: Pass, visited: seq<string>, e: Evidence, rows: seq<FileInfo>)
    requires Observed(cfg, t, p, visited, e, rows)
    ensures Sane(cfg, t, Paired(p, e, rows)) && SpeaksFor(Detected(e, rows), Paired(p, e, rows))
  {
    var d := Detected(e, rows);
    forall c | c in d && c.Deleted? ensures c.info in rows && Vanished(e, c.info) {
      DeletionsAreUnpaired(e, rows, c.info);
    }
    forall n | n in MissedNames(d)
      ensures n !in p.seen && InScope(p.scope, n) && n in p.rows && !p.rows[n].deleted && p.rows[n].name == n
    {
      var k :| 0 <= k < |d| && d[k].Deleted? && d[k].info.name == n;
      assert d[k] in d;
    }
    var q := Paired(p, e, rows);
    forall n | n in q.drift ensures n in Released(cfg, t, q) {
      assert Judge(cfg, t.settling, q, n, q.found[n]) == Judge(cfg, t.settling, p, n, p.found[n]);
    }
  }

  class Scanner {
    const cfg: Config
    var settling: map<string, Settle>
    var missing: map<string, Missing>
    var held: map<string, Settle>

    function State(): Tables
      reads this
    {
      Tables(settling, missing, held)
    }

    constructor (cfg: Config)
      ensures this.cfg == cfg && State() == Tables(map[], map[], map[])
    {
      this.cfg := cfg;
      settling, missing, held := map[], map[], map[];
    }

    /** One pass: walk, pair renames, confirm deletions, then write the tables. */
    method Scan(p: Pass, visited: seq<string>, e: Evidence, rows: seq<FileInfo>) returns (out: seq<Change>)
      requires Observed(cfg, State(), p, visited, e, rows)
      modifies this
      ensures Sane(cfg, old(State()), Paired(p, e, rows))
      ensures State() == Step(cfg, old(State()), Paired(p, e, rows))
      ensures out == if p.end == Complete then Confirmed(cfg, old(State()), Paired(p, e, rows), Detected(e, rows)) else []
    {
      if p.end == Early {
        PairedIsSane(cfg, State(), p, visited, e, rows);
        return [];
      }
      var changes := DetectRenames(e, rows);
      var q := p.(missed := MissedNames(changes));
      PairedIsSane(cfg, State(), p, visited, e, rows);
      var nextSettling, nextHeld := Settled(cfg, State(), q, visited);
      var unsettled := (set n | n in settling :: settling[n].key) + set n | n in nextSettling :: nextSettling[n].key;
      out, missing := ConfirmDeletions(cfg, State(), q, changes, unsettled);
      if p.end == Late {
        return [];
      }
      settling, held := nextSettling, nextHeld;
    }
  }

  /** The settling table and the in-flight set the walk leaves behind. */
  method Settled(cfg: Config, t: Tables, p: Pass, visited: seq<string>)
    returns (settling: map<string, Settle>, held: map<string, Settle>)
    requires Sane(cfg, t, p) && forall n :: n in visited <==> n in p.found
    ensures settling == NextSettling(cfg, t, p) && held == NextHeld(cfg, t, p)
  {
    var back, drifted := WalkAndHash(cfg, t, p, visited);
    MergedTable(cfg, t, p, t.settling);
    MergedTable(cfg, t, p, t.held);
    settling := back;
    if p.scope != [] {
      var outside := KeepOutside(t.settling, p.scope);
      settling := settling + outside;
    }
    settling := settling + drifted;
    held := Publish(t, p, back + drifted);
  }

  method WalkAndHash(cfg: Config, t: Tables, p: Pass, visited: seq<string>)
    returns (back: map<string, Settle>, drifted: map<string, Settle>)
    requires Sane(cfg, t, p) && forall n :: n in visited <==> n in p.found
    ensures back == HeldBack(cfg, t, p) && drifted == Drifted(cfg, t, p)
  {
    var queued;
    back, queued := Walk(cfg, t, p, visited);
    drifted := Demote(cfg, t, p, queued);
  }

  /** A file whose stat moved while it was hashed starts a fresh run. */
  method Demote(cfg: Config, t: Tables, p: Pass, queued: map<string, int>) returns (r: map<string, Settle>)
    requires Sane(cfg, t, p) && queued.Keys == Released(cfg, t, p)
    requires forall n :: n in queued ==> queued[n] == FirstOf(cfg, t, p, n)
    ensures r == Drifted(cfg, t, p)
  {
    r := map n | n in p.drift && n in queued :: Settle(p.drift[n], 1, queued[n]);
  }

  /** The in-flight set: a scoped pass keeps what it did not look at. */
  method Publish(t: Tables, p: Pass, rows: map<string, Settle>) returns (held: map<string, Settle>)
    ensures held == (if p.scope == [] then map[] else Outside(t.held, p.scope)) + rows
  {
    held := map[];
    if p.scope != [] {
      held := KeepOutside(t.held, p.scope);
    }
    held := held + rows;
  }

  /** Old rows from outside the scope, the walk's rows and the fresh ones, put together in any
      of the orders the pass uses, are the table after the pass. */
  lemma MergedTable(cfg: Config, t: Tables, p: Pass, kept: map<string, Settle>)
    requires Sane(cfg, t, p)
    ensures var outside, back, drifted := Outside(kept, p.scope), HeldBack(cfg, t, p), Drifted(cfg, t, p);
            && back + outside + drifted == TableAfter(cfg, t, p, kept)
            && outside + (back + drifted) == TableAfter(cfg, t, p, kept)
            && (p.scope == [] ==> outside == map[])
  {
    var outside, back, drifted := Outside(kept, p.scope), HeldBack(cfg, t, p), Drifted(cfg, t, p);
    var table := TableAfter(cfg, t, p, kept);
    forall n: string
      ensures n in table <==> n in outside || n in back || n in drifted
      ensures n in table ==> table[n] == if n in drifted then drifted[n] else if n in back then back[n] else outside[n]
      ensures !(n in outside && n in back) && !(n in outside && n in drifted)
    {
    }
    SameMap(table, outside, back, drifted);
  }

  lemma SameMap(table: map<string, Settle>, outside: map<string, Settle>, back: map<string, Settle>, drifted: map<string, Settle>)
    requires forall n :: n in table <==> n in outside || n in back || n in drifted
    requires forall n :: n in table ==> table[n] == if n in drifted then drifted[n] else if n in back then back[n] else outside[n]
    requires forall n :: n in outside ==> n !in back && n !in drifted
    ensures back + outside + drifted == table && outside + (back + drifted) == table
  {
  }
}

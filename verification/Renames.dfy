/** Folding a vanished path and a new file of the same content into one move
    (internal/scanner/scanner.go detectRenames). */
module Renames {
  import opened Entries
  import opened ScanGates

  datatype Change =
    | Added(info: FileInfo)
    | Modified(info: FileInfo)
    | Deleted(info: FileInfo)
    | Renamed(from: string, info: FileInfo, outOfGate: bool)
    | Other(info: FileInfo)

  /** An out-of-gate file that shares its stat with one vanished path; `blocks` is what
      hashing it gave, None when it could not be read. */
  datatype GateMove = GateMove(rel: string, modS: int, modNs: int, mode: int, blocks: Option<seq<Digest>>)

  /** What the pass knows before pairing. `claimed` holds the old paths already paired by the
      cheap pass, `excluded` the rows the include gate does not match, `gone` the paths an
      lstat reports absent. */
  datatype Evidence = Evidence(changes: seq<Change>, seen: set<string>, claimed: set<string>, scope: seq<string>,
                               crossScope: bool, excluded: set<string>, gone: set<string>, moves: map<string, GateMove>)

  /** size and block hashes: contentKey without its byte layout. */
  datatype Content = Content(size: int, blocks: seq<Digest>)

  function ContentOf(f: FileInfo): Content
  {
    Content(f.size, f.blocks)
  }

  predicate Hashed(f: FileInfo)
  {
    f.kind == File && |f.blocks| > 0
  }

  /** Change i adds a hashed file with this content. */
  predicate Adds(changes: seq<Change>, i: nat, c: Content)
  {
    i < |changes| && changes[i].Added? && Hashed(changes[i].info) && ContentOf(changes[i].info) == c
  }

  ghost predicate AddsStat(changes: seq<Change>, i: nat, k: Key)
  {
    i < |changes| && changes[i].Added? && Hashed(changes[i].info) && KeyOf(changes[i].info) == k
  }

  /** Exactly one file of the pass was added with this content: number i. */
  ghost predicate Sole(changes: seq<Change>, i: nat, c: Content)
  {
    Adds(changes, i, c) && forall k: nat :: Adds(changes, k, c) ==> k == i
  }

  /** The pass may treat this row as the old half of a move: unseen, and either walked and
      owned by this device, or outside a scoped walk, vouched for by a stat. */
  ghost predicate Movable(e: Evidence, r: FileInfo)
  {
    && r.name !in e.seen && r.name !in e.claimed && Hashed(r)
    && if InScope(e.scope, r.name) then r.name !in e.excluded
       else e.crossScope && r.name in e.gone && exists i: nat :: AddsStat(e.changes, i, KeyOf(r))
  }

  /** Row j becomes a move onto the file added as change i: the content has exactly one new
      holder, and no earlier row of the listing takes it. */
  ghost predicate MovesTo(e: Evidence, rows: seq<FileInfo>, j: nat, i: nat)
  {
    && j < |rows| && Movable(e, rows[j]) && Sole(e.changes, i, ContentOf(rows[j]))
    && forall k :: 0 <= k < j ==> !(Movable(e, rows[k]) && ContentOf(rows[k]) == ContentOf(rows[j]))
  }

  /** A path that left the include gate with its content intact. */
  predicate LeftGate(e: Evidence, r: FileInfo)
  {
    Hashed(r) && r.name in e.moves && e.moves[r.name].blocks == Some(r.blocks)
  }

  function Relocated(r: FileInfo, g: GateMove): FileInfo
  {
    r.(name := g.rel, sequence := 0, modS := g.modS, modNs := g.modNs, mode := g.mode)
  }

  /** The walk covered this path, this device owns it, and it was not there. */
  predicate Vanished(e: Evidence, r: FileInfo)
  {
    r.name !in e.seen && r.name !in e.claimed && InScope(e.scope, r.name) && r.name !in e.excluded
  }

  ghost function Target(e: Evidence, rows: seq<FileInfo>, j: nat): Option<nat>
  {
    if exists i: nat :: MovesTo(e, rows, j, i) then
      var i: nat :| MovesTo(e, rows, j, i);
      Some(i)
    else None
  }

  /** What is reported about row j. */
  ghost function Report(e: Evidence, rows: seq<FileInfo>, j: nat): seq<Change>
    requires j < |rows|
  {
    var r := rows[j];
    match Target(e, rows, j)
    case Some(i) => [Renamed(r.name, e.changes[i].info, false)]
    case None =>
      if !Vanished(e, r) then []
      else if LeftGate(e, r) then [Renamed(r.name, Relocated(r, e.moves[r.name]), true)]
      else [Deleted(r)]
  }

  ghost function Tail(e: Evidence, rows: seq<FileInfo>, n: nat): seq<Change>
    requires n <= |rows|
  {
    if n == 0 then [] else Tail(e, rows, n - 1) + Report(e, rows, n - 1)
  }

  /** One of the first n rows moves onto the file added as change i. */
  ghost predicate Taken(e: Evidence, rows: seq<FileInfo>, n: nat, i: nat)
  {
    exists k: nat :: k < n && MovesTo(e, rows, k, i)
  }

  /** The first n changes without the added files that became the target of a move. */
  ghost function Kept(e: Evidence, rows: seq<FileInfo>, n: nat): seq<Change>
    requires n <= |e.changes|
  {
    if n == 0 then []
    else if Taken(e, rows, |rows|, n - 1) then Kept(e, rows, n - 1)
    else Kept(e, rows, n - 1) + [e.changes[n - 1]]
  }

  /** Two moves never share a target: content is neither lost nor duplicated. */
  lemma MovesAreOneToOne(e: Evidence, rows: seq<FileInfo>, j: nat, k: nat, i: nat)
    requires MovesTo(e, rows, j, i) && MovesTo(e, rows, k, i)
    ensures j == k
  {
    assert ContentOf(rows[j]) == ContentOf(rows[k]);
  }

  /** A move carries exactly the content of its old path, from the only file of the pass that
      has it; outside the scope it also needs a stat that says the old path is gone. */
  lemma MoveKeepsContent(e: Evidence, rows: seq<FileInfo>, j: nat, i: nat)
    requires MovesTo(e, rows, j, i)
    ensures ContentOf(e.changes[i].info) == ContentOf(rows[j])
    ensures forall k: nat :: k < |e.changes| && k != i && e.changes[k].Added? && Hashed(e.changes[k].info) ==>
              ContentOf(e.changes[k].info) != ContentOf(rows[j])
    ensures !InScope(e.scope, rows[j].name) ==> e.scope != [] && e.crossScope && rows[j].name in e.gone
  {
    forall k: nat | k < |e.changes| && k != i && e.changes[k].Added? && Hashed(e.changes[k].info)
      ensures ContentOf(e.changes[k].info) != ContentOf(rows[j])
    {
      assert !Adds(e.changes, k, ContentOf(rows[j]));
    }
  }

  /** The positions among the first n changes that add this content. */
  function Holders(changes: seq<Change>, n: nat, c: Content): (r: seq<nat>)
    requires n <= |changes|
    ensures forall i: nat :: i in r <==> i < n && Adds(changes, i, c)
    ensures forall a, b :: 0 <= a < b < |r| ==> r[a] < r[b]
  {
    if n == 0 then []
    else if Adds(changes, n - 1, c) then
      var r := Holders(changes, n - 1, c);
      assert forall a :: 0 <= a < |r| ==> r[a] in r;
      r + [n - 1]
    else Holders(changes, n - 1, c)
  }

  /** The stats of the hashed files added among the first n changes. */
  function Stats(changes: seq<Change>, n: nat): set<Key>
    requires n <= |changes|
  {
    if n == 0 then {}
    else if changes[n - 1].Added? && Hashed(changes[n - 1].info) then Stats(changes, n - 1) + {KeyOf(changes[n - 1].info)}
    else Stats(changes, n - 1)
  }

  lemma {:induction false} StatsAreAdded(changes: seq<Change>, n: nat, k: Key)
    requires n <= |changes|
    ensures k in Stats(changes, n) <==> exists i: nat :: i < n && AddsStat(changes, i, k)
  {
    if n > 0 {
      StatsAreAdded(changes, n - 1, k);
      assert AddsStat(changes, n - 1, k) <==>
             changes[n - 1].Added? && Hashed(changes[n - 1].info) && KeyOf(changes[n - 1].info) == k;
    }
  }

  function Lookup(m: map<Content, seq<nat>>, c: Content): seq<nat>
  {
    if c in m then m[c] else []
  }

  /** The added files grouped by content and by stat. */
  method GroupAdded(changes: seq<Change>) returns (byContent: map<Content, seq<nat>>, byStat: set<Key>)
    ensures forall c :: Lookup(byContent, c) == Holders(changes, |changes|, c)
    ensures byStat == Stats(changes, |changes|)
  {
    byContent, byStat := map[], {};
    var n := 0;
    while n < |changes|
      invariant n <= |changes|
      invariant forall c :: Lookup(byContent, c) == Holders(changes, n, c)
      invariant byStat == Stats(changes, n)
    {
      if changes[n].Added? && Hashed(changes[n].info) {
        var c := ContentOf(changes[n].info);
        byContent := byContent[c := Lookup(byContent, c) + [n]];
        byStat := byStat + {KeyOf(changes[n].info)};
      }
      n := n + 1;
    }
  }

  /** If any row could take the content, the first one that can does. */
  lemma {:induction false} FirstTaker(e: Evidence, rows: seq<FileInfo>, k: nat, i: nat)
    requires k < |rows| && Movable(e, rows[k]) && Sole(e.changes, i, ContentOf(rows[k]))
    ensures exists j: nat :: j <= k && MovesTo(e, rows, j, i)
    decreases k
  {
    if m :| 0 <= m < k && Movable(e, rows[m]) && ContentOf(rows[m]) == ContentOf(rows[k]) {
      FirstTaker(e, rows, m, i);
    } else {
      assert MovesTo(e, rows, k, i);
    }
  }

  /** Deciding by "not yet claimed" is deciding by "first in the listing". */
  lemma UnclaimedIsFirst(e: Evidence, rows: seq<FileInfo>, j: nat, i: nat)
    requires j < |rows| && Sole(e.changes, i, ContentOf(rows[j]))
    ensures MovesTo(e, rows, j, i) <==> Movable(e, rows[j]) && !Taken(e, rows, j, i)
    ensures MovesTo(e, rows, j, i) <==> Target(e, rows, j) == Some(i)
    ensures Target(e, rows, j) == Some(i) || Target(e, rows, j) == None
  {
    if MovesTo(e, rows, j, i) {
      forall k: nat | k < j ensures !MovesTo(e, rows, k, i) {
        assert !(Movable(e, rows[k]) && ContentOf(rows[k]) == ContentOf(rows[j]));
      }
    }
    if Movable(e, rows[j]) && !MovesTo(e, rows, j, i) {
      var m :| 0 <= m < j && Movable(e, rows[m]) && ContentOf(rows[m]) == ContentOf(rows[j]);
      FirstTaker(e, rows, m, i);
    }
  }

  method DetectRenames(e: Evidence, rows: seq<FileInfo>) returns (out: seq<Change>)
    ensures out == Detected(e, rows)
  {
    var byContent, byStat := GroupAdded(e.changes);
    var used: set<nat> := {};
    var tail: seq<Change> := [];
    var j := 0;
    while j < |rows|
      invariant j <= |rows|
      invariant forall i: nat :: i in used <==> Taken(e, rows, j, i)
      invariant tail == Tail(e, rows, j)
    {
      var target, c := Consider(e, rows, j, byContent, byStat, used);
      ghost var before := used;
      if target.Some? {
        used := used + {target.value};
      }
      forall i: nat ensures i in used <==> Taken(e, rows, j + 1, i) {
      }
      tail := tail + c;
      j := j + 1;
    }
    var kept := Drop(e, rows, used);
    out := kept + tail;
  }

  /** One row of the listing. */
  method Consider(e: Evidence, rows: seq<FileInfo>, j: nat, byContent: map<Content, seq<nat>>, byStat: set<Key>,
                  used: set<nat>) returns (target: Option<nat>, c: seq<Change>)
    requires j < |rows|
    requires forall c :: Lookup(byContent, c) == Holders(e.changes, |e.changes|, c)
    requires byStat == Stats(e.changes, |e.changes|)
    requires forall i: nat :: i in used <==> Taken(e, rows, j, i)
    ensures target == Target(e, rows, j) && c == Report(e, rows, j)
  {
    var r := rows[j];
    if r.name in e.seen || r.name in e.claimed {
      return None, [];
    }
    var content := ContentOf(r);
    var idxs := Lookup(byContent, content);
    SoleIsAlone(e.changes, content, idxs);
    StatsAreAdded(e.changes, |e.changes|, KeyOf(r));
    if |idxs| == 1 {
      UnclaimedIsFirst(e, rows, j, idxs[0]);
    }
    if !InScope(e.scope, r.name) {
      if e.scope != [] && e.crossScope && Hashed(r) && KeyOf(r) in byStat && |idxs| == 1 && idxs[0] !in used
         && r.name in e.gone {
        return Some(idxs[0]), [Renamed(r.name, e.changes[idxs[0]].info, false)];
      }
      return None, [];
    }
    if r.name in e.excluded {
      return None, [];
    }
    if Hashed(r) {
      if |idxs| == 1 && idxs[0] !in used {
        return Some(idxs[0]), [Renamed(r.name, e.changes[idxs[0]].info, false)];
      }
      if r.name in e.moves && e.moves[r.name].blocks == Some(r.blocks) {
        return None, [Renamed(r.name, Relocated(r, e.moves[r.name]), true)];
      }
    }
    return None, [Deleted(r)];
  }

  lemma SoleIsAlone(changes: seq<Change>, c: Content, idxs: seq<nat>)
    requires forall i: nat :: i in idxs <==> Adds(changes, i, c)
    requires forall a, b :: 0 <= a < b < |idxs| ==> idxs[a] < idxs[b]
    ensures |idxs| == 1 <==> exists i: nat :: Sole(changes, i, c)
    ensures |idxs| == 1 ==> Sole(changes, idxs[0], c)
  {
    if |idxs| == 1 {
      assert idxs[0] in idxs;
      assert Sole(changes, idxs[0], c);
    }
    if i: nat :| Sole(changes, i, c) {
      assert i in idxs;
      if |idxs| > 1 {
        assert idxs[0] in idxs && idxs[1] in idxs;
      }
    }
  }

  /** The added files that were folded into moves leave the list. */
  method Drop(e: Evidence, rows: seq<FileInfo>, used: set<nat>) returns (kept: seq<Change>)
    requires forall i: nat :: i in used <==> Taken(e, rows, |rows|, i)
    ensures kept == Kept(e, rows, |e.changes|)
  {
    kept := [];
    var n := 0;
    while n < |e.changes|
      invariant n <= |e.changes|
      invariant kept == Kept(e, rows, n)
    {
      if !(e.changes[n].Added? && n in used) {
        kept := kept + [e.changes[n]];
      }
      n := n + 1;
    }
  }

  lemma {:induction false} TailHolds(e: Evidence, rows: seq<FileInfo>, n: nat, j: nat, c: Change)
    requires j < n <= |rows| && c in Report(e, rows, j)
    ensures c in Tail(e, rows, n)
  {
    if j < n - 1 {
      TailHolds(e, rows, n - 1, j, c);
    }
  }

  lemma {:induction false} TailComesFromARow(e: Evidence, rows: seq<FileInfo>, n: nat, c: Change)
    requires n <= |rows| && c in Tail(e, rows, n)
    ensures exists j: nat :: j < n && c in Report(e, rows, j)
  {
    if c !in Report(e, rows, n - 1) {
      TailComesFromARow(e, rows, n - 1, c);
    }
  }

  lemma {:induction false} KeptHolds(e: Evidence, rows: seq<FileInfo>, n: nat, i: nat)
    requires i < n <= |e.changes| && !Taken(e, rows, |rows|, i)
    ensures e.changes[i] in Kept(e, rows, n)
  {
    if i < n - 1 {
      KeptHolds(e, rows, n - 1, i);
    }
  }

  lemma {:induction false} KeptWasThere(e: Evidence, rows: seq<FileInfo>, n: nat, c: Change)
    requires n <= |e.changes| && c in Kept(e, rows, n)
    ensures exists i: nat :: i < n && e.changes[i] == c && !Taken(e, rows, |rows|, i)
  {
    if Taken(e, rows, |rows|, n - 1) || c != e.changes[n - 1] {
      KeptWasThere(e, rows, n - 1, c);
    }
  }

  ghost function Detected(e: Evidence, rows: seq<FileInfo>): seq<Change>
  {
    Kept(e, rows, |e.changes|) + Tail(e, rows, |rows|)
  }

  /** Nothing found by the pass is forgotten: every earlier change is still reported, or it
      is an added file reported as the target of a move instead. */
  lemma EveryChangeSurvives(e: Evidence, rows: seq<FileInfo>, i: nat)
    requires i < |e.changes|
    ensures e.changes[i] in Detected(e, rows)
            || (exists j: nat ::
                  j < |rows| && MovesTo(e, rows, j, i) && Renamed(rows[j].name, e.changes[i].info, false) in Detected(e, rows))
  {
    if Taken(e, rows, |rows|, i) {
      var j: nat :| j < |rows| && MovesTo(e, rows, j, i);
      UnclaimedIsFirst(e, rows, j, i);
      TailHolds(e, rows, |rows|, j, Renamed(rows[j].name, e.changes[i].info, false));
    } else {
      KeptHolds(e, rows, |e.changes|, i);
    }
  }

  /** Exactly the vanished rows that no move explains are reported as deletions. */
  lemma DeletionsAreUnpaired(e: Evidence, rows: seq<FileInfo>, f: FileInfo)
    requires forall c :: c in e.changes ==> !c.Deleted?
    ensures Deleted(f) in Detected(e, rows) <==>
              exists j: nat :: j < |rows| && rows[j] == f && Vanished(e, f) && !LeftGate(e, f) && Target(e, rows, j).None?
  {
    if Deleted(f) in Kept(e, rows, |e.changes|) {
      KeptWasThere(e, rows, |e.changes|, Deleted(f));
    } else if Deleted(f) in Detected(e, rows) {
      TailComesFromARow(e, rows, |rows|, Deleted(f));
    }
    if j: nat :| j < |rows| && rows[j] == f && Vanished(e, f) && !LeftGate(e, f) && Target(e, rows, j).None? {
      TailHolds(e, rows, |rows|, j, Deleted(f));
    }
  }

  /** Pairing is one-to-one on the new files only: when two vanished rows held the content of
      the one new file, the first of the listing moves and the second is deleted. */
  lemma SecondHolderIsDeleted(e: Evidence, rows: seq<FileInfo>, j: nat, k: nat, i: nat)
    requires j < k < |rows| && Sole(e.changes, i, ContentOf(rows[j])) && ContentOf(rows[j]) == ContentOf(rows[k])
    requires Movable(e, rows[j]) && Vanished(e, rows[k]) && !LeftGate(e, rows[k])
    ensures Deleted(rows[k]) in Detected(e, rows) && Taken(e, rows, k, i)
  {
    FirstTaker(e, rows, j, i);
    UnclaimedIsFirst(e, rows, k, i);
    TailHolds(e, rows, |rows|, k, Deleted(rows[k]));
  }

  // ---- what is reported, from the evidence alone ----

  // Stated over the fields of the evidence and of the rows, without the terms the pairing
  // itself is defined by.

  /** A live row whose file may have moved: the pass has neither seen nor explained its path, and
      the path lies in the walked scope and is this device's to report; or it lies outside, an
      lstat says that it is gone, and some added file has its size and time. */
  ghost predicate Unexplained(e: Evidence, r: FileInfo)
  {
    && r.name !in e.seen && r.name !in e.claimed && r.kind == File && |r.blocks| > 0
    && if InScope(e.scope, r.name) then r.name !in e.excluded
       else && e.crossScope && r.name in e.gone
            && exists i :: 0 <= i < |e.changes| && IsAdded(e.changes[i]) && KeyOf(e.changes[i].info) == KeyOf(r)
  }

  /** A hashed file that the pass found new. */
  predicate IsAdded(c: Change)
  {
    c.Added? && c.info.kind == File && |c.info.blocks| > 0
  }

  predicate SameBytes(a: FileInfo, b: FileInfo)
  {
    a.size == b.size && a.blocks == b.blocks
  }

  /** The listing has one row per name, and no earlier stage reported deletions. */
  ghost predicate Fresh(e: Evidence, rows: seq<FileInfo>)
  {
    && (forall j, k :: 0 <= j < k < |rows| ==> rows[j].name != rows[k].name)
    && (forall c :: c in e.changes ==> !c.Deleted?)
  }

  /** Row j and change i are the two halves of a move: the row is unexplained, the change is the
      one new file with its bytes, and no earlier row of the listing could claim it. */
  ghost predicate Halves(e: Evidence, rows: seq<FileInfo>, j: nat, i: nat)
  {
    && j < |rows| && i < |e.changes| && Unexplained(e, rows[j]) && IsAdded(e.changes[i]) && SameBytes(e.changes[i].info, rows[j])
    && (forall k :: 0 <= k < |e.changes| && IsAdded(e.changes[k]) && SameBytes(e.changes[k].info, rows[j]) ==> k == i)
    && (forall k :: 0 <= k < j && SameBytes(rows[k], rows[j]) ==> !Unexplained(e, rows[k]))
  }

  lemma UnexplainedIsMovable(e: Evidence, r: FileInfo)
    ensures Unexplained(e, r) <==> Movable(e, r)
  {
    if i :| 0 <= i < |e.changes| && IsAdded(e.changes[i]) && KeyOf(e.changes[i].info) == KeyOf(r) {
      assert AddsStat(e.changes, i, KeyOf(r));
    }
    if i: nat :| AddsStat(e.changes, i, KeyOf(r)) {
      assert IsAdded(e.changes[i]);
    }
  }

  lemma HalvesMove(e: Evidence, rows: seq<FileInfo>, j: nat, i: nat)
    ensures Halves(e, rows, j, i) <==> MovesTo(e, rows, j, i)
  {
    forall r ensures Unexplained(e, r) <==> Movable(e, r) { UnexplainedIsMovable(e, r); }
    if j < |rows| {
      var c := ContentOf(rows[j]);
      forall k: nat ensures Adds(e.changes, k, c) <==> k < |e.changes| && IsAdded(e.changes[k]) && SameBytes(e.changes[k].info, rows[j]) {
      }
    }
  }

  /** The two halves of a move are reported as one rename, and neither as a deletion nor as a new
      file. */
  lemma MoveIsReported(e: Evidence, rows: seq<FileInfo>, j: nat, i: nat)
    requires Halves(e, rows, j, i) && Fresh(e, rows)
    ensures var out := Detected(e, rows);
            && Renamed(rows[j].name, e.changes[i].info, false) in out
            && Deleted(rows[j]) !in out && Added(e.changes[i].info) !in out
  {
    HalvesMove(e, rows, j, i);
    UnclaimedIsFirst(e, rows, j, i);
    TailHolds(e, rows, |rows|, j, Renamed(rows[j].name, e.changes[i].info, false));
    DeletionsAreUnpaired(e, rows, rows[j]);
    MovedIsNotNew(e, rows, j, i);
  }

  lemma MovedIsNotNew(e: Evidence, rows: seq<FileInfo>, j: nat, i: nat)
    requires MovesTo(e, rows, j, i)
    ensures Added(e.changes[i].info) !in Detected(e, rows)
  {
    var c := Added(e.changes[i].info);
    if c in Kept(e, rows, |e.changes|) {
      KeptWasThere(e, rows, |e.changes|, c);
      var k: nat :| k < |e.changes| && e.changes[k] == c && !Taken(e, rows, |rows|, k);
      assert Adds(e.changes, k, ContentOf(rows[j]));
    } else if c in Detected(e, rows) {
      TailComesFromARow(e, rows, |rows|, c);
    }
  }

  /** A rename whose target is in the gate is reported only for the two halves of a move, or was
      reported by the cheap pass. */
  lemma ReportedIsMove(e: Evidence, rows: seq<FileInfo>, c: Change)
    requires c in Detected(e, rows) && c.Renamed? && !c.outOfGate && c !in e.changes
    ensures exists j: nat, i: nat :: Halves(e, rows, j, i) && c == Renamed(rows[j].name, e.changes[i].info, false)
  {
    if c in Kept(e, rows, |e.changes|) {
      KeptWasThere(e, rows, |e.changes|, c);
    } else {
      TailComesFromARow(e, rows, |rows|, c);
      var j: nat :| j < |rows| && c in Report(e, rows, j);
      var i := Target(e, rows, j).value;
      HalvesMove(e, rows, j, i);
    }
  }

  /** A vanished row that is no half of a move and did not leave the include gate is reported
      deleted, and only such rows are. */
  lemma LossIsReported(e: Evidence, rows: seq<FileInfo>, j: nat)
    requires j < |rows| && Fresh(e, rows)
    ensures Deleted(rows[j]) in Detected(e, rows) <==>
              && rows[j].name !in e.seen && rows[j].name !in e.claimed && InScope(e.scope, rows[j].name)
              && rows[j].name !in e.excluded
              && !(|| (exists i: nat :: Halves(e, rows, j, i))
                   || (&& rows[j].kind == File && |rows[j].blocks| > 0 && rows[j].name in e.moves
                       && e.moves[rows[j].name].blocks == Some(rows[j].blocks)))
  {
    DeletionsAreUnpaired(e, rows, rows[j]);
    forall i: nat ensures Halves(e, rows, j, i) <==> MovesTo(e, rows, j, i) { HalvesMove(e, rows, j, i); }
  }

  /** A vanished row whose bytes live on outside the include gate, and that is no half of another
      move, is reported as moved there: content and history of the row under the new path and
      with the new file's times. */
  lemma GateMoveIsReported(e: Evidence, rows: seq<FileInfo>, j: nat)
    requires j < |rows| && forall i: nat :: !Halves(e, rows, j, i)
    requires rows[j].name !in e.seen && rows[j].name !in e.claimed && InScope(e.scope, rows[j].name) && rows[j].name !in e.excluded
    requires rows[j].kind == File && |rows[j].blocks| > 0 && rows[j].name in e.moves
    requires e.moves[rows[j].name].blocks == Some(rows[j].blocks)
    ensures exists f: FileInfo ::
              && Renamed(rows[j].name, f, true) in Detected(e, rows) && f.name == e.moves[rows[j].name].rel
              && SameContent(f, rows[j]) && f.version == rows[j].version && f.deleted == rows[j].deleted
              && f.modS == e.moves[rows[j].name].modS && f.modNs == e.moves[rows[j].name].modNs
  {
    forall i: nat ensures !MovesTo(e, rows, j, i) { HalvesMove(e, rows, j, i); }
    var f := Relocated(rows[j], e.moves[rows[j].name]);
    TailHolds(e, rows, |rows|, j, Renamed(rows[j].name, f, true));
  }
}

/** What happens to a local copy before a remote change replaces it (engine.go PlanOverwrite). */
module Overwrite {
  import opened Versions
  import opened Entries
  import opened GlobalModel
  import ConflictNames

  datatype Policy = ConflictCopy | ConflictVersioning

  datatype Plan = Plan(name: string, global: FileInfo, delete: bool,
                       archiveLocal: bool, makeConflictCopy: bool, conflictName: string)

  /** A real conflict: neither version saw the other and the contents differ. */
  ghost predicate IsConflict(local: FileInfo, global: FileInfo)
  {
    Compare(global.version, local.version) == Concurrent && !SameContent(local, global)
  }

  /** The plan, or None when no device has an entry for name. `ts` is the local entry's
      formatted modification time. */
  ghost function PlanOverwrite(local: Option<FileInfo>, views: seq<View>, name: string,
                               policy: Policy, versioning: bool, node: U64, ts: string): Option<Plan>
  {
    match Global(local, views, name)
    case None => None
    case Some(global) =>
      var plain := Plan(name, global, global.deleted, false, false, "");
      if local.None? || local.value.deleted then Some(plain)
      else
        var copy := IsConflict(local.value, global) && policy == ConflictCopy && !versioning;
        Some(plain.(archiveLocal := versioning, makeConflictCopy := copy,
                    conflictName := if copy then ConflictNames.ConflictName(local.value.name, ts, node) else ""))
  }

  method MakePlan(local: Option<FileInfo>, views: seq<View>, name: string,
                  policy: Policy, versioning: bool, node: U64, ts: string) returns (plan: Option<Plan>)
    ensures plan == PlanOverwrite(local, views, name, policy, versioning, node, ts)
  {
    var global, _ := GlobalFrom(local, views, name);
    if global.None? {
      return None;
    }
    var p := Plan(name, global.value, global.value.deleted, false, false, "");
    if local.None? || local.value.deleted {
      return Some(p);
    }
    var order := CompareKeys(global.value.version, local.value.version);
    var conflict := order == Concurrent && !SameContent(local.value, global.value);
    if versioning {
      p := p.(archiveLocal := true);
    }
    if conflict && policy == ConflictCopy && !versioning {
      p := p.(makeConflictCopy := true, conflictName := ConflictNames.ConflictName(local.value.name, ts, node));
    }
    plan := Some(p);
  }

  lemma {:induction false} WinnerExists(local: Option<FileInfo>, views: seq<View>, name: string)
    ensures Global(local, views, name).None? <==> local.None? && forall v :: v in views ==> name !in v
  {
    if views != [] {
      assert views == views[..|views| - 1] + [views[|views| - 1]];
      WinnerExists(local, views[..|views| - 1], name);
    }
  }

  /** What a plan promises about the local copy: there is a plan unless no device knows the
      name; a copy that wins itself is not moved aside; archive and conflict copy never both
      touch it; and a live copy that loses a real conflict is kept by one of them, except under
      the versioning policy with versioning off. */
  lemma PlanPreserves(local: Option<FileInfo>, views: seq<View>, name: string,
                      policy: Policy, versioning: bool, node: U64, ts: string)
    requires local.Some? ==> local.value.name == name
    ensures var plan := PlanOverwrite(local, views, name, policy, versioning, node, ts);
            && (plan.None? <==> local.None? && forall v :: v in views ==> name !in v)
            && (plan.Some? ==>
                  && !(plan.value.archiveLocal && plan.value.makeConflictCopy)
                  && (plan.value.makeConflictCopy ==> plan.value.conflictName != name)
                  && (Stands(local, views, name) ==> !plan.value.makeConflictCopy)
                  && (local.Some? && !local.value.deleted && IsConflict(local.value, plan.value.global) ==>
                        (plan.value.archiveLocal || plan.value.makeConflictCopy <==> versioning || policy == ConflictCopy)))
  {
    WinnerExists(local, views, name);
    ConflictNames.CopyIsElsewhere(name, ts, node);
    if Stands(local, views, name) {
      StandingWins(local.value, views, name);
      LeqReflexive(local.value.version);
    }
  }
}

/** Folding the vectors of byte-identical copies into one (engine.go JoinIdentical). */
module Joining {
  import opened Versions
  import opened Entries
  import opened GlobalModel
  import opened Overwrite

  /** A peer disagrees about whether the path exists: a join must not interfere. */
  predicate Vetoes(view: View, name: string)
  {
    name in view && (view[name].deleted || view[name].invalid)
  }

  predicate Matches(view: View, local: FileInfo)
  {
    local.name in view && IdenticalContent(local, view[local.name])
  }

  /** The vectors of all views that hold the same bytes, merged into the local one. */
  function Merged(local: FileInfo, views: seq<View>): Vector
  {
    if views == [] then local.version
    else
      var view, merged := views[|views| - 1], Merged(local, views[..|views| - 1]);
      if Matches(view, local) then Merge(merged, view[local.name].version) else merged
  }

  /** The entry a join writes, if it writes one. */
  ghost function Joined(local: FileInfo, views: seq<View>): Option<FileInfo>
  {
    if (exists v :: v in views && Vetoes(v, local.name))
       || !(exists v :: v in views && Matches(v, local))
       || Compare(Merged(local, views), local.version) == Equal
    then None
    else Some(local.(version := Merged(local, views), sequence := 0))
  }

  method JoinEntry(local: FileInfo, views: seq<View>) returns (out: Option<FileInfo>)
    ensures out == Joined(local, views)
  {
    var merged := CloneKeys(local.version);
    var matched, blocked := false, false;
    var i := 0;
    while i < |views| && !blocked
      invariant 0 <= i <= |views|
      invariant blocked <==> exists v :: v in views[..i] && Vetoes(v, local.name)
      invariant !blocked ==> merged == Merged(local, views[..i])
      invariant !blocked ==> (matched <==> exists v :: v in views[..i] && Matches(v, local))
    {
      var view := views[i];
      assert views[..i + 1] == views[..i] + [view];
      if Vetoes(view, local.name) {
        blocked := true;
      } else if Matches(view, local) {
        matched := true;
        merged := MergeKeys(merged, view[local.name].version);
      }
      i := i + 1;
    }
    if blocked {
      return None;
    }
    assert views[..i] == views;
    var c := CompareKeys(merged, local.version);
    if !matched || c == Equal {
      return None;
    }
    out := Some(local.(version := merged, sequence := 0));
  }

  /** An entry a join may touch: live, valid, settled, and (unless a directory) still
      describing what a stat of the path reports. */
  predicate MayJoin(local: FileInfo, inFlight: set<string>, stat: map<string, (int, int, int)>)
  {
    && !local.deleted && !local.invalid && local.name !in inFlight
    && (local.kind == Directory ||
        (local.name in stat && stat[local.name] == (local.size, local.modS, local.modNs)))
  }

  /** JoinIdentical: the rows to rewrite, computed from the whole index and all views. */
  method JoinIdentical(rows: map<string, FileInfo>, views: seq<View>, inFlight: set<string>,
                       stat: map<string, (int, int, int)>) returns (joined: map<string, FileInfo>)
    ensures forall n :: n in joined <==>
              && n in rows && !rows[n].deleted && !rows[n].invalid && rows[n].name !in inFlight
              && (rows[n].kind == Directory ||
                  (rows[n].name in stat && stat[rows[n].name] == (rows[n].size, rows[n].modS, rows[n].modNs)))
              && Joined(rows[n], views).Some?
    ensures forall n :: n in joined ==> joined[n] == Joined(rows[n], views).value
  {
    joined := map[];
    if |views| == 0 {
      return;
    }
    var todo := rows.Keys;
    while todo != {}
      invariant todo <= rows.Keys
      invariant forall n :: n in joined <==>
          n in rows.Keys - todo && MayJoin(rows[n], inFlight, stat) && Joined(rows[n], views).Some?
      invariant forall n :: n in joined ==> joined[n] == Joined(rows[n], views).value
    {
      var n :| n in todo;
      todo := todo - {n};
      if MayJoin(rows[n], inFlight, stat) {
        var out := JoinEntry(rows[n], views);
        if out.Some? {
          joined := joined[n := out.value];
        }
      }
    }
  }

  /** The joined vector is the least one above the local vector and every matching view's
      vector, so it does not depend on the order in which views are visited. */
  lemma {:induction false} MergedIsLeastUpperBound(local: FileInfo, views: seq<View>)
    ensures Leq(local.version, Merged(local, views))
    ensures forall v: View :: v in views && Matches(v, local) ==> Leq(v[local.name].version, Merged(local, views))
    ensures forall u: Vector :: Leq(local.version, u)
              && (forall v: View :: v in views && Matches(v, local) ==> Leq(v[local.name].version, u))
              ==> Leq(Merged(local, views), u)
  {
    if views == [] {
      LeqReflexive(local.version);
    } else {
      var init, last := views[..|views| - 1], views[|views| - 1];
      assert views == init + [last];
      MergedIsLeastUpperBound(local, init);
      if Matches(last, local) {
        var m, p := Merged(local, init), last[local.name].version;
        MergeIsLeastUpperBound(m, p);
        LeqTransitive(local.version, m, Merge(m, p));
        forall v: View | v in init && Matches(v, local) ensures Leq(v[local.name].version, Merge(m, p)) {
          LeqTransitive(v[local.name].version, m, Merge(m, p));
        }
      }
    }
  }

  /** The view has the entry's bytes, as far as block hashes can tell. */
  ghost predicate HasBytes(view: View, f: FileInfo)
  {
    && f.name in view && view[f.name].kind == f.kind && view[f.name].size == f.size && view[f.name].blocks == f.blocks
    && (f.size == 0 || f.blocks != [])
  }

  /** A join happens exactly when no peer says that the path is gone or unsettled and some peer
      has the bytes at a version the local entry has not seen. It changes nothing but the
      vector, to the least one above the local one and those of all peers with the bytes. */
  lemma JoinExactly(local: FileInfo, views: seq<View>)
    ensures var out := Joined(local, views);
            && (out.Some? <==>
                  && (forall v: View :: v in views && local.name in v ==> !v[local.name].deleted && !v[local.name].invalid)
                  && exists v: View :: v in views && HasBytes(v, local) && !Leq(v[local.name].version, local.version))
            && (out.Some? ==>
                  && out.value == local.(version := out.value.version, sequence := 0)
                  && Compare(out.value.version, local.version) == Greater
                  && (forall v: View :: v in views && HasBytes(v, local) ==> Leq(v[local.name].version, out.value.version))
                  && forall u: Vector ::
                       (Leq(local.version, u) && forall v: View :: v in views && HasBytes(v, local) ==> Leq(v[local.name].version, u)) ==>
                         Leq(out.value.version, u))
  {
    MergedIsLeastUpperBound(local, views);
    var m := Merged(local, views);
    forall v: View ensures Matches(v, local) <==> HasBytes(v, local) {}
    if v: View :| v in views && HasBytes(v, local) && !Leq(v[local.name].version, local.version) {
      if Leq(m, local.version) { LeqTransitive(v[local.name].version, m, local.version); }
    } else {
      LeqReflexive(local.version);
    }
  }

  function ViewOf(f: FileInfo): View
  {
    map[f.name := f]
  }

  /** What a device holds after joining its entry with the entry it knows of its peer. */
  ghost function AfterJoin(local: FileInfo, peer: FileInfo): FileInfo
  {
    match Joined(local, [ViewOf(peer)])
    case Some(f) => f
    case None => local
  }

  ghost predicate Twins(a: FileInfo, b: FileInfo)
  {
    && a.name == b.name && IdenticalContent(a, b)
    && !a.deleted && !a.invalid && !b.deleted && !b.invalid
  }

  lemma AfterJoinVersion(a: FileInfo, b: FileInfo)
    requires Twins(a, b)
    ensures Compare(AfterJoin(a, b).version, Merge(a.version, b.version)) == Equal
    ensures Twins(AfterJoin(a, b), b)
    ensures AfterJoin(a, b) == a || AfterJoin(a, b) == a.(version := Merge(a.version, b.version), sequence := 0)
  {
    var views := [ViewOf(b)];
    assert views[..0] == [] && Matches(views[0], a) && views[0] in views;
    assert Merged(a, views) == Merge(a.version, b.version);
    LeqReflexive(Merge(a.version, b.version));
    assert forall v :: v in views ==> v == ViewOf(b);
  }

  /** Two devices with byte-identical copies and any vectors: whichever of the peer's
      entries each of them sees (before or after the peer's join), they end on equal
      vectors, and a further join on either side changes nothing. */
  lemma JoinConverges(a: FileInfo, b: FileInfo)
    requires Twins(a, b)
    ensures var a', b' := AfterJoin(a, b), AfterJoin(b, a);
            && Compare(a'.version, b'.version) == Equal
            && AfterJoin(a', b') == a' && AfterJoin(b', a') == b'
            && AfterJoin(a', b) == a' && AfterJoin(b', a) == b'
    ensures var a' := AfterJoin(a, b);
            var b' := AfterJoin(b, a');
            Compare(a'.version, b'.version) == Equal && AfterJoin(a', b') == a' && AfterJoin(b', a') == b'
  {
    var m, n := Merge(a.version, b.version), Merge(b.version, a.version);
    MergeIsStable(a.version, b.version);
    var a', b' := AfterJoin(a, b), AfterJoin(b, a);
    AfterJoinVersion(a, b);
    AfterJoinVersion(b, a);
    SameOrder(a', m, b', n);
    JoinIsIdle(a', b');
    JoinIsIdle(b', a');
    JoinedIsAbove(a, b);
    JoinedIsAbove(b, a);
    JoinIsIdle(a', b);
    JoinIsIdle(b', a);
    var b'' := AfterJoin(b, a');
    AfterJoinVersion(b, a');
    var q := Merge(b.version, a'.version);
    MergeOfEqual(b.version, a'.version, m);
    MergeIsStable(b.version, a.version);
    EqualIsCongruent(q, Merge(b.version, m), n);
    EqualIsCongruent(Merge(b.version, m), n, n);
    LeqReflexive(n);
    SameOrder(b'', q, b'', q);
    EqualIsCongruent(q, n, m);
    EqualIsCongruent(b''.version, q, m);
    EqualIsCongruent(a'.version, m, b''.version);
    JoinIsIdle(a', b'');
    JoinIsIdle(b'', a');
  }

  lemma SameOrder(a: FileInfo, m: Vector, b: FileInfo, n: Vector)
    requires Compare(a.version, m) == Equal && Compare(b.version, n) == Equal && Compare(m, n) == Equal
    ensures Compare(a.version, b.version) == Equal && Compare(b.version, a.version) == Equal
  {
    EqualIsCongruent(a.version, m, b.version);
    EqualIsCongruent(b.version, n, m);
  }

  lemma MergeOfEqual(v: Vector, a: Vector, b: Vector)
    requires Compare(a, b) == Equal
    ensures Compare(Merge(v, a), Merge(v, b)) == Equal
  {
    forall d: U64 ensures Get(Merge(v, a), d) == Get(Merge(v, b), d) {
      assert Get(a, d) <= Get(b, d) <= Get(a, d);
    }
  }

  lemma JoinedIsAbove(a: FileInfo, b: FileInfo)
    requires Twins(a, b)
    ensures Leq(b.version, AfterJoin(a, b).version)
  {
    AfterJoinVersion(a, b);
    MergeIsLeastUpperBound(a.version, b.version);
    LeqTransitive(b.version, Merge(a.version, b.version), AfterJoin(a, b).version);
  }

  /** Joining with a peer that is not ahead writes nothing. */
  lemma JoinIsIdle(a: FileInfo, b: FileInfo)
    requires Twins(a, b) && Leq(b.version, a.version)
    ensures AfterJoin(a, b) == a
  {
    var views := [ViewOf(b)];
    assert views[..0] == [] && Matches(views[0], a);
    LeqReflexive(a.version);
    MergeIsLeastUpperBound(a.version, b.version);
    assert Merged(a, views) == Merge(a.version, b.version);
    assert Compare(Merged(a, views), a.version) == Equal;
  }

  /** After both have joined, the partner against the old or the joined entry, a one-sided edit
      strictly dominates the other device's entry, wins there, and is planned without a
      conflict copy under every policy. */
  lemma EditAfterJoinIsFastForward(a: FileInfo, b: FileInfo, edit: FileInfo, device: U64,
                                   policy: Policy, versioning: bool, node: U64, ts: string)
    requires Twins(a, b)
    requires var a' := AfterJoin(a, b);
             edit.version == Bump(a'.version, device) && Get(a'.version, device) < MAX_U64 && edit.name == a.name
    ensures forall b' :: b' in {AfterJoin(b, a), AfterJoin(b, AfterJoin(a, b))} ==>
            && Compare(edit.version, b'.version) == Greater
            && Global(Some(b'), [ViewOf(edit)], b.name) == Some(edit)
            && PlanOverwrite(Some(b'), [ViewOf(edit)], b.name, policy, versioning, node, ts).Some?
            && !PlanOverwrite(Some(b'), [ViewOf(edit)], b.name, policy, versioning, node, ts).value.makeConflictCopy
  {
    var a' := AfterJoin(a, b);
    JoinConverges(a, b);
    forall b' | b' in {AfterJoin(b, a), AfterJoin(b, a')}
      ensures && Compare(edit.version, b'.version) == Greater
              && Global(Some(b'), [ViewOf(edit)], b.name) == Some(edit)
              && PlanOverwrite(Some(b'), [ViewOf(edit)], b.name, policy, versioning, node, ts).Some?
              && !PlanOverwrite(Some(b'), [ViewOf(edit)], b.name, policy, versioning, node, ts).value.makeConflictCopy
    {
      EditWins(a', b', edit, device, b.name, policy, versioning, node, ts);
    }
  }

  lemma EditWins(a: FileInfo, b: FileInfo, edit: FileInfo, device: U64, name: string,
                 policy: Policy, versioning: bool, node: U64, ts: string)
    requires Compare(a.version, b.version) == Equal && edit.name == name
    requires edit.version == Bump(a.version, device) && Get(a.version, device) < MAX_U64
    ensures && Compare(edit.version, b.version) == Greater
            && Global(Some(b), [ViewOf(edit)], name) == Some(edit)
            && PlanOverwrite(Some(b), [ViewOf(edit)], name, policy, versioning, node, ts).Some?
            && !PlanOverwrite(Some(b), [ViewOf(edit)], name, policy, versioning, node, ts).value.makeConflictCopy
  {
    BumpIsAbove(a.version, device);
    EqualIsCongruent(a.version, b.version, edit.version);
    OneView(b, ViewOf(edit), name);
  }
}

/** The global model: which of a name's entries wins (engine.go globalFrom). */
module GlobalModel {
  import opened Versions
  import opened Entries
  import Names

  type View = map<string, FileInfo>

  /** Whether a peer's entry p replaces the best entry found so far. */
  ghost predicate Replaces(p: FileInfo, best: FileInfo)
  {
    match Compare(p.version, best.version)
    case Equal => if p.deleted != best.deleted then p.deleted else p.size > best.size
    case Greater => true
    case Less => false
    case Concurrent => NewerOrGreater(p, best)
  }

  ghost function Pick(best: FileInfo, p: FileInfo): FileInfo
  {
    if Replaces(p, best) then p else best
  }

  /** The winner of name: the local entry first, then the views in visit order. */
  ghost function Global(local: Option<FileInfo>, views: seq<View>, name: string): Option<FileInfo>
  {
    if views == [] then local
    else
      var view := views[|views| - 1];
      var best := Global(local, views[..|views| - 1], name);
      if name !in view then best
      else if best.None? then Some(view[name])
      else Some(Pick(best.value, view[name]))
  }

  method RenderVersion(v: Vector) returns (s: string)
    ensures s == CanonicalVersion(v)
  {
    s := "";
    var keys := SortKeys(v.Keys);
    var i := |keys|;
    while i > 0
      invariant 0 <= i <= |keys|
      invariant s == Render(keys[i..], v)
    {
      i := i - 1;
      s := Hex(keys[i]) + ":" + (Hex(v[keys[i]]) + "|" + s);
      assert keys[i..][1..] == keys[i + 1..];
    }
    assert keys[0..] == keys;
  }

  method SortKeys(s: set<U64>) returns (r: seq<U64>)
    ensures r == SortedKeys(s)
    decreases |s|
  {
    if s == {} {
      return [];
    }
    var m :| m in s;
    var rest := s - {m};
    while rest != {}
      invariant rest <= s && m in s
      invariant forall k :: k in s && k !in rest ==> m <= k
      decreases |rest|
    {
      var k :| k in rest;
      if k < m { m := k; }
      rest := rest - {k};
    }
    var tail := SortKeys(s - {m});
    assert IsLeastKey(m, s);
    assert forall n :: IsLeastKey(n, s) ==> n == m;
    r := [m] + tail;
  }

  method IsNewerOrGreater(a: FileInfo, b: FileInfo) returns (r: bool)
    ensures r == NewerOrGreater(a, b)
  {
    if Stamp(a) != Stamp(b) {
      return Stamp(a) > Stamp(b);
    }
    var ca := RenderVersion(a.version);
    var cb := RenderVersion(b.version);
    r := Names.Less(cb, ca);
  }

  /** No view's entry replaces the local one. */
  ghost predicate Stands(local: Option<FileInfo>, views: seq<View>, name: string)
  {
    local.Some? && forall v: View :: v in views && name in v ==> !Replaces(v[name], local.value)
  }

  /** globalFrom: one pass over the peer views keeping the best entry, and whether it is still
      the local one. */
  method GlobalFrom(local: Option<FileInfo>, views: seq<View>, name: string) returns (best: Option<FileInfo>, ours: bool)
    ensures best == Global(local, views, name)
    ensures ours <==> Stands(local, views, name)
    ensures ours ==> best == local
  {
    best, ours := local, local.Some?;
    for i := 0 to |views|
      invariant best == Global(local, views[..i], name)
      invariant ours <==> Stands(local, views[..i], name)
      invariant ours ==> best == local
    {
      assert views[..i + 1] == views[..i] + [views[i]];
      assert views[..i + 1][..i] == views[..i];
      if name in views[i] {
        if best.None? {
          best, ours := Some(views[i][name]), false;
        } else {
          var better := Beats(views[i][name], best.value);
          if better {
            best, ours := Some(views[i][name]), false;
          }
        }
      }
    }
    assert views[..|views|] == views;
  }

  /** The switch of globalFrom. */
  method Beats(p: FileInfo, best: FileInfo) returns (better: bool)
    ensures better == Replaces(p, best)
  {
    var c := CompareKeys(p.version, best.version);
    match c {
      case Equal =>
        if p.deleted != best.deleted {
          better := p.deleted;
        } else {
          better := p.size != best.size && p.size > best.size;
        }
      case Greater => better := true;
      case Concurrent => better := IsNewerOrGreater(p, best);
      case Less => better := false;
    }
  }

  // ---- two devices ----

  lemma OneView(local: FileInfo, view: View, name: string)
    ensures Global(Some(local), [view], name) ==
            Some(if name in view then Pick(local, view[name]) else local)
  {
    assert [view][..0] == [];
    assert Global(Some(local), [], name) == Some(local);
  }

  /** Each device starts from its own entry and looks at the other's. They agree on the
      winner exactly when the entries are not two different entries that claim the same
      version, liveness and size. */
  lemma TwoDevicesAgree(a: FileInfo, b: FileInfo)
    ensures Pick(a, b) == Pick(b, a) <==>
            !(a != b && Compare(a.version, b.version) == Equal && a.deleted == b.deleted && a.size == b.size)
  {
    if Compare(a.version, b.version) == Concurrent {
      LeqReflexive(a.version);
      ExactlyOneWins(a, b);
    }
  }

  /** The rule between two entries, from its outcome: the later version wins; of equal versions a
      deletion wins, and otherwise the larger size; of concurrent ones the later time. */
  lemma WinnerOfTwo(a: FileInfo, b: FileInfo)
    ensures var w := Global(Some(a), [map[a.name := b]], a.name);
            && w.Some? && (w.value == a || w.value == b)
            && (Compare(a.version, b.version) == Less ==> w.value == b) && (Compare(a.version, b.version) == Greater ==> w.value == a)
            && (Compare(a.version, b.version) == Equal ==>
                  && (w.value.deleted <==> a.deleted || b.deleted)
                  && (a.deleted == b.deleted ==> a.size <= w.value.size && b.size <= w.value.size))
            && (Compare(a.version, b.version) == Concurrent && Timely(a) && Timely(b) ==>
                  (a.modS > b.modS || (a.modS == b.modS && a.modNs > b.modNs) ==> w.value == a)
                  && (b.modS > a.modS || (a.modS == b.modS && b.modNs > a.modNs) ==> w.value == b))
  {
    OneView(a, map[a.name := b], a.name);
    if Timely(a) && Timely(b) {
      LaterTimeWins(a, b);
      LaterTimeWins(b, a);
    }
  }

  // ---- any number of views ----

  /** An entry that has seen every other entry of the name wins, in every visit order and whatever
      the dates say. */
  lemma {:induction false} DominantWins(local: Option<FileInfo>, views: seq<View>, name: string, f: FileInfo)
    requires f in Candidates(local, views, name)
    requires forall g :: g in Candidates(local, views, name) && g != f ==> Compare(f.version, g.version) == Greater
    ensures Global(local, views, name) == Some(f)
  {
    if views != [] {
      var init, last := views[..|views| - 1], views[|views| - 1];
      var rest := Candidates(local, init, name);
      WinnerIsCandidate(local, init, name);
      if f in rest {
        DominantWins(local, init, name, f);
      }
      LeqReflexive(f.version);
    }
  }

  lemma {:induction false} WinnerIsCandidate(local: Option<FileInfo>, views: seq<View>, name: string)
    ensures var w := Global(local, views, name);
            if w.None? then Candidates(local, views, name) == [] else w.value in Candidates(local, views, name)
  {
    if views != [] {
      WinnerIsCandidate(local, views[..|views| - 1], name);
    }
  }

  lemma {:induction false} StandingWins(local: FileInfo, views: seq<View>, name: string)
    requires Stands(Some(local), views, name)
    ensures Global(Some(local), views, name) == Some(local)
  {
    if views != [] {
      assert forall v :: v in views[..|views| - 1] ==> v in views;
      assert views[|views| - 1] in views;
      StandingWins(local, views[..|views| - 1], name);
    }
  }

  /** Every view that has name has it at version v or an older one. */
  ghost predicate Outdated(views: seq<View>, name: string, v: Vector)
  {
    forall w: View :: w in views && name in w ==> Leq(w[name].version, v)
  }

  /** Against any number of devices that still hold v or something older, f stays the winner, and
      each of them takes f over. */
  ghost predicate Prevails(f: FileInfo, name: string, v: Vector)
  {
    && (forall views: seq<View> :: Outdated(views, name, v) ==> Global(Some(f), views, name) == Some(f))
    && (forall o: FileInfo :: Leq(o.version, v) ==> Global(Some(o), [map[name := f]], name) == Some(f))
  }

  /** An entry with a later version prevails, whatever else it says. */
  lemma LaterPrevails(f: FileInfo, name: string, v: Vector)
    requires Compare(f.version, v) == Greater
    ensures Prevails(f, name, v)
  {
    forall o: FileInfo | Leq(o.version, v) ensures Compare(o.version, f.version) == Less && Compare(f.version, o.version) == Greater {
      LeqTransitive(o.version, v, f.version);
      if Leq(f.version, o.version) { LeqTransitive(f.version, o.version, v); }
    }
    forall views: seq<View> | Outdated(views, name, v) ensures Global(Some(f), views, name) == Some(f) {
      assert Stands(Some(f), views, name);
      StandingWins(f, views, name);
    }
    forall o: FileInfo | Leq(o.version, v) ensures Global(Some(o), [map[name := f]], name) == Some(f) {
      OneView(o, map[name := f], name);
    }
  }

  /** The entries a winner is chosen from, in visit order. */
  ghost function Candidates(local: Option<FileInfo>, views: seq<View>, name: string): seq<FileInfo>
  {
    if views == [] then (if local.Some? then [local.value] else [])
    else
      var rest := Candidates(local, views[..|views| - 1], name);
      var view := views[|views| - 1];
      if name in view then rest + [view[name]] else rest
  }

  /** A later version carries a later modification time, and one version means one entry. */
  ghost predicate Coherent(s: set<FileInfo>)
  {
    forall a, b :: a in s && b in s ==>
      && (Compare(a.version, b.version) == Greater ==> Stamp(a) > Stamp(b))
      && (Compare(a.version, b.version) == Equal ==> a == b)
  }

  /** Newest first, canonical version text on a tie: a strict total order on coherent entries. */
  ghost predicate Above(a: FileInfo, b: FileInfo)
  {
    Stamp(a) > Stamp(b) || (Stamp(a) == Stamp(b) && TotalGreater(a, b))
  }

  lemma ReplacesIsAbove(s: set<FileInfo>, a: FileInfo, b: FileInfo)
    requires Coherent(s) && a in s && b in s && a != b
    ensures Replaces(a, b) <==> Above(a, b)
    ensures Above(a, b) != Above(b, a)
  {
    assert a.version != b.version by {
      if a.version == b.version { LeqReflexive(a.version); }
    }
    ExactlyOneWins(a, b);
  }

  lemma AboveTransitive(a: FileInfo, b: FileInfo, c: FileInfo)
    requires Above(a, b) && Above(b, c)
    ensures Above(a, c)
  {
    if Stamp(a) == Stamp(b) == Stamp(c) {
      Names.LessTransitive(CanonicalVersion(c.version), CanonicalVersion(b.version), CanonicalVersion(a.version));
    }
  }

  /** w is one of the candidates and beats every other one. */
  ghost predicate IsTop(w: FileInfo, s: set<FileInfo>)
  {
    w in s && forall c :: c in s && c != w ==> Above(w, c)
  }

  ghost function Elements(cs: seq<FileInfo>): set<FileInfo>
  {
    set c | c in cs
  }

  lemma {:induction false} WinnerIsTop(local: Option<FileInfo>, views: seq<View>, name: string)
    requires Coherent(Elements(Candidates(local, views, name)))
    ensures var cs := Candidates(local, views, name);
            if cs == [] then Global(local, views, name) == None
            else Global(local, views, name).Some? && IsTop(Global(local, views, name).value, Elements(cs))
  {
    if views != [] {
      var init, view := views[..|views| - 1], views[|views| - 1];
      var cs, all := Candidates(local, init, name), Candidates(local, views, name);
      assert Elements(cs) <= Elements(all);
      WinnerIsTop(local, init, name);
      if name in view && cs != [] {
        var w, p := Global(local, init, name).value, view[name];
        assert Elements(all) == Elements(cs) + {p};
        if w != p {
          ReplacesIsAbove(Elements(all), p, w);
          if Above(p, w) {
            forall c | c in Elements(all) && c != p ensures Above(p, c) {
              if c != w { AboveTransitive(p, w, c); }
            }
          }
        }
        assert IsTop(Pick(w, p), Elements(all));
      }
    }
  }

  /** With coherent entries the winner does not depend on the order in which views are visited. */
  lemma WinnerIgnoresVisitOrder(local: Option<FileInfo>, views: seq<View>, other: seq<View>, name: string)
    requires multiset(views) == multiset(other)
    requires Coherent(Elements(Candidates(local, views, name)))
    ensures Global(local, views, name) == Global(local, other, name)
  {
    var cs, ds := Candidates(local, views, name), Candidates(local, other, name);
    CandidateElements(local, views, name);
    CandidateElements(local, other, name);
    assert forall v :: v in views <==> v in multiset(views);
    assert forall v :: v in other <==> v in multiset(other);
    assert Elements(cs) == Elements(ds);
    assert cs == [] <==> Elements(cs) == {} by { if cs != [] { assert cs[0] in Elements(cs); } }
    assert ds == [] <==> Elements(ds) == {} by { if ds != [] { assert ds[0] in Elements(ds); } }
    WinnerIsTop(local, views, name);
    WinnerIsTop(local, other, name);
    if cs != [] {
      var w, x := Global(local, views, name).value, Global(local, other, name).value;
      if w != x { ReplacesIsAbove(Elements(cs), w, x); }
    }
  }

  lemma {:induction false} CandidateElements(local: Option<FileInfo>, views: seq<View>, name: string)
    ensures forall c :: c in Candidates(local, views, name) <==>
              local == Some(c) || exists v :: v in views && name in v && v[name] == c
  {
    if views != [] {
      var init, view := views[..|views| - 1], views[|views| - 1];
      assert views == init + [view];
      CandidateElements(local, init, name);
    }
  }

  function Sample(stamp: int, version: Vector): FileInfo
  {
    FileInfo("f", 1, stamp, 0, 0, File, false, false, version, 0, 1, [])
  }

  /** Without a later modification time on later versions, three candidates can make the
      winner depend on the visit order: c dominates a, a is newer than b, b is newer than c. */
  lemma VisitOrderCanMatter()
    ensures exists local: FileInfo, v: View, w: View ::
              Global(Some(local), [v, w], "f") != Global(Some(local), [w, v], "f")
  {
    var a, b, c := Sample(3, map[1 := 1]), Sample(2, map[2 := 1]), Sample(1, map[1 := 2]);
    assert Get(a.version, 1) == 1 && Get(a.version, 2) == 0;
    assert Get(b.version, 1) == 0 && Get(b.version, 2) == 1;
    assert Get(c.version, 1) == 2 && Get(c.version, 2) == 0;
    assert Leq(a.version, c.version);
    assert Stamp(a) == 3_000_000_000 && Stamp(b) == 2_000_000_000 && Stamp(c) == 1_000_000_000;
    assert Compare(a.version, b.version) == Concurrent && Compare(c.version, b.version) == Concurrent;
    assert Compare(c.version, a.version) == Greater;
    assert Replaces(a, b) && !Replaces(c, b) && Replaces(c, a);
    var v, w: View := map["f" := a], map["f" := c];
    OneView(b, v, "f");
    OneView(b, w, "f");
    assert [v, w][..1] == [v] && [w, v][..1] == [w];
    assert Global(Some(b), [v, w], "f") == Some(c);
    assert Global(Some(b), [w, v], "f") == Some(a);
  }
}

/** Grouping needed blocks into wire requests (internal/node/pull_batch.go planPulls). */
module PullPlan {
  import opened Entries
  import opened Hashing
  import opened PullFile

  /** One wire request: consecutive blocks as one byte range. */
  datatype Run = Run(needs: seq<BlockNeed>, offset: int, size: int)

  function TotalSize(needs: seq<BlockNeed>): int
  {
    if needs == [] then 0 else TotalSize(needs[..|needs| - 1]) + needs[|needs| - 1].size
  }

  function Flatten(runs: seq<Run>): seq<BlockNeed>
  {
    if runs == [] then [] else Flatten(runs[..|runs| - 1]) + runs[|runs| - 1].needs
  }

  ghost predicate Consecutive(needs: seq<BlockNeed>)
  {
    |needs| <= 1 ||
    (Consecutive(needs[..|needs| - 1]) && needs[|needs| - 1].index == needs[|needs| - 2].index + 1)
  }

  lemma {:induction false} ConsecutiveAt(needs: seq<BlockNeed>, i: nat)
    requires Consecutive(needs) && i < |needs|
    ensures needs[i].index == needs[0].index + i
    decreases |needs|
  {
    if |needs| > 1 {
      var init := needs[..|needs| - 1];
      ConsecutiveAt(init, if i < |init| then i else |init| - 1);
    }
  }

  /** Consecutive blocks, described by the first offset and the summed size. */
  ghost predicate WellFormed(run: Run)
  {
    && run.needs != [] && Consecutive(run.needs)
    && run.offset == run.needs[0].offset && run.size == TotalSize(run.needs)
  }

  /** The caps on one request: the configured run size and the peer's request limit. */
  predicate WithinCaps(size: int, maxRun: int)
  {
    size <= MAX_BLOCK && (maxRun > 0 ==> size <= maxRun)
  }

  ghost predicate Fitting(run: Run, maxRun: int)
  {
    WellFormed(run) && (|run.needs| == 1 || WithinCaps(run.size, maxRun))
  }

  /** A cut between two runs is forced: the blocks are not consecutive or the caps are reached. */
  ghost predicate ForcedCut(a: Run, b: Run, maxRun: int)
    requires a.needs != [] && b.needs != []
  {
    || b.needs[0].index != a.needs[|a.needs| - 1].index + 1
    || !WithinCaps(a.size + b.needs[0].size, maxRun)
  }

  /** Every run fits and every cut between neighbours is forced. */
  ghost predicate GoodRuns(runs: seq<Run>, maxRun: int)
  {
    runs == [] ||
    var init, last := runs[..|runs| - 1], runs[|runs| - 1];
    && GoodRuns(init, maxRun) && Fitting(last, maxRun)
    && (init != [] ==> init[|init| - 1].needs != [] && ForcedCut(init[|init| - 1], last, maxRun))
  }

  lemma {:induction false} GoodRunAt(runs: seq<Run>, maxRun: int, r: nat)
    requires GoodRuns(runs, maxRun) && r < |runs|
    ensures Fitting(runs[r], maxRun)
    ensures r + 1 < |runs| ==> runs[r + 1].needs != [] && ForcedCut(runs[r], runs[r + 1], maxRun)
  {
    if r < |runs| - 1 {
      var init := runs[..|runs| - 1];
      GoodRunAt(init, maxRun, r);
      assert init[r] == runs[r];
      if r == |runs| - 2 {
        assert init[|init| - 1] == runs[r];
      } else {
        assert init[r + 1] == runs[r + 1];
      }
    }
  }

  ghost predicate IsPlan(runs: seq<Run>, needs: seq<BlockNeed>, maxRun: int)
  {
    Flatten(runs) == needs && GoodRuns(runs, maxRun)
  }

  /** Closed runs and the run being grown, over the needs handled so far. */
  ghost predicate Planning(runs: seq<Run>, cur: Run, done: seq<BlockNeed>, maxRun: int)
  {
    && GoodRuns(runs, maxRun) && Fitting(cur, maxRun) && Flatten(runs) + cur.needs == done
    && (runs != [] ==> runs[|runs| - 1].needs != [] && ForcedCut(runs[|runs| - 1], cur, maxRun))
  }

  lemma RunStarts(need: BlockNeed, maxRun: int)
    ensures Planning([], Run([need], need.offset, need.size), [need], maxRun)
  {
  }

  lemma RunGrows(runs: seq<Run>, cur: Run, done: seq<BlockNeed>, need: BlockNeed, maxRun: int)
    requires Planning(runs, cur, done, maxRun) && need.index == cur.needs[|cur.needs| - 1].index + 1
    requires WithinCaps(cur.size + need.size, maxRun)
    ensures Planning(runs, Run(cur.needs + [need], cur.offset, cur.size + need.size), done + [need], maxRun)
  {
    assert (cur.needs + [need])[..|cur.needs|] == cur.needs;
    assert Flatten(runs) + (cur.needs + [need]) == Flatten(runs) + cur.needs + [need];
  }

  lemma RunCloses(runs: seq<Run>, cur: Run, done: seq<BlockNeed>, maxRun: int)
    requires Planning(runs, cur, done, maxRun)
    ensures IsPlan(runs + [cur], done, maxRun)
  {
    assert (runs + [cur])[..|runs|] == runs;
  }

  lemma NextRunStarts(runs: seq<Run>, cur: Run, done: seq<BlockNeed>, need: BlockNeed, maxRun: int)
    requires Planning(runs, cur, done, maxRun)
    requires need.index != cur.needs[|cur.needs| - 1].index + 1 || !WithinCaps(cur.size + need.size, maxRun)
    ensures Planning(runs + [cur], Run([need], need.offset, need.size), done + [need], maxRun)
  {
    RunCloses(runs, cur, done, maxRun);
  }

  /** planPulls: the needed blocks in order, cut only where necessary into consecutive byte
      ranges within the caps. */
  method PlanPulls(needs: seq<BlockNeed>, maxRun: int) returns (runs: seq<Run>)
    ensures IsPlan(runs, needs, maxRun)
  {
    runs := [];
    if |needs| == 0 {
      return;
    }
    var cap := if maxRun <= 0 then MAX_BLOCK else maxRun;
    var cur := Run([needs[0]], needs[0].offset, needs[0].size);
    RunStarts(needs[0], maxRun);
    assert needs[..1] == [needs[0]];
    for i := 1 to |needs|
      invariant Planning(runs, cur, needs[..i], maxRun)
    {
      var need, last := needs[i], cur.needs[|cur.needs| - 1];
      assert needs[..i + 1] == needs[..i] + [need];
      if need.index == last.index + 1 && cur.size + need.size <= cap && cur.size + need.size <= MAX_BLOCK {
        RunGrows(runs, cur, needs[..i], need, maxRun);
        cur := Run(cur.needs + [need], cur.offset, cur.size + need.size);
      } else {
        NextRunStarts(runs, cur, needs[..i], need, maxRun);
        runs := runs + [cur];
        cur := Run([need], need.offset, need.size);
      }
    }
    assert needs[..|needs|] == needs;
    RunCloses(runs, cur, needs, maxRun);
    runs := runs + [cur];
  }

  /** Every need lies in some run and every run holds only needs. */
  lemma {:induction false} FlattenMembers(runs: seq<Run>, n: BlockNeed)
    ensures n in Flatten(runs) <==> exists r :: 0 <= r < |runs| && n in runs[r].needs
  {
    if runs != [] {
      var init, last := runs[..|runs| - 1], runs[|runs| - 1];
      FlattenMembers(init, n);
      if n in last.needs {
        assert runs[|runs| - 1] == last;
      }
      if exists r :: 0 <= r < |init| && n in init[r].needs {
        var r :| 0 <= r < |init| && n in init[r].needs;
        assert runs[r] == init[r];
      }
      if exists r :: 0 <= r < |runs| && n in runs[r].needs {
        var r :| 0 <= r < |runs| && n in runs[r].needs;
        assert r == |runs| - 1 || init[r] == runs[r];
      }
    }
  }

  /** Each run asks for one byte range, of more than one block only within the request limit and
      the configured run size; and it ends where it does because the next needed block does not
      follow it, or would not fit. */
  lemma PlanIsTight(runs: seq<Run>, needs: seq<BlockNeed>, maxRun: int, r: nat)
    requires IsPlan(runs, needs, maxRun) && r < |runs|
    ensures runs[r].needs != [] && runs[r].offset == runs[r].needs[0].offset && runs[r].size == TotalSize(runs[r].needs)
    ensures |runs[r].needs| > 1 ==> runs[r].size <= MAX_BLOCK && (maxRun > 0 ==> runs[r].size <= maxRun)
    ensures r + 1 < |runs| ==>
              && runs[r + 1].needs != []
              && (|| runs[r + 1].needs[0].index != runs[r].needs[|runs[r].needs| - 1].index + 1
                  || runs[r].size + runs[r + 1].needs[0].size > MAX_BLOCK
                  || (maxRun > 0 && runs[r].size + runs[r + 1].needs[0].size > maxRun))
  {
    GoodRunAt(runs, maxRun, r);
  }

  // ---- runs over a described file ----

  /** A request for blocks first.. of this entry. */
  ghost predicate IsRunOf(info: FileInfo, run: Run)
  {
    && run.needs != [] && run.needs[0].index >= 0
    && run.needs[0].index + |run.needs| <= |info.blocks|
    && (forall i :: 0 <= i < |run.needs| ==> run.needs[i] == NeedOf(info, run.needs[0].index + i))
    && run.size == TotalSize(run.needs)
  }

  lemma {:induction false} RunSpan(info: FileInfo, content: seq<Byte>, needs: seq<BlockNeed>, first: nat)
    requires Describes(info, content) && first + |needs| <= |info.blocks|
    requires forall i :: 0 <= i < |needs| ==> needs[i] == NeedOf(info, first + i)
    ensures TotalSize(needs) == Start(info, first + |needs|) - Start(info, first)
    decreases |needs|
  {
    if needs != [] {
      var k := |needs| - 1;
      RunSpan(info, content, needs[..k], first);
      BlockGeometry(info, content, first + k);
    }
  }

  /** An accepted answer of the requested length marks exactly the run's blocks, and is the
      content's bytes of that range. */
  lemma AcceptedRunMarksItsBlocks(p: PullState, content: seq<Byte>, run: Run, data: seq<Byte>)
    requires Sound(p, content) && IsRunOf(p.info, run) && |data| == run.size
    requires ReceiveRun(p, run.needs[0].index, data).Some?
    ensures var first := run.needs[0].index;
            var q := ReceiveRun(p, first, data).value;
            && Sound(q, content) && q.info == p.info
            && q.written == Mark(p.written, first, first + |run.needs|)
            && 0 <= run.needs[0].offset <= run.needs[0].offset + run.size <= |content|
            && data == content[run.needs[0].offset..run.needs[0].offset + run.size]
  {
    var first := run.needs[0].index;
    var last := ScanRun(p.info, first, data, 0).value;
    var end := first + |run.needs|;
    ReceiveRunIsSound(p, content, first, data);
    RunMeaning(p, content, first, data, last);
    RunSpan(p.info, content, run.needs, first);
    BlockGeometry(p.info, content, first);
    StartBounds(p.info, content, first, end);
    StartBounds(p.info, content, if last <= end then last else end, if last <= end then end else last);
  }

  lemma PlannedRunIsOfEntry(info: FileInfo, written: seq<bool>, runs: seq<Run>, maxRun: int, r: nat)
    requires |written| == |info.blocks| && IsPlan(runs, NeedsFrom(info, written, 0), maxRun) && r < |runs|
    ensures IsRunOf(info, runs[r])
  {
    NeedsAreUnwritten(info, written, 0);
    GoodRunAt(runs, maxRun, r);
    var needs := runs[r].needs;
    forall i | 0 <= i < |needs|
      ensures needs[i].index == needs[0].index + i && IsNeed(info, written, 0, needs[i])
    {
      FlattenMembers(runs, needs[i]);
      ConsecutiveAt(needs, i);
    }
    assert IsNeed(info, written, 0, needs[0]) && IsNeed(info, written, 0, needs[|needs| - 1]);
  }

  lemma UnwrittenIsPlanned(info: FileInfo, written: seq<bool>, runs: seq<Run>, maxRun: int, b: nat)
    requires |written| == |info.blocks| && IsPlan(runs, NeedsFrom(info, written, 0), maxRun)
    requires b < |written| && !written[b]
    ensures exists r :: 0 <= r < |runs| && InRun(runs[r], b)
  {
    UnwrittenIsNeeded(info, written, 0, b);
    FlattenMembers(runs, NeedOf(info, b));
    var r :| 0 <= r < |runs| && NeedOf(info, b) in runs[r].needs;
    GoodRunAt(runs, maxRun, r);
    var i :| 0 <= i < |runs[r].needs| && runs[r].needs[i] == NeedOf(info, b);
    ConsecutiveAt(runs[r].needs, i);
    assert InRun(runs[r], b);
  }

  /** The plan of a pull's needs consists of runs of its entry that cover every unwritten block. */
  lemma PlanCoversNeeds(info: FileInfo, written: seq<bool>, runs: seq<Run>, maxRun: int)
    requires |written| == |info.blocks| && IsPlan(runs, NeedsFrom(info, written, 0), maxRun)
    ensures forall r :: 0 <= r < |runs| ==> IsRunOf(info, runs[r])
    ensures forall b :: 0 <= b < |written| && !written[b] ==> exists r :: 0 <= r < |runs| && InRun(runs[r], b)
  {
    forall r | 0 <= r < |runs| ensures IsRunOf(info, runs[r]) {
      PlannedRunIsOfEntry(info, written, runs, maxRun, r);
    }
    forall b | 0 <= b < |written| && !written[b] ensures exists r :: 0 <= r < |runs| && InRun(runs[r], b) {
      UnwrittenIsPlanned(info, written, runs, maxRun, b);
    }
  }

  ghost predicate InRun(run: Run, b: int)
  {
    run.needs != [] && run.needs[0].index <= b < run.needs[0].index + |run.needs|
  }
}

/** What the sessions of a run amount to, read off the steps of the run alone: which rows the next
    session sends, and which tombstones maintenance drops (internal/node/session.go
    recordPeerIndex, exchangeIndexes; internal/node/node.go tombstoneFloor). */
module Sessions {
  import opened Entries
  import opened GlobalModel
  import opened IndexFrames
  import opened Exchange

  /** One peer's part of a run: the session id of the last greeting, the highest sequence number
      given out before the last capture, and both for the last completed session, unless the
      peer was forgotten since. */
  datatype Trace = Trace(greeted: Session, captured: int, completed: Option<Marker>)

  ghost function NextTrace(t: Sys, step: Step, p: Peer, trace: Trace): Trace
    requires Enabled(t, step)
  {
    if step == Greet(p) then trace.(greeted := t.links[p].session)
    else if step == Capture(p) then trace.(captured := t.nextSeq - 1)
    else if step == Record(p) then trace.(completed := Some(Marker(trace.captured, trace.greeted)))
    else if step == Forget(p) then trace.(completed := None)
    else trace
  }

  ghost function TraceOf(s: Sys, steps: seq<Step>, p: Peer): Trace
    requires Runnable(s, steps)
    decreases |steps|
  {
    if steps == [] then Trace(0, 0, None)
    else
      var before, last := steps[..|steps| - 1], steps[|steps| - 1];
      RunSplits(s, steps);
      NextTrace(After(s, before), last, p, TraceOf(s, before, p))
  }

  /** A run is a shorter run and one more step. */
  lemma {:induction false} RunSplits(s: Sys, steps: seq<Step>)
    requires Runnable(s, steps) && steps != []
    ensures var before, last := steps[..|steps| - 1], steps[|steps| - 1];
            Runnable(s, before) && Enabled(After(s, before), last) && After(s, steps) == Apply(After(s, before), last)
    decreases |steps|
  {
    var before, last := steps[..|steps| - 1], steps[|steps| - 1];
    if |steps| == 1 {
      assert steps[1..] == [] && before == [];
    } else {
      RunSplits(Apply(s, steps[0]), steps[1..]);
      assert steps[1..][..|steps| - 2] == before[1..] && steps[1..][|steps| - 2] == last;
    }
  }

  lemma RunExtends(s: Sys, steps: seq<Step>, step: Step)
    requires Runnable(s, steps + [step])
    ensures Runnable(s, steps) && Enabled(After(s, steps), step) && After(s, steps + [step]) == Apply(After(s, steps), step)
  {
    RunSplits(s, steps + [step]);
    assert (steps + [step])[..|steps|] == steps;
  }

  /** The link is where its part of the run left it. */
  ghost predicate Traced(l: Link, trace: Trace)
  {
    && l.marker == trace.completed && (!l.conn.Closed? ==> l.conn.session == trace.greeted)
    && (l.conn.Captured? || l.conn.Sending? ==> l.conn.maxSeq == trace.captured)
  }

  lemma StepIsTraced(t: Sys, step: Step, p: Peer, trace: Trace)
    requires p in t.links && Enabled(t, step) && Traced(t.links[p], trace)
    ensures var u := Apply(t, step); p in u.links && Traced(u.links[p], NextTrace(t, step, p, trace))
  {
  }

  lemma {:induction false} RunIsTraced(s: Sys, steps: seq<Step>, p: Peer)
    requires Initial(s) && Runnable(s, steps) && p in s.links
    ensures p in After(s, steps).links && Traced(After(s, steps).links[p], TraceOf(s, steps, p))
    decreases |steps|
  {
    if steps != [] {
      RunSplits(s, steps);
      var before := steps[..|steps| - 1];
      RunIsTraced(s, before, p);
      StepIsTraced(After(s, before), steps[|steps| - 1], p, TraceOf(s, before, p));
    }
  }

  lemma {:induction false} LinksAreFixed(s: Sys, steps: seq<Step>)
    requires Runnable(s, steps)
    ensures After(s, steps).links.Keys == s.links.Keys
    decreases |steps|
  {
    if steps != [] {
      LinksAreFixed(Apply(s, steps[0]), steps[1..]);
    }
  }

  // ---- what a session sends ----

  /** The last completed session was with the process that is greeted now. */
  predicate Resumes(trace: Trace)
  {
    trace.completed.Some? && trace.completed.value.session == trace.greeted && trace.greeted != 0
  }

  /** In every run, a session sends exactly the rows written since the capture of the last completed
      session with the same process of the peer, and the whole index if there was none. */
  lemma SessionSends(s: Sys, steps: seq<Step>, p: Peer, listing: seq<FileInfo>, chunk: nat, f: FileInfo)
    requires Initial(s) && Runnable(s, steps + [List(p, listing, chunk)])
    ensures Runnable(s, steps)
    ensures var t, trace := After(s, steps + [List(p, listing, chunk)]), TraceOf(s, steps, p);
            && p in t.links && t.links[p].conn.Sending? && (t.links[p].conn.update <==> Resumes(trace))
            && (f in Payload(t.links[p].conn.queue) <==>
                  && f.name in t.rows && t.rows[f.name] == f
                  && (Resumes(trace) ==> f.sequence > trace.completed.value.maxSeq))
  {
    RunExtends(s, steps, List(p, listing, chunk));
    LinksAreFixed(s, steps);
    RunIsTraced(s, steps, p);
    var l := After(s, steps).links[p];
    FramesAreTheListing(listing, IsDelta(l, l.conn.session), chunk);
  }

  /** Greeting, capturing and listing right after a session completed. */
  function Again(p: Peer, listing: seq<FileInfo>, chunk: nat): seq<Step>
  {
    [Record(p), Greet(p), Capture(p), List(p, listing, chunk)]
  }

  /** In every run: when a session completes, nothing was written since its capture, and the same
      process of the peer comes back at once, the next session has nothing to send. */
  lemma NothingNewNothingSent(s: Sys, steps: seq<Step>, p: Peer, listing: seq<FileInfo>, chunk: nat)
    requires Initial(s) && Runnable(s, steps) && Runnable(s, steps + Again(p, listing, chunk)) && p in s.links
    requires var t := After(s, steps);
             && p in t.links && t.links[p].session == TraceOf(s, steps, p).greeted != 0
             && t.nextSeq == TraceOf(s, steps, p).captured + 1
    ensures var t := After(s, steps + Again(p, listing, chunk));
            p in t.links && t.links[p].conn.Sending? && Payload(t.links[p].conn.queue) == []
  {
    var one := steps + [Record(p)];
    var two := one + [Greet(p)];
    var three := two + [Capture(p)];
    assert steps + Again(p, listing, chunk) == three + [List(p, listing, chunk)];
    RunExtends(s, three, List(p, listing, chunk));
    BackAgain(s, steps, one, two, three, p);
    RunKeepsInv(s, three);
    NothingToSend(s, three, p, listing, chunk);
  }

  lemma NothingToSend(s: Sys, steps: seq<Step>, p: Peer, listing: seq<FileInfo>, chunk: nat)
    requires Initial(s) && Runnable(s, steps) && Runnable(s, steps + [List(p, listing, chunk)]) && Resumes(TraceOf(s, steps, p))
    requires var rows := After(s, steps).rows; forall n :: n in rows ==> rows[n].sequence <= TraceOf(s, steps, p).completed.value.maxSeq
    ensures var t := After(s, steps + [List(p, listing, chunk)]);
            p in t.links && t.links[p].conn.Sending? && Payload(t.links[p].conn.queue) == []
  {
    RunExtends(s, steps, List(p, listing, chunk));
    var t := After(s, steps + [List(p, listing, chunk)]);
    if Payload(t.links[p].conn.queue) != [] {
      var f := Payload(t.links[p].conn.queue)[0];
      assert f in Payload(t.links[p].conn.queue);
      SessionSends(s, steps, p, listing, chunk, f);
    }
  }

  lemma BackAgain(s: Sys, steps: seq<Step>, one: seq<Step>, two: seq<Step>, three: seq<Step>, p: Peer)
    requires one == steps + [Record(p)] && two == one + [Greet(p)] && three == two + [Capture(p)]
    requires Runnable(s, steps) && Runnable(s, three)
    ensures var t, u := After(s, steps), After(s, three);
            && u.rows == t.rows && u.nextSeq == t.nextSeq && p in t.links
            && TraceOf(s, three, p).greeted == t.links[p].session
            && TraceOf(s, three, p).completed == Some(Marker(TraceOf(s, steps, p).captured, TraceOf(s, steps, p).greeted))
  {
    TraceGrows(s, two, Capture(p), p);
    TraceGrows(s, one, Greet(p), p);
    TraceGrows(s, steps, Record(p), p);
    RunExtends(s, two, Capture(p));
    RunExtends(s, one, Greet(p));
    RunExtends(s, steps, Record(p));
  }

  lemma TraceGrows(s: Sys, steps: seq<Step>, step: Step, p: Peer)
    requires Runnable(s, steps + [step])
    ensures Runnable(s, steps) && Enabled(After(s, steps), step)
    ensures TraceOf(s, steps + [step], p) == NextTrace(After(s, steps), step, p, TraceOf(s, steps, p))
  {
    RunExtends(s, steps, step);
    assert (steps + [step])[..|steps|] == steps;
  }

  /** In every run: a row written before a session starts is sent in it, to every peer. */
  lemma WrittenIsSent(s: Sys, steps: seq<Step>, w: FileInfo, p: Peer, listing: seq<FileInfo>, chunk: nat)
    requires Initial(s) && Runnable(s, steps) && Runnable(s, steps + [Write(w), Greet(p), Capture(p), List(p, listing, chunk)])
    ensures var t := After(s, steps + [Write(w), Greet(p), Capture(p), List(p, listing, chunk)]);
            && p in t.links && t.links[p].conn.Sending?
            && exists f :: f in Payload(t.links[p].conn.queue) && f == w.(sequence := f.sequence)
                           && forall n :: n in t.rows && n != w.name ==> t.rows[n].sequence < f.sequence
  {
    var one := steps + [Write(w)];
    var two := one + [Greet(p)];
    var three := two + [Capture(p)];
    assert steps + [Write(w), Greet(p), Capture(p), List(p, listing, chunk)] == three + [List(p, listing, chunk)];
    RunExtends(s, three, List(p, listing, chunk));
    WrittenIsNewest(s, steps, one, two, three, w, p);
    SessionSends(s, three, p, listing, chunk, w.(sequence := After(s, steps).nextSeq));
  }

  lemma WrittenIsNewest(s: Sys, steps: seq<Step>, one: seq<Step>, two: seq<Step>, three: seq<Step>, w: FileInfo, p: Peer)
    requires one == steps + [Write(w)] && two == one + [Greet(p)] && three == two + [Capture(p)]
    requires Initial(s) && Runnable(s, steps) && Runnable(s, three)
    ensures var t, f, trace := After(s, three), w.(sequence := After(s, steps).nextSeq), TraceOf(s, three, p);
            && w.name in t.rows && t.rows[w.name] == f && (trace.completed.Some? ==> trace.completed.value.maxSeq < f.sequence)
            && forall n :: n in t.rows && n != w.name ==> t.rows[n].sequence < f.sequence
  {
    TraceGrows(s, two, Capture(p), p);
    TraceGrows(s, one, Greet(p), p);
    TraceGrows(s, steps, Write(w), p);
    RunExtends(s, two, Capture(p));
    RunExtends(s, one, Greet(p));
    RunExtends(s, steps, Write(w));
    RunKeepsInv(s, steps);
    LinksAreFixed(s, steps);
    RunIsTraced(s, steps, p);
  }

  /** A stat-only update gives a row its new stat and nothing else, so no delta carries it; a hard
      delete takes exactly its row. Neither uses up a sequence number. */
  lemma QuietChanges(s: Sys, step: Step)
    requires Enabled(s, step) && (step.Touch? || step.Remove?)
    ensures var t := Apply(s, step);
            && t.nextSeq == s.nextSeq && t.links == s.links
            && (step.Remove? ==> forall n :: (n in t.rows <==> n in s.rows && n != step.name) && (n in t.rows ==> t.rows[n] == s.rows[n]))
            && (step.Touch? ==>
                  && (forall n :: (n in t.rows <==> n in s.rows) && (n in t.rows && n != step.name ==> t.rows[n] == s.rows[n]))
                  && Core(t.rows[step.name]) == Core(s.rows[step.name]) && t.rows[step.name].sequence == s.rows[step.name].sequence
                  && t.rows[step.name].size == step.size && t.rows[step.name].modS == step.modS
                  && t.rows[step.name].modNs == step.modNs && t.rows[step.name].mode == step.mode)
  {
  }

  // ---- peers that restart ----

  lemma {:induction false} StaysUnmarked(t: Sys, more: seq<Step>, p: Peer)
    requires Runnable(t, more) && p in t.links && !LiveMarker(t.links[p])
    requires forall legacy :: Restart(p, legacy) !in more
    requires t.links[p].session == 0 || Record(p) !in more
    ensures var u := After(t, more); p in u.links && !LiveMarker(u.links[p]) && u.links[p].session == t.links[p].session
    decreases |more|
  {
    if more != [] {
      var u := Apply(t, more[0]);
      assert more[0] in more && forall step :: step in more[1..] ==> step in more;
      assert more[0] != Restart(p, true) && more[0] != Restart(p, false);
      StaysUnmarked(u, more[1..], p);
    }
  }

  lemma RestartForgets(t: Sys, p: Peer, legacy: bool)
    requires Inv(t) && p in t.links
    ensures var u := Apply(t, Restart(p, legacy)); p in u.links && !LiveMarker(u.links[p]) && (legacy ==> u.links[p].session == 0)
  {
  }

  lemma {:induction false} RunsInTwo(s: Sys, a: seq<Step>, b: seq<Step>)
    requires Runnable(s, a + b)
    ensures Runnable(s, a) && Runnable(After(s, a), b) && After(s, a + b) == After(After(s, a), b)
    decreases |a|
  {
    if a == [] {
      assert a + b == b;
    } else {
      assert (a + b)[1..] == a[1..] + b;
      RunsInTwo(Apply(s, a[0]), a[1..], b);
    }
  }

  /** In every run: a peer whose process restarted is sent the whole index in its next session, and
      one that runs an old build in every later one, until it restarts again. */
  lemma RestartedGetsAll(s: Sys, steps: seq<Step>, legacy: bool, more: seq<Step>, p: Peer, listing: seq<FileInfo>, chunk: nat, f: FileInfo)
    requires Initial(s) && Runnable(s, steps + [Restart(p, legacy)] + more + [List(p, listing, chunk)])
    requires forall again :: Restart(p, again) !in more
    requires legacy || Record(p) !in more
    ensures var t := After(s, steps + [Restart(p, legacy)] + more + [List(p, listing, chunk)]);
            && p in t.links && t.links[p].conn.Sending? && !t.links[p].conn.update
            && (f in Payload(t.links[p].conn.queue) <==> f.name in t.rows && t.rows[f.name] == f)
  {
    var head := steps + [Restart(p, legacy)];
    RunExtends(s, head + more, List(p, listing, chunk));
    RunsInTwo(s, head, more);
    RunExtends(s, steps, Restart(p, legacy));
    RunKeepsInv(s, steps);
    RestartForgets(After(s, steps), p, legacy);
    StaysUnmarked(After(s, head), more, p);
    RunKeepsInv(s, head + more);
    LinksAreFixed(s, head + more);
    RunIsTraced(s, head + more, p);
    SessionSends(s, head + more, p, listing, chunk, f);
  }

  /** A connection that breaks takes its session with it: nothing more of it arrives, it is not
      recorded, and the peers can greet again. */
  lemma BrokenIsOver(s: Sys, p: Peer)
    requires p in s.links
    ensures var t := Apply(s, Abort(p));
            && !Enabled(t, Deliver(p)) && !Enabled(t, Record(p)) && Enabled(t, Greet(p))
            && p in t.links && t.links[p].marker == s.links[p].marker && t.links[p].store == s.links[p].store && t.rows == s.rows
  {
  }

  // ---- pushed updates ----

  /** The peer merges the next n messages. */
  function Deliveries(p: Peer, n: nat): seq<Step>
  {
    if n == 0 then [] else [Deliver(p)] + Deliveries(p, n - 1)
  }

  /** A queue that is delivered to its end has been merged in order. */
  lemma {:induction false} Drains(s: Sys, p: Peer, n: nat)
    requires p in s.links && s.links[p].conn.Sending? && s.links[p].conn.alive && |s.links[p].conn.queue| == n
    ensures Runnable(s, Deliveries(p, n))
    ensures var t := After(s, Deliveries(p, n));
            p in t.links && t.links[p].store == MergeAll(s.links[p].store, s.links[p].conn.queue) && t.rows == s.rows
    decreases n
  {
    if n > 0 {
      var t := Apply(s, Deliver(p));
      Drains(t, p, n - 1);
      OneStep(s, Deliver(p), t, Deliveries(p, n - 1));
    }
  }

  /** A row pushed to a connected peer is what the peer's view holds once everything on the wire
      has arrived. */
  lemma PushIsLearned(s: Sys, p: Peer, name: string)
    requires p in s.links && s.links[p].conn.Sending? && s.links[p].conn.alive && name in s.rows && s.rows[name].name == name
    ensures var t, n := Apply(s, SendPush(p, name)), |s.links[p].conn.queue| + 1;
            Runnable(t, Deliveries(p, n)) &&
            var u := After(t, Deliveries(p, n));
            && p in u.links && u.links[p].store.view.Some? && name in u.links[p].store.view.value
            && u.links[p].store.view.value[name] == Wire(s.rows[name])
  {
    var t, n := Apply(s, SendPush(p, name)), |s.links[p].conn.queue| + 1;
    Drains(t, p, n);
    MergeAllAppends(s.links[p].store, s.links[p].conn.queue, Push(s.rows[name]));
    AbsorbAt(ViewOr(MergeAll(s.links[p].store, s.links[p].conn.queue)), [s.rows[name]], name);
  }

  // ---- what maintenance drops ----

  /** Every configured peer that shares the folder and whose marker can be read completed a session
      that captured a positive sequence at or above seq_, and there is such a peer. */
  ghost predicate AllCaughtUp(s: Sys, steps: seq<Step>, configured: seq<Peer>, sharing: set<Peer>, unreadable: set<Peer>, seq_: int)
    requires Runnable(s, steps)
  {
    && (exists p :: p in configured && p in sharing && p !in unreadable)
    && (forall p :: p in configured && p in sharing && p !in unreadable ==>
          && p in s.links && TraceOf(s, steps, p).completed.Some?
          && TraceOf(s, steps, p).completed.value.maxSeq > 0 && TraceOf(s, steps, p).completed.value.maxSeq >= seq_)
  }

  /** In every run, pruning drops exactly the tombstones that every sharing peer whose marker can be
      read has been sent; all other rows stay as they are. */
  lemma PrunesExactly(s: Sys, steps: seq<Step>, configured: seq<Peer>, sharing: set<Peer>, unreadable: set<Peer>, name: string)
    requires Initial(s) && Runnable(s, steps) && name in After(s, steps).rows
    ensures var t := After(s, steps);
            var u := Apply(t, Prune(configured, sharing, unreadable));
            && (name !in u.rows <==> t.rows[name].deleted && AllCaughtUp(s, steps, configured, sharing, unreadable, t.rows[name].sequence))
            && (name in u.rows ==> u.rows[name] == t.rows[name])
  {
    var t := After(s, steps);
    LinksAreFixed(s, steps);
    forall p | p in s.links ensures Traced(t.links[p], TraceOf(s, steps, p)) { RunIsTraced(s, steps, p); }
    FloorMeaning(t, configured, sharing, unreadable, t.rows[name].sequence);
  }

  /** The floor admits seq_. */
  lemma FloorMeaning(t: Sys, configured: seq<Peer>, sharing: set<Peer>, unreadable: set<Peer>, seq_: int)
    ensures var floor := TombstoneFloor(Readings(t, configured, sharing, unreadable));
            floor > 0 && seq_ <= floor <==>
            && (exists p :: p in configured && p in sharing && p !in unreadable)
            && (forall p :: p in configured && p in sharing && p !in unreadable ==>
                  && p in t.links && t.links[p].marker.Some?
                  && t.links[p].marker.value.maxSeq > 0 && t.links[p].marker.value.maxSeq >= seq_)
  {
    var readings := Readings(t, configured, sharing, unreadable);
    ReadingsCoverSharing(t, configured, sharing, unreadable);
    FloorIsLeast(readings);
    forall r | r in readings ensures exists p :: p in configured && p in sharing && r == ReadMarker(t, unreadable, p) {
      ReadingIsSomeones(t, configured, sharing, unreadable, r);
    }
    var floor := TombstoneFloor(readings);
    if floor > 0 && seq_ <= floor {
      var p :| p in configured && p in sharing && Found(floor) == ReadMarker(t, unreadable, p);
      assert p !in unreadable;
    }
  }

  lemma {:induction false} ReadingIsSomeones(t: Sys, configured: seq<Peer>, sharing: set<Peer>, unreadable: set<Peer>, r: Reading)
    requires r in Readings(t, configured, sharing, unreadable)
    ensures exists p :: p in configured && p in sharing && r == ReadMarker(t, unreadable, p)
  {
    var init, last := configured[..|configured| - 1], configured[|configured| - 1];
    assert configured == init + [last];
    if last in sharing && r == ReadMarker(t, unreadable, last) {
    } else {
      ReadingIsSomeones(t, init, sharing, unreadable, r);
    }
  }
}

/** The delta index exchange as a protocol: one sender's index (within one Open of its
    database) and any number of peers, each with its own marker, connection and in-memory
    view of the sender. Writes may fall between any two steps of a session; a session may
    break at any frame; a peer may restart at any time and then knows nothing.
    (internal/node/session.go, internal/index/index.go, internal/node/node.go tombstoneFloor) */
module Exchange {
  import opened Entries
  import opened GlobalModel
  import opened IndexFrames

  type Peer = nat
  /** A process lifetime of a peer; 0 stands for the empty session id of an old build. */
  type Session = nat

  datatype Marker = Marker(maxSeq: int, session: Session)

  datatype Conn =
    | Closed
    | Greeted(session: Session)
    | Captured(session: Session, maxSeq: int)
      /** Everything is on the wire: `left` index frames still undelivered at the head of the
          queue, pushed updates behind them. `alive` until the receiving process is gone. */
    | Sending(session: Session, maxSeq: int, update: bool, listed: set<(string, int)>,
              queue: seq<Msg>, left: nat, alive: bool)

  /** One peer as the protocol sees it. `told` records the (name, sequence) pairs carried by
      sessions that completed. */
  datatype Link = Link(session: Session, epoch: nat, store: Store, conn: Conn,
                       marker: Option<Marker>, told: set<(string, int)>)

  datatype Sys = Sys(rows: View, nextSeq: int, links: map<Peer, Link>)

  /** How reading a peer's marker can turn out (GetPeerIndex). */
  datatype Reading = Found(maxSeq: int) | Absent | Unreadable

  datatype Step =
    | Write(file: FileInfo)                       // Put with sequence 0
    | Touch(name: string, size: int, modS: int, modNs: int, mode: int)  // Put keeping the sequence
    | Remove(name: string)                        // hard delete
    | Prune(configured: seq<Peer>, sharing: set<Peer>, unreadable: set<Peer>)
    | Greet(peer: Peer)                           // hello exchanged
    | Capture(peer: Peer)                         // MaxSeq read
    | List(peer: Peer, listing: seq<FileInfo>, chunk: nat)  // rows read and put on the wire
    | SendPush(peer: Peer, name: string)          // sendIndexUpdate
    | Deliver(peer: Peer)                         // the peer merges the next message
    | Record(peer: Peer)                          // recordPeerIndex after a complete session
    | Abort(peer: Peer)                           // the connection breaks
    | Restart(peer: Peer, legacy: bool)           // the peer's process restarts
    | Forget(peer: Peer)                          // RemovePeerIndex

  /** sessionValid. */
  predicate SessionValid(stored: Session, live: Session)
  {
    live != 0 && stored == live
  }

  predicate IsDelta(l: Link, session: Session)
  {
    l.marker.Some? && SessionValid(l.marker.value.session, session)
  }

  /** The rows a session sends: all of them, or those after the marker (ListAfter). */
  ghost predicate Selected(s: Sys, l: Link, session: Session, f: FileInfo)
  {
    f.name in s.rows && s.rows[f.name] == f && (IsDelta(l, session) ==> f.sequence > l.marker.value.maxSeq)
  }

  // ---- tombstone pruning ----

  function ReadMarker(s: Sys, unreadable: set<Peer>, p: Peer): Reading
  {
    if p in unreadable then Unreadable
    else if p in s.links && s.links[p].marker.Some? then Found(s.links[p].marker.value.maxSeq)
    else Absent
  }

  /** The least marker that could be read. */
  function Floor(readings: seq<Reading>): Option<int>
  {
    if readings == [] then None
    else
      var rest := Floor(readings[..|readings| - 1]);
      match readings[|readings| - 1]
      case Unreadable => rest
      case Absent => rest
      case Found(m) => if rest.None? || m < rest.value then Some(m) else rest
  }

  function Readings(s: Sys, configured: seq<Peer>, sharing: set<Peer>, unreadable: set<Peer>): seq<Reading>
  {
    if configured == [] then []
    else
      var rest := Readings(s, configured[..|configured| - 1], sharing, unreadable);
      var p := configured[|configured| - 1];
      if p in sharing then rest + [ReadMarker(s, unreadable, p)] else rest
  }

  /** Whether a sharing peer without a marker forces the floor to 0. */
  predicate HasAbsent(readings: seq<Reading>)
  {
    Absent in readings
  }

  /** The floor for pruning: the least marker over the sharing peers, 0 when one of them has
      none. Peers whose marker cannot be read are passed over. */
  function TombstoneFloor(readings: seq<Reading>): int
  {
    if HasAbsent(readings) then 0
    else match Floor(readings) case Some(m) => m case None => 0
  }

  /** tombstoneFloor: one loop with an early return. */
  method ComputeFloor(readings: seq<Reading>) returns (floor: int)
    ensures floor == TombstoneFloor(readings)
  {
    var seen := false;
    floor := 0;
    for i := 0 to |readings|
      invariant !HasAbsent(readings[..i])
      invariant Floor(readings[..i]) == if seen then Some(floor) else None
      invariant !seen ==> floor == 0
    {
      assert readings[..i + 1] == readings[..i] + [readings[i]];
      assert readings[..i + 1][..i] == readings[..i];
      match readings[i] {
        case Unreadable =>
        case Absent => return 0;
        case Found(m) =>
          if !seen || m < floor {
            floor, seen := m, true;
          }
      }
    }
    assert readings[..|readings|] == readings;
  }

  /** PruneTombstones deletes tombstones at or below a positive floor. */
  function Pruned(rows: View, floor: int): set<string>
  {
    if floor <= 0 then {} else set n | n in rows && rows[n].deleted && rows[n].sequence <= floor
  }

  // ---- steps ----

  ghost predicate Enabled(s: Sys, step: Step)
  {
    match step
    case Write(f) => true
    case Touch(n, _, _, _, _) => n in s.rows
    case Remove(_) => true
    case Prune(_, _, _) => true
    case Greet(p) => p in s.links && s.links[p].conn.Closed?
    case Capture(p) => p in s.links && s.links[p].conn.Greeted?
    case List(p, listing, chunk) =>
      && chunk > 0 && p in s.links && s.links[p].conn.Captured?
      && (forall f :: f in listing <==> Selected(s, s.links[p], s.links[p].conn.session, f))
    case SendPush(p, n) => p in s.links && s.links[p].conn.Sending? && s.links[p].conn.alive && n in s.rows
    case Deliver(p) =>
      p in s.links && s.links[p].conn.Sending? && s.links[p].conn.alive && s.links[p].conn.queue != []
    case Record(p) => p in s.links && s.links[p].conn.Sending? && s.links[p].conn.left == 0
    case Abort(p) => p in s.links
    case Restart(p, _) => p in s.links
    case Forget(p) => p in s.links
  }

  /** The effect of a step on one link (the sender's rows are only read). */
  ghost function StepLink(s: Sys, step: Step, l: Link): Link
  {
    match step
    case Greet(_) => l.(conn := Greeted(l.session), store := l.store.(streaming := false))
    case Capture(_) => if l.conn.Greeted? then l.(conn := Captured(l.conn.session, s.nextSeq - 1)) else l
    case List(_, listing, chunk) =>
      if l.conn.Captured? && chunk > 0 then
        var update := IsDelta(l, l.conn.session);
        var frames := Frames(listing, update, chunk);
        l.(conn := Sending(l.conn.session, l.conn.maxSeq, update, set f | f in listing :: (f.name, f.sequence),
                           frames, |frames|, true))
      else l
    case SendPush(_, n) =>
      if l.conn.Sending? && n in s.rows then l.(conn := l.conn.(queue := l.conn.queue + [Push(s.rows[n])])) else l
    case Deliver(_) =>
      if l.conn.Sending? && l.conn.queue != [] then
        var c := l.conn;
        l.(store := Merge(l.store, c.queue[0]),
           conn := c.(queue := c.queue[1..], left := if c.left > 0 then c.left - 1 else 0))
      else l
    case Record(_) =>
      if l.conn.Sending? then
        l.(marker := Some(Marker(l.conn.maxSeq, l.conn.session)), told := l.told + l.conn.listed, conn := Closed)
      else l
    case Abort(_) => l.(conn := Closed)
    case Restart(_, legacy) =>
      var conn := if l.conn.Sending? && l.conn.left == 0 then l.conn.(queue := [], alive := false) else Closed;
      l.(session := if legacy then 0 else l.epoch + 1, epoch := l.epoch + 1,
         store := Store(None, false, false), conn := conn)
    case Forget(_) => l.(marker := None)
    case _ => l
  }

  ghost function PeerOf(step: Step): Peer
    requires step.Greet? || step.Capture? || step.List? || step.SendPush? || step.Deliver? ||
             step.Record? || step.Abort? || step.Restart? || step.Forget?
  {
    step.peer
  }

  ghost function Apply(s: Sys, step: Step): Sys
    requires Enabled(s, step)
  {
    match step
    case Write(f) => s.(rows := s.rows[f.name := f.(sequence := s.nextSeq)], nextSeq := s.nextSeq + 1)
    case Touch(n, size, modS, modNs, mode) =>
      s.(rows := s.rows[n := s.rows[n].(size := size, modS := modS, modNs := modNs, mode := mode)])
    case Remove(n) => s.(rows := s.rows - {n})
    case Prune(configured, sharing, unreadable) =>
      s.(rows := s.rows - Pruned(s.rows, TombstoneFloor(Readings(s, configured, sharing, unreadable))))
    case _ =>
      var p := PeerOf(step);
      s.(links := s.links[p := StepLink(s, step, s.links[p])])
  }

  // ---- what the peer knows ----

  /** An entry up to the stat fields a verified scan may adopt without a new sequence. */
  function Core(f: FileInfo): FileInfo
  {
    f.(size := 0, modS := 0, modNs := 0, mode := 0, sequence := 0)
  }

  /** The view holds the row's version, liveness and blocks. */
  ghost predicate Known(store: Store, row: FileInfo)
  {
    store.view.Some? && row.name in store.view.value && Core(store.view.value[row.name]) == Core(row)
  }

  /** A name the receiver's complete knowledge up to seq covers. */
  ghost predicate KnownUpTo(rows: View, seq_: int, store: Store)
  {
    forall n :: n in rows && rows[n].sequence <= seq_ ==> Known(store, rows[n])
  }

  ghost predicate ToldUpTo(rows: View, seq_: int, told: set<(string, int)>)
  {
    forall n :: n in rows && rows[n].sequence <= seq_ ==> (n, rows[n].sequence) in told
  }

  ghost predicate LiveMarker(l: Link)
  {
    l.marker.Some? && SessionValid(l.marker.value.session, l.session)
  }

  /** Entries on the wire are current, or their row was rewritten after the capture. */
  ghost predicate Current(rows: View, maxSeq: int, files: seq<FileInfo>)
  {
    forall f :: f in files && f.name in rows ==>
      Core(f) == Core(rows[f.name]) || rows[f.name].sequence > maxSeq
  }

  /** `left` index frames of one send, the last of them final, then pushed updates only. */
  ghost predicate Shaped(queue: seq<Msg>, left: nat, update: bool)
  {
    && left <= |queue|
    && (forall i :: 0 <= i < left ==> queue[i].Frame? && queue[i].update == update && (queue[i].final <==> i == left - 1))
    && (forall i :: left <= i < |queue| ==> queue[i].Push?)
  }

  ghost predicate OnWire(msgs: seq<Msg>, name: string)
  {
    exists f :: f in Payload(msgs) && f.name == name
  }

  /** Every row up to the captured sequence is known already or still on the wire; before the
      first frame of a full send nothing counts as known. */
  ghost predicate Covered(rows: View, maxSeq: int, c: Conn, store: Store)
    requires c.Sending? && c.left <= |c.queue|
  {
    forall n :: n in rows && rows[n].sequence <= maxSeq ==>
      OnWire(c.queue[..c.left], n) || (Known(store, rows[n]) && (c.update || store.streaming || c.left == 0))
  }

  ghost predicate SendingInv(rows: View, l: Link)
    requires l.conn.Sending?
  {
    var c := l.conn;
    && Shaped(c.queue, c.left, c.update)
    && Current(rows, c.maxSeq, Payload(c.queue))
    && ToldUpTo(rows, c.maxSeq, l.told + c.listed)
    && (!c.alive ==> c.left == 0 && c.queue == [])
    && (c.alive ==>
          && c.session == l.session
          && Covered(rows, c.maxSeq, c, l.store)
          && (c.update ==> l.store.view.Some? && !l.store.partial)
          && (!c.update && c.left > 0 ==> !LiveMarker(l))
          && (c.left == 0 ==> l.store.view.Some? && !l.store.partial)
          && (l.store.streaming ==> c.left > 0 && (l.store.partial || c.update)))
    && (!c.alive && c.session != 0 ==> c.session != l.session)
  }

  ghost predicate LinkInv(rows: View, nextSeq: int, l: Link)
  {
    && l.session <= l.epoch
    && (l.marker.Some? ==>
          && l.marker.value.maxSeq < nextSeq && l.marker.value.session <= l.epoch
          && ToldUpTo(rows, l.marker.value.maxSeq, l.told))
    && (LiveMarker(l) ==>
          l.store.view.Some? && !l.store.partial && KnownUpTo(rows, l.marker.value.maxSeq, l.store))
    && (l.conn.Greeted? || l.conn.Captured? ==> l.conn.session == l.session && !l.store.streaming)
    && (l.conn.Sending? ==> l.conn.session <= l.epoch)
    && (l.conn.Captured? || l.conn.Sending? ==>
          l.conn.maxSeq < nextSeq && (l.marker.Some? ==> l.marker.value.maxSeq <= l.conn.maxSeq))
    && (l.conn.Sending? ==> SendingInv(rows, l))
  }

  ghost predicate RowsInv(s: Sys)
  {
    forall n :: n in s.rows ==> s.rows[n].name == n && s.rows[n].sequence < s.nextSeq
  }

  ghost predicate Inv(s: Sys)
  {
    RowsInv(s) && forall p :: p in s.links ==> LinkInv(s.rows, s.nextSeq, s.links[p])
  }

  // ---- preservation ----

  /** rows' differs from rows by removals, stat-only changes and writes with new sequences. */
  ghost predicate RowsEvolve(rows: View, nextSeq: int, rows': View)
  {
    forall n :: n in rows' ==>
      || rows'[n].sequence >= nextSeq
      || (n in rows && rows'[n].sequence == rows[n].sequence && Core(rows'[n]) == Core(rows[n])
          && rows'[n].name == rows[n].name)
  }

  lemma RowsChangeKeepsLink(rows: View, nextSeq: int, rows': View, nextSeq': int, l: Link)
    requires LinkInv(rows, nextSeq, l) && RowsEvolve(rows, nextSeq, rows') && nextSeq <= nextSeq'
    ensures LinkInv(rows', nextSeq', l)
  {
  }

  /** Delivering the head of the queue. */
  lemma DeliverKeepsLink(rows: View, nextSeq: int, l: Link, l': Link, s: Sys, p: Peer)
    requires s.rows == rows && LinkInv(rows, nextSeq, l)
    requires forall n :: n in rows ==> rows[n].name == n
    requires l.conn.Sending? && l.conn.alive && l.conn.queue != []
    requires l' == StepLink(s, Deliver(p), l)
    ensures LinkInv(rows, nextSeq, l')
  {
    var c, m := l.conn, l.conn.queue[0];
    var c' := l'.conn;
    assert c.queue == [m] + c.queue[1..];
    PayloadHead(c.queue);
    forall n | n in rows && rows[n].sequence <= c.maxSeq
      ensures OnWire(c'.queue[..c'.left], n) || (Known(l'.store, rows[n]) && (c'.update || l'.store.streaming || c'.left == 0))
    {
      DeliverOne(rows, l, n);
    }
    if LiveMarker(l) {
      assert c.update || c.left == 0;
      forall n | n in rows && rows[n].sequence <= l.marker.value.maxSeq ensures Known(l'.store, rows[n]) {
        MergeKeepsKnown(rows, c.maxSeq, l.store, m, rows[n]);
      }
    }
  }

  lemma PayloadHead(msgs: seq<Msg>)
    requires msgs != []
    ensures Payload(msgs) == Carried(msgs[0]) + Payload(msgs[1..])
  {
  }

  ghost function Carried(m: Msg): seq<FileInfo>
  {
    match m case Frame(files, _, _) => files case Push(f) => [f]
  }

  /** A merge that does not sweep keeps every known row known. */
  lemma MergeKeepsKnown(rows: View, maxSeq: int, store: Store, m: Msg, row: FileInfo)
    requires m.Push? || store.streaming || m.update
    requires Current(rows, maxSeq, Carried(m))
    requires row.name in rows && rows[row.name] == row && row.sequence <= maxSeq && Known(store, row)
    ensures Known(Merge(store, m), row)
  {
    AbsorbAt(ViewOr(store), Carried(m), row.name);
  }

  /** A carried row becomes known. */
  lemma MergeMakesKnown(rows: View, maxSeq: int, store: Store, m: Msg, row: FileInfo)
    requires Current(rows, maxSeq, Carried(m))
    requires row.name in rows && rows[row.name] == row && row.sequence <= maxSeq
    requires exists f :: f in Carried(m) && f.name == row.name
    ensures Known(Merge(store, m), row)
  {
    AbsorbAt(ViewOr(store), Carried(m), row.name);
    AbsorbAt(map[], Carried(m), row.name);
  }

  lemma DeliverOne(rows: View, l: Link, n: string)
    requires l.conn.Sending? && l.conn.alive && l.conn.queue != [] && SendingInv(rows, l)
    requires n in rows && rows[n].name == n && rows[n].sequence <= l.conn.maxSeq
    ensures var c := l.conn;
            var store := Merge(l.store, c.queue[0]);
            var left := if c.left > 0 then c.left - 1 else 0;
            OnWire(c.queue[1..][..left], n) || (Known(store, rows[n]) && (c.update || store.streaming || left == 0))
  {
    var c, m := l.conn, l.conn.queue[0];
    PayloadHead(c.queue);
    if c.left > 0 {
      assert c.queue[..c.left][0] == m && c.queue[..c.left][1..] == c.queue[1..][..c.left - 1];
      PayloadHead(c.queue[..c.left]);
      if OnWire(c.queue[..c.left], n) {
        var f :| f in Payload(c.queue[..c.left]) && f.name == n;
        if f in Carried(m) {
          MergeMakesKnown(rows, c.maxSeq, l.store, m, rows[n]);
        }
      } else {
        MergeKeepsKnown(rows, c.maxSeq, l.store, m, rows[n]);
      }
    } else {
      assert c.queue[..0] == [];
      MergeKeepsKnown(rows, c.maxSeq, l.store, m, rows[n]);
    }
  }

  lemma ListKeepsLink(s: Sys, l: Link, listing: seq<FileInfo>, chunk: nat, p: Peer)
    requires RowsInv(s) && LinkInv(s.rows, s.nextSeq, l) && l.conn.Captured? && chunk > 0
    requires forall f :: f in listing <==> Selected(s, l, l.conn.session, f)
    ensures LinkInv(s.rows, s.nextSeq, StepLink(s, List(p, listing, chunk), l))
  {
    var update := IsDelta(l, l.conn.session);
    var frames := Frames(listing, update, chunk);
    FramesAreTheListing(listing, update, chunk);
    var l' := StepLink(s, List(p, listing, chunk), l);
    assert l'.conn.queue[..l'.conn.left] == frames;
    forall n | n in s.rows && s.rows[n].sequence <= l.conn.maxSeq
      ensures (n, s.rows[n].sequence) in l.told + l'.conn.listed
      ensures OnWire(frames, n) || (update && Known(l.store, s.rows[n]))
    {
      if Selected(s, l, l.conn.session, s.rows[n]) {
        assert s.rows[n] in Payload(frames);
      }
    }
  }

  lemma PushKeepsLink(s: Sys, l: Link, n: string, p: Peer)
    requires RowsInv(s) && LinkInv(s.rows, s.nextSeq, l) && l.conn.Sending? && n in s.rows
    requires l.conn.alive
    ensures LinkInv(s.rows, s.nextSeq, StepLink(s, SendPush(p, n), l))
  {
    var c := l.conn;
    var queue := c.queue + [Push(s.rows[n])];
    PayloadAppends(c.queue, Push(s.rows[n]));
    assert queue[..c.left] == c.queue[..c.left];
  }

  lemma {:induction false} PayloadAppends(msgs: seq<Msg>, m: Msg)
    ensures Payload(msgs + [m]) == Payload(msgs) + Carried(m)
  {
    if msgs == [] {
      assert msgs + [m] == [m] && [m][1..] == [] && Payload([]) == [];
    } else {
      assert (msgs + [m])[1..] == msgs[1..] + [m];
      PayloadAppends(msgs[1..], m);
    }
  }

  lemma RestartKeepsLink(s: Sys, l: Link, legacy: bool, p: Peer)
    requires LinkInv(s.rows, s.nextSeq, l)
    ensures LinkInv(s.rows, s.nextSeq, StepLink(s, Restart(p, legacy), l))
  {
  }

  lemma RecordKeepsLink(s: Sys, l: Link, p: Peer)
    requires RowsInv(s) && LinkInv(s.rows, s.nextSeq, l) && l.conn.Sending? && l.conn.left == 0
    ensures LinkInv(s.rows, s.nextSeq, StepLink(s, Record(p), l))
  {
    var c := l.conn;
    if c.alive {
      assert c.queue[..0] == [] && Payload(c.queue[..0]) == [];
      assert KnownUpTo(s.rows, c.maxSeq, l.store);
    }
  }

  lemma LinkStepKeepsInv(s: Sys, step: Step)
    requires Inv(s) && Enabled(s, step)
    requires !step.Write? && !step.Touch? && !step.Remove? && !step.Prune?
    ensures Inv(Apply(s, step))
  {
    var l := s.links[PeerOf(step)];
    match step {
      case List(p, listing, chunk) => ListKeepsLink(s, l, listing, chunk, p);
      case SendPush(p, n) => PushKeepsLink(s, l, n, p);
      case Deliver(p) => DeliverKeepsLink(s.rows, s.nextSeq, l, StepLink(s, step, l), s, p);
      case Record(p) => RecordKeepsLink(s, l, p);
      case Restart(p, legacy) => RestartKeepsLink(s, l, legacy, p);
      case _ =>
    }
  }

  lemma StepKeepsInv(s: Sys, step: Step)
    requires Inv(s) && Enabled(s, step)
    ensures Inv(Apply(s, step))
  {
    if step.Write? || step.Touch? || step.Remove? || step.Prune? {
      var t := Apply(s, step);
      forall p | p in t.links ensures LinkInv(t.rows, t.nextSeq, t.links[p]) {
        RowsChangeKeepsLink(s.rows, s.nextSeq, t.rows, t.nextSeq, s.links[p]);
      }
    } else {
      LinkStepKeepsInv(s, step);
    }
  }

  // ---- whole runs ----

  /** An opened index, no session yet, no marker, no peer knowing anything. */
  ghost predicate Initial(s: Sys)
  {
    RowsInv(s) && forall p :: p in s.links ==>
      var l := s.links[p];
      l.session <= l.epoch && l.store == Store(None, false, false) && l.conn.Closed? && l.marker.None? && l.told == {}
  }

  ghost predicate Runnable(s: Sys, steps: seq<Step>)
    decreases |steps|
  {
    steps == [] || (Enabled(s, steps[0]) && Runnable(Apply(s, steps[0]), steps[1..]))
  }

  ghost function After(s: Sys, steps: seq<Step>): Sys
    requires Runnable(s, steps)
    decreases |steps|
  {
    if steps == [] then s else After(Apply(s, steps[0]), steps[1..])
  }

  lemma {:induction false} RunKeepsInv(s: Sys, steps: seq<Step>)
    requires Inv(s) && Runnable(s, steps)
    ensures Inv(After(s, steps))
    decreases |steps|
  {
    if steps != [] {
      StepKeepsInv(s, steps[0]);
      RunKeepsInv(Apply(s, steps[0]), steps[1..]);
    }
  }

  /** In every run: a marker recorded under the peer's live session means that the peer's
      view is complete up to the marker, row by row. */
  lemma LiveMarkerMeansKnown(s: Sys, steps: seq<Step>, p: Peer)
    requires Initial(s) && Runnable(s, steps) && p in After(s, steps).links
    ensures var t := After(s, steps);
            LiveMarker(t.links[p]) ==>
              !t.links[p].store.partial && KnownUpTo(t.rows, t.links[p].marker.value.maxSeq, t.links[p].store)
  {
    RunKeepsInv(s, steps);
  }

  /** In every run: once the last frame of a session is in, delta or full, the view is not
      partial and covers every row up to the sequence captured at the start of the session. */
  lemma DeltaLeavesFullKnowledge(s: Sys, steps: seq<Step>, p: Peer)
    requires Initial(s) && Runnable(s, steps) && p in After(s, steps).links
    requires var c := After(s, steps).links[p].conn; c.Sending? && c.alive && c.left == 0
    ensures var t := After(s, steps);
            !t.links[p].store.partial && KnownUpTo(t.rows, t.links[p].conn.maxSeq, t.links[p].store)
  {
    RunKeepsInv(s, steps);
    var c := After(s, steps).links[p].conn;
    assert c.queue[..0] == [] && Payload(c.queue[..0]) == [];
  }

  /** In every run: no delta frame is ever merged into a missing or truncated view, and a
      full send that is mid-stream has its view marked partial. */
  lemma NoDeltaIntoPartialView(s: Sys, steps: seq<Step>, p: Peer)
    requires Initial(s) && Runnable(s, steps) && Enabled(After(s, steps), Deliver(p))
    ensures var l := After(s, steps).links[p];
            && (l.conn.queue[0].Frame? && l.conn.queue[0].update ==> l.store.view.Some? && !l.store.partial)
            && (l.conn.queue[0].Frame? && !l.conn.queue[0].update && l.store.streaming ==> l.store.partial)
  {
    RunKeepsInv(s, steps);
  }

  // ---- pruning ----

  lemma {:induction false} FloorIsLeast(readings: seq<Reading>)
    ensures Floor(readings).None? <==> forall r :: r in readings ==> !r.Found?
    ensures Floor(readings).Some? ==> forall r :: r in readings && r.Found? ==> Floor(readings).value <= r.maxSeq
    ensures Floor(readings).Some? ==> Found(Floor(readings).value) in readings
  {
    if readings != [] {
      var init, last := readings[..|readings| - 1], readings[|readings| - 1];
      assert readings == init + [last];
      FloorIsLeast(init);
    }
  }

  lemma {:induction false} ReadingsCoverSharing(s: Sys, configured: seq<Peer>, sharing: set<Peer>, unreadable: set<Peer>)
    ensures forall p :: p in configured && p in sharing ==>
              ReadMarker(s, unreadable, p) in Readings(s, configured, sharing, unreadable)
  {
    if configured != [] {
      var init, last := configured[..|configured| - 1], configured[|configured| - 1];
      assert configured == init + [last];
      ReadingsCoverSharing(s, init, sharing, unreadable);
    }
  }

  /** In every run: a tombstone that maintenance prunes was carried in a completed session
      to every configured peer sharing the folder whose marker could be read. */
  lemma PrunedWasCarried(s: Sys, steps: seq<Step>, configured: seq<Peer>, sharing: set<Peer>,
                         unreadable: set<Peer>, name: string, p: Peer)
    requires Initial(s) && Runnable(s, steps)
    requires name in After(s, steps).rows && p in configured && p in sharing && p !in unreadable
    requires name !in Apply(After(s, steps), Prune(configured, sharing, unreadable)).rows
    ensures var t := After(s, steps);
            t.rows[name].deleted && p in t.links && (name, t.rows[name].sequence) in t.links[p].told
  {
    var t := After(s, steps);
    RunKeepsInv(s, steps);
    var readings := Readings(t, configured, sharing, unreadable);
    ReadingsCoverSharing(t, configured, sharing, unreadable);
    FloorIsLeast(readings);
    assert ReadMarker(t, unreadable, p) in readings;
    assert ToldUpTo(t.rows, t.links[p].marker.value.maxSeq, t.links[p].told);
  }

  /** Nothing is pruned while a sharing peer's marker is known to be missing. */
  lemma NothingPrunedWithoutMarker(s: Sys, configured: seq<Peer>, sharing: set<Peer>, unreadable: set<Peer>, p: Peer)
    requires p in configured && p in sharing && p !in unreadable
    requires p in s.links ==> s.links[p].marker.None?
    ensures Apply(s, Prune(configured, sharing, unreadable)) == s
  {
    ReadingsCoverSharing(s, configured, sharing, unreadable);
    assert s.rows - {} == s.rows;
  }

  function NewLink(): Link
  {
    Link(1, 1, Store(None, false, false), Closed, None, {})
  }

  /** Peer 1 acknowledged everything, peer 2's marker cannot be read. */
  lemma FloorPassesOver(s: Sys)
    requires s.links.Keys == {1, 2} && s.links[1].marker.Some? && s.links[1].marker.value.maxSeq == 1
    ensures TombstoneFloor(Readings(s, [1, 2], {1, 2}, {2})) == 1
  {
    assert [1, 2][..1] == [1] && [1][..0] == [];
    assert Readings(s, [], {1, 2}, {2}) == [];
    assert Readings(s, [1], {1, 2}, {2}) == [Found(1)];
    assert Readings(s, [1, 2], {1, 2}, {2}) == [Found(1), Unreadable];
    assert [Found(1), Unreadable][..1] == [Found(1)] && [Found(1)][..0] == [];
    assert Floor([Found(1)]) == Some(1);
  }

  lemma OneStep(s: Sys, step: Step, t: Sys, rest: seq<Step>)
    requires Enabled(s, step) && Apply(s, step) == t && Runnable(t, rest)
    ensures Runnable(s, [step] + rest) && After(s, [step] + rest) == After(t, rest)
  {
    assert ([step] + rest)[1..] == rest;
  }

  /** The five stages of peer 1's link in its first full session. */
  function Stage(row: FileInfo, i: nat): Link
  {
    var frame := Frame([row], false, true);
    var l := NewLink();
    if i == 0 then l
    else if i == 1 then l.(conn := Greeted(1))
    else if i == 2 then l.(conn := Captured(1, 1))
    else if i == 3 then l.(conn := Sending(1, 1, false, {(row.name, row.sequence)}, [frame], 1, true))
    else if i == 4 then
      l.(store := Merge(l.store, frame), conn := Sending(1, 1, false, {(row.name, row.sequence)}, [], 0, true))
    else
      l.(store := Merge(l.store, frame), marker := Some(Marker(1, 1)), told := {(row.name, row.sequence)})
  }

  function Staged(row: FileInfo, i: nat): Sys
  {
    Sys(map[row.name := row], 2, map[1 := Stage(row, i), 2 := NewLink()])
  }

  function StepAt(row: FileInfo, i: nat): Step
  {
    if i == 0 then Greet(1) else if i == 1 then Capture(1) else if i == 2 then List(1, [row], 1)
    else if i == 3 then Deliver(1) else Record(1)
  }

  function StepsFrom(row: FileInfo, i: nat): seq<Step>
    decreases 5 - i
  {
    if i >= 5 then [] else [StepAt(row, i)] + StepsFrom(row, i + 1)
  }

  /** A full session with peer 1, step by step. */
  lemma {:induction false} SessionRuns(row: FileInfo, i: nat)
    requires row.sequence == 1 && i <= 5
    ensures Runnable(Staged(row, i), StepsFrom(row, i)) && After(Staged(row, i), StepsFrom(row, i)) == Staged(row, 5)
    decreases 5 - i
  {
    if i < 5 {
      SessionRuns(row, i + 1);
      StageStep(row, i);
      OneStep(Staged(row, i), StepAt(row, i), Staged(row, i + 1), StepsFrom(row, i + 1));
    }
  }

  lemma StageStep(row: FileInfo, i: nat)
    requires row.sequence == 1 && i < 5
    ensures Enabled(Staged(row, i), StepAt(row, i)) && Apply(Staged(row, i), StepAt(row, i)) == Staged(row, i + 1)
  {
    StageLink(row, i);
    var s, t := Staged(row, i), Staged(row, i + 1);
    assert s.links[1 := t.links[1]] == t.links;
  }

  lemma StageLink(row: FileInfo, i: nat)
    requires row.sequence == 1 && i < 5
    ensures Enabled(Staged(row, i), StepAt(row, i))
    ensures StepLink(Staged(row, i), StepAt(row, i), Stage(row, i)) == Stage(row, i + 1)
  {
    if i == 2 {
      assert Frames([row], false, 1) == [Frame([row], false, true)];
      assert (set f | f in [row] :: (f.name, f.sequence)) == {(row.name, row.sequence)};
    } else if i == 3 {
      assert [Frame([row], false, true)][1..] == [];
    }
  }

  /** A marker that cannot be read does not hold pruning back: in a run where only peer 1 ever
      had a session, a tombstone is dropped of which peer 2 never heard. */
  lemma UnreadableMarkerIsPassedOver()
    ensures exists s: Sys, steps: seq<Step>, configured: seq<Peer>, n: string, p: Peer ::
              && Initial(s) && Runnable(s, steps) && p in configured && p in After(s, steps).links
              && var t := After(s, steps);
                 && n in t.rows && n !in Apply(t, Prune(configured, {1, 2}, {2})).rows
                 && (n, t.rows[n].sequence) !in t.links[p].told
  {
    var row := FileInfo("f", 0, 0, 0, 0, File, true, false, map[], 1, 0, []);
    SessionRuns(row, 0);
    var s, t := Staged(row, 0), Staged(row, 5);
    FloorPassesOver(t);
    assert [1, 2][1] == 2;
    assert "f" in t.rows && 2 in [1, 2] && 2 in t.links && ("f", t.rows["f"].sequence) !in t.links[2].told;
    assert "f" !in Apply(t, Prune([1, 2], {1, 2}, {2})).rows;
    assert Initial(s);
    assert After(s, StepsFrom(row, 0)) == t;
  }
}

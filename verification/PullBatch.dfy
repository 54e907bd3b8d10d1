/** Several files pulled at once over one connection (internal/node/pull_batch.go): answers
    arrive in any order, may be errors, may be unknown, and may come for abandoned files. */
module PullBatch {
  import opened Entries
  import opened PullFile
  import opened PullPlan

  /** pullWindowSize. */
  const WINDOW := 8

  type JobId = nat

  /** One file's pull. `content` (the bytes its entry describes), `answered` (the runs whose
      bytes were accepted) and `asked` (the request that asked for each sent run) only state
      what the batch guarantees. */
  datatype Job = Job(name: string, pull: PullState, runs: seq<Run>, sent: nat, received: nat, total: nat,
                     dead: bool, ghost content: seq<Byte>, ghost answered: set<nat>, ghost asked: seq<nat>)

  /** What an outstanding request was for. */
  datatype Ref = Ref(job: JobId, run: nat)

  datatype Code = NoError | InvalidFile | NoSuchFile | Generic

  /** The batch. `table` keeps every job started, `jobs` lists the live ones; `largest` is the
      largest run requested so far; `committed` is what finished jobs put in place. */
  datatype Batch = Batch(k: nat, budget: int, jobs: seq<JobId>, table: seq<Job>,
                         inFlight: map<nat, Ref>, inflightBytes: int, nextRequest: nat,
                         largest: int, committed: map<JobId, seq<Byte>>)

  // ---- sums ----

  ghost function Total(m: map<nat, int>): int
    decreases |m|
  {
    if m == map[] then 0 else
      var k :| k in m;
      m[k] + Total(m - {k})
  }

  lemma {:induction false} TotalWithout(m: map<nat, int>, k: nat)
    requires k in m
    ensures Total(m) == m[k] + Total(m - {k})
    decreases |m|
  {
    var p :| p in m && Total(m) == m[p] + Total(m - {p});
    if p != k {
      TotalWithout(m - {p}, k);
      TotalWithout(m - {k}, p);
      assert m - {p} - {k} == m - {k} - {p};
    }
  }

  lemma TotalWith(m: map<nat, int>, k: nat, v: int)
    requires k !in m
    ensures Total(m[k := v]) == Total(m) + v
  {
    TotalWithout(m[k := v], k);
    assert m[k := v] - {k} == m;
  }

  /** Blocks of the chosen runs among the first n. */
  ghost function CountBlocks(runs: seq<Run>, chosen: set<nat>, n: nat): nat
    requires n <= |runs|
  {
    if n == 0 then 0
    else CountBlocks(runs, chosen, n - 1) + if n - 1 in chosen then |runs[n - 1].needs| else 0
  }

  lemma {:induction false} CountGrows(runs: seq<Run>, chosen: set<nat>, r: nat, n: nat)
    requires n <= |runs| && r !in chosen
    ensures CountBlocks(runs, chosen + {r}, n) == CountBlocks(runs, chosen, n) + if r < n then |runs[r].needs| else 0
  {
    if n > 0 {
      CountGrows(runs, chosen, r, n - 1);
    }
  }

  ghost function CountAll(runs: seq<Run>, n: nat): nat
    requires n <= |runs|
  {
    if n == 0 then 0 else CountAll(runs, n - 1) + |runs[n - 1].needs|
  }

  /** A count that reaches the count over all runs misses no run. */
  lemma {:induction false} FullCountMissesNone(runs: seq<Run>, chosen: set<nat>, n: nat)
    requires n <= |runs| && forall r :: 0 <= r < |runs| ==> runs[r].needs != []
    ensures CountBlocks(runs, chosen, n) <= CountAll(runs, n)
    ensures CountBlocks(runs, chosen, n) == CountAll(runs, n) ==> forall r: nat :: r < n ==> r in chosen
  {
    if n > 0 {
      FullCountMissesNone(runs, chosen, n - 1);
    }
  }

  lemma {:induction false} PlannedTotal(runs: seq<Run>, n: nat)
    requires n <= |runs|
    ensures CountAll(runs, n) == |Flatten(runs[..n])|
  {
    if n > 0 {
      PlannedTotal(runs, n - 1);
      assert runs[..n][..n - 1] == runs[..n - 1];
    }
  }

  lemma {:induction false} NothingChosen(runs: seq<Run>, n: nat)
    requires n <= |runs|
    ensures CountBlocks(runs, {}, n) == 0
  {
    if n > 0 {
      NothingChosen(runs, n - 1);
    }
  }

  // ---- the invariant ----

  ghost predicate Covers(job: Job)
  {
    forall b :: 0 <= b < |job.pull.written| && !job.pull.written[b] ==>
      exists r: nat :: r < |job.runs| && r !in job.answered && InRun(job.runs[r], b)
  }

  /** One job: its pull is sound, its runs belong to its entry, an unwritten block waits in an
      unanswered run, and the counters count answered and planned blocks. */
  ghost predicate JobInv(job: Job)
  {
    && Sound(job.pull, job.content)
    && (forall r :: 0 <= r < |job.runs| ==> IsRunOf(job.pull.info, job.runs[r]))
    && job.sent == |job.asked| <= |job.runs|
    && (forall r :: r in job.answered ==> r < job.sent)
    && job.received == CountBlocks(job.runs, job.answered, |job.runs|)
    && job.total == CountAll(job.runs, |job.runs|)
    && Covers(job)
  }

  /** A request is the one that asked for a sent, unanswered run of a known job. */
  ghost predicate RefInv(table: seq<Job>, id: nat, ref: Ref)
  {
    ref.job < |table| &&
    var job := table[ref.job];
    && ref.run < job.sent == |job.asked| <= |job.runs|
    && job.asked[ref.run] == id && ref.run !in job.answered
  }

  ghost predicate RefsInv(b: Batch)
  {
    forall id :: id in b.inFlight ==> id < b.nextRequest && RefInv(b.table, id, b.inFlight[id])
  }

  ghost function RunSize(table: seq<Job>, ref: Ref): int
  {
    if ref.job < |table| && ref.run < |table[ref.job].runs| then table[ref.job].runs[ref.run].size else 0
  }

  /** The bytes of every outstanding request. */
  ghost function Sizes(b: Batch): map<nat, int>
  {
    map id | id in b.inFlight :: RunSize(b.table, b.inFlight[id])
  }

  /** The response bytes the peer owes. */
  ghost function Owed(b: Batch): int
  {
    Total(Sizes(b))
  }

  function Max(a: int, b: int): int
  {
    if a < b then b else a
  }

  ghost predicate BytesInv(b: Batch)
  {
    0 <= b.largest && 0 <= b.inflightBytes <= Max(b.budget, b.largest) && Owed(b) <= b.inflightBytes
  }

  /** Live jobs have different names, so the list of live jobs has no repetition. */
  ghost predicate DistinctNames(table: seq<Job>, jobs: seq<JobId>)
  {
    && (forall i :: 0 <= i < |jobs| ==> jobs[i] < |table|)
    && (forall i, j :: 0 <= i < j < |jobs| ==> table[jobs[i]].name != table[jobs[j]].name)
  }

  /** At most k jobs are live, and they are the listed ones. */
  ghost predicate LiveInv(k: nat, jobs: seq<JobId>, table: seq<Job>)
  {
    |jobs| <= k && DistinctNames(table, jobs) && forall j: JobId :: j < |table| ==> (j in jobs <==> !table[j].dead)
  }

  ghost predicate CommitInv(b: Batch)
  {
    forall j :: j in b.committed ==> j < |b.table| && b.committed[j] == b.table[j].content
  }

  ghost predicate Inv(b: Batch)
  {
    LiveInv(b.k, b.jobs, b.table) && RefsInv(b) && BytesInv(b) && CommitInv(b) && JobsInv(b.table)
  }

  ghost predicate JobsInv(table: seq<Job>)
  {
    table == [] || (JobsInv(table[..|table| - 1]) && JobInv(table[|table| - 1]))
  }

  lemma {:induction false} JobAt(table: seq<Job>, j: JobId)
    requires JobsInv(table) && j < |table|
    ensures JobInv(table[j])
  {
    if j < |table| - 1 {
      JobAt(table[..|table| - 1], j);
    }
  }

  // ---- operations ----

  predicate MaySend(b: Batch, j: JobId)
    requires j < |b.table|
  {
    var job := b.table[j];
    && !job.dead && job.sent < |job.runs|
    && !(b.inflightBytes > 0 && b.inflightBytes + job.runs[job.sent].size > b.budget)
  }

  function Sent(job: Job, ghost id: nat): Job
  {
    job.(sent := job.sent + 1, asked := job.asked + [id])
  }

  /** sendNext: request the job's next run unless the byte budget forbids it. */
  function SendNext(b: Batch, j: JobId): Batch
    requires j < |b.table|
  {
    if !MaySend(b, j) then b
    else
      var job := b.table[j];
      var size := job.runs[job.sent].size;
      b.(inFlight := b.inFlight[b.nextRequest := Ref(j, job.sent)],
         nextRequest := b.nextRequest + 1,
         inflightBytes := b.inflightBytes + size,
         largest := Max(b.largest, size),
         table := b.table[j := Sent(job, b.nextRequest)])
  }

  /** The first requests of a new job, until the window is full or the budget stops it. */
  function SendWindow(b: Batch, j: JobId): Batch
    requires j < |b.table|
    decreases |b.table[j].runs| - b.table[j].sent
  {
    if b.table[j].sent < WINDOW && MaySend(b, j) then SendWindow(SendNext(b, j), j) else b
  }

  /** The first position of j from i on, or the length. */
  function FirstAt(jobs: seq<JobId>, j: JobId, i: nat): (r: nat)
    requires i <= |jobs|
    ensures i <= r <= |jobs| && (r < |jobs| ==> jobs[r] == j) && forall x :: i <= x < r ==> jobs[x] != j
    decreases |jobs| - i
  {
    if i == |jobs| || jobs[i] == j then i else FirstAt(jobs, j, i + 1)
  }

  /** remove: the list without the first occurrence of j. */
  function Without(jobs: seq<JobId>, j: JobId): seq<JobId>
  {
    var i := FirstAt(jobs, j, 0);
    if i == |jobs| then jobs else jobs[..i] + jobs[i + 1..]
  }

  predicate AllWritten(p: PullState)
  {
    forall i :: 0 <= i < |p.written| ==> p.written[i]
  }

  /** complete: the job is over; Finish commits it if no block is missing. */
  function Complete(b: Batch, j: JobId): Batch
    requires j < |b.table|
  {
    var job := b.table[j];
    b.(jobs := Without(b.jobs, j), table := b.table[j := job.(dead := true)],
       committed := if AllWritten(job.pull) then b.committed[j := job.pull.temp] else b.committed)
  }

  function Abandon(b: Batch, j: JobId): Batch
    requires j < |b.table|
  {
    if b.table[j].dead then b
    else b.(jobs := Without(b.jobs, j), table := b.table[j := b.table[j].(dead := true)])
  }

  predicate Active(b: Batch, name: string)
    requires forall i :: 0 <= i < |b.jobs| ==> b.jobs[i] < |b.table|
  {
    exists i :: 0 <= i < |b.jobs| && b.table[b.jobs[i]].name == name
  }

  function NewJob(name: string, pull: PullState, ghost content: seq<Byte>, runs: seq<Run>, needed: nat): Job
  {
    Job(name, pull, runs, 0, 0, needed, false, content, {}, [])
  }

  /** handle for a response: drop it, abandon the job, or write the run and go on. */
  function Handle(b: Batch, id: nat, code: Code, data: seq<Byte>): Batch
    requires Known(b, id)
  {
    if id !in b.inFlight then b
    else
      var ref := b.inFlight[id];
      var job := b.table[ref.job];
      var run := job.runs[ref.run];
      var c := Drop(b, id);
      if job.dead then c
      else if code != NoError then Abandon(c, ref.job)
      else
        var d := Credit(c, run.size);
        if |data| != run.size then Abandon(d, ref.job)
        else match ReceiveRun(job.pull, run.needs[0].index, data)
          case None => Abandon(d, ref.job)
          case Some(pull) => Accept(d, ref.job, ref.run, pull)
  }

  /** A request that was answered is no longer outstanding. */
  function Drop(b: Batch, id: nat): Batch
  {
    b.(inFlight := b.inFlight - {id})
  }

  /** Response bytes that arrived. */
  function Credit(b: Batch, size: int): Batch
  {
    b.(inflightBytes := Max(0, b.inflightBytes - size))
  }

  /** A verified run is in the temp: finish the file or ask for more. */
  function Accept(b: Batch, j: JobId, run: nat, pull: PullState): Batch
    requires j < |b.table| && run < |b.table[j].runs|
  {
    var e := b.(table := b.table[j := Answered(b.table[j], pull, run)]);
    if e.table[j].received == e.table[j].total then Complete(e, j) else SendNext(e, j)
  }

  function Answered(job: Job, pull: PullState, run: nat): Job
    requires run < |job.runs|
  {
    job.(pull := pull, received := job.received + |job.runs[run].needs|, answered := job.answered + {run})
  }

  // ---- preservation ----

  lemma WithoutKeepsDistinct(table: seq<Job>, jobs: seq<JobId>, j: JobId)
    requires DistinctNames(table, jobs)
    ensures DistinctNames(table, Without(jobs, j)) && j !in Without(jobs, j)
  {
    var rest := Without(jobs, j);
    forall x | 0 <= x < |rest| ensures rest[x] < |table| && rest[x] != j {
    }
    forall x, y | 0 <= x < y < |rest| ensures table[rest[x]].name != table[rest[y]].name {
    }
  }

  // Each part of the invariant on its own.

  /** A job whose name and liveness stay as they were. */
  lemma LiveIgnoresProgress(k: nat, jobs: seq<JobId>, table: seq<Job>, j: JobId, job: Job)
    requires LiveInv(k, jobs, table) && j < |table| && job.name == table[j].name && job.dead == table[j].dead
    ensures LiveInv(k, jobs, table[j := job])
  {
    assert DistinctNames(table[j := job], jobs);
  }

  lemma LiveAfterDeath(k: nat, jobs: seq<JobId>, table: seq<Job>, j: JobId)
    requires LiveInv(k, jobs, table) && j < |table|
    ensures LiveInv(k, Without(jobs, j), table[j := table[j].(dead := true)])
  {
    var t := table[j := table[j].(dead := true)];
    WithoutKeepsDistinct(table, jobs, j);
    assert DistinctNames(t, Without(jobs, j));
  }

  /** The same runs and requests, and no outstanding request answered. */
  ghost predicate Supports(b: Batch, j: JobId, job: Job)
    requires j < |b.table|
  {
    && job.runs == b.table[j].runs && b.table[j].asked == job.asked && b.table[j].sent == job.sent
    && forall id :: id in b.inFlight && b.inFlight[id].job == j ==> b.inFlight[id].run !in job.answered
  }

  lemma RefsIgnoreProgress(b: Batch, c: Batch, j: JobId, job: Job)
    requires RefsInv(b) && j < |b.table| && Supports(b, j, job)
    requires c.table == b.table[j := job] && c.inFlight == b.inFlight && c.nextRequest == b.nextRequest
    ensures RefsInv(c) && Sizes(c) == Sizes(b)
  {
  }

  /** Progress of one job leaves requests, bytes and commits as they were. */
  lemma RestIgnoresProgress(b: Batch, c: Batch, j: JobId, job: Job)
    requires RefsInv(b) && BytesInv(b) && CommitInv(b) && j < |b.table| && Supports(b, j, job)
    requires c == b.(table := b.table[j := job], jobs := c.jobs) && job.content == b.table[j].content
    ensures RefsInv(c) && BytesInv(c) && CommitInv(c)
  {
    RefsIgnoreProgress(b, c, j, job);
  }

  lemma {:induction false} JobReplaced(table: seq<Job>, j: JobId, job: Job)
    requires JobsInv(table) && JobInv(job) && j < |table|
    ensures JobsInv(table[j := job])
  {
    var n := |table| - 1;
    if j < n {
      JobReplaced(table[..n], j, job);
      assert table[j := job][..n] == table[..n][j := job];
    } else {
      assert table[j := job][..n] == table[..n];
    }
  }

  lemma DeadKeepsInv(b: Batch, j: JobId)
    requires Inv(b) && j < |b.table|
    ensures Inv(b.(jobs := Without(b.jobs, j), table := b.table[j := b.table[j].(dead := true)]))
  {
    var job := b.table[j].(dead := true);
    var c := b.(jobs := Without(b.jobs, j), table := b.table[j := job]);
    LiveAfterDeath(b.k, b.jobs, b.table, j);
    JobAt(b.table, j);
    JobReplaced(b.table, j, job);
    RestIgnoresProgress(b, c, j, job);
  }

  lemma CompleteKeepsInv(b: Batch, j: JobId)
    requires Inv(b) && j < |b.table|
    ensures Inv(Complete(b, j))
  {
    DeadKeepsInv(b, j);
    var c := b.(jobs := Without(b.jobs, j), table := b.table[j := b.table[j].(dead := true)]);
    var job := b.table[j];
    JobAt(b.table, j);
    if AllWritten(job.pull) {
      CompleteIsContent(job.pull, job.content);
    }
    assert Sizes(Complete(b, j)) == Sizes(c);
  }

  lemma RunSizePositive(job: Job, r: nat)
    requires JobInv(job) && r < |job.runs|
    ensures job.runs[r].size >= 0
  {
    var run := job.runs[r];
    RunSpan(job.pull.info, job.content, run.needs, run.needs[0].index);
    StartBounds(job.pull.info, job.content, run.needs[0].index, run.needs[0].index + |run.needs|);
  }

  /** A request for the next run of a job. */
  lemma RequestKeepsRefs(b: Batch, j: JobId)
    requires RefsInv(b) && j < |b.table| && MaySend(b, j) && b.table[j].sent == |b.table[j].asked|
    requires forall r :: r in b.table[j].answered ==> r < b.table[j].sent
    ensures RefsInv(SendNext(b, j))
  {
  }

  lemma RequestKeepsBytes(b: Batch, j: JobId)
    requires RefsInv(b) && BytesInv(b) && j < |b.table| && MaySend(b, j)
    requires b.table[j].runs[b.table[j].sent].size >= 0
    ensures BytesInv(SendNext(b, j))
  {
    var job := b.table[j];
    var size := job.runs[job.sent].size;
    assert Sizes(SendNext(b, j)) == Sizes(b)[b.nextRequest := size];
    TotalWith(Sizes(b), b.nextRequest, size);
  }

  lemma SendNextKeepsInv(b: Batch, j: JobId)
    requires Inv(b) && j < |b.table|
    ensures Inv(SendNext(b, j))
  {
    if MaySend(b, j) {
      var job, c := b.table[j], SendNext(b, j);
      JobAt(b.table, j);
      RunSizePositive(job, job.sent);
      RequestKeepsRefs(b, j);
      RequestKeepsBytes(b, j);
      JobReplaced(b.table, j, Sent(job, b.nextRequest));
      LiveIgnoresProgress(b.k, b.jobs, b.table, j, Sent(job, b.nextRequest));
    }
  }

  lemma {:induction false} SendWindowKeepsInv(b: Batch, j: JobId)
    requires Inv(b) && j < |b.table|
    ensures Inv(SendWindow(b, j)) && |SendWindow(b, j).table| == |b.table|
    decreases |b.table[j].runs| - b.table[j].sent
  {
    if b.table[j].sent < WINDOW && MaySend(b, j) {
      SendNextKeepsInv(b, j);
      SendWindowKeepsInv(SendNext(b, j), j);
    }
  }

  /** Dropping an outstanding request, with or without returning its bytes. */
  lemma DrainKeepsBytes(b: Batch, id: nat)
    requires BytesInv(b) && id in b.inFlight && Sizes(b)[id] >= 0
    ensures BytesInv(Drop(b, id)) && BytesInv(Credit(Drop(b, id), Sizes(b)[id]))
  {
    TotalWithout(Sizes(b), id);
    assert Sizes(Drop(b, id)) == Sizes(b) - {id};
    assert Sizes(Credit(Drop(b, id), Sizes(b)[id])) == Sizes(b) - {id};
  }

  lemma DrainKeepsInv(b: Batch, id: nat)
    requires Inv(b) && id in b.inFlight
    ensures Inv(Drop(b, id)) && Inv(Credit(Drop(b, id), Sizes(b)[id]))
  {
    var ref := b.inFlight[id];
    JobAt(b.table, ref.job);
    RunSizePositive(b.table[ref.job], ref.run);
    DrainKeepsBytes(b, id);
  }

  /** An accepted answer: the job's invariant with one more run answered. */
  lemma AnsweredKeepsJob(job: Job, run: nat, data: seq<Byte>)
    requires JobInv(job) && run < job.sent && run !in job.answered
    requires |data| == job.runs[run].size
    requires ReceiveRun(job.pull, job.runs[run].needs[0].index, data).Some?
    ensures JobInv(Answered(job, ReceiveRun(job.pull, job.runs[run].needs[0].index, data).value, run))
  {
    var r := job.runs[run];
    var first := r.needs[0].index;
    AcceptedRunMarksItsBlocks(job.pull, job.content, r, data);
    var pull := ReceiveRun(job.pull, first, data).value;
    var next := Answered(job, pull, run);
    CountGrows(job.runs, job.answered, run, |job.runs|);
    forall b | 0 <= b < |pull.written| && !pull.written[b]
      ensures exists s: nat :: s < |job.runs| && s !in next.answered && InRun(job.runs[s], b)
    {
      var s: nat :| s < |job.runs| && s !in job.answered && InRun(job.runs[s], b);
      assert s != run;
    }
  }

  /** The batch after a run of job j was accepted. */
  lemma AnswerKeepsInv(b: Batch, j: JobId, run: nat, pull: PullState)
    requires Inv(b) && j < |b.table| && run < |b.table[j].runs| && JobInv(Answered(b.table[j], pull, run))
    requires forall i :: i in b.inFlight ==> b.inFlight[i] != Ref(j, run)
    ensures Inv(b.(table := b.table[j := Answered(b.table[j], pull, run)]))
  {
    var job := Answered(b.table[j], pull, run);
    LiveIgnoresProgress(b.k, b.jobs, b.table, j, job);
    JobReplaced(b.table, j, job);
    RestIgnoresProgress(b, b.(table := b.table[j := job]), j, job);
  }

  lemma AcceptKeepsInv(b: Batch, j: JobId, run: nat, pull: PullState)
    requires Inv(b) && j < |b.table| && run < |b.table[j].runs| && JobInv(Answered(b.table[j], pull, run))
    requires forall i :: i in b.inFlight ==> b.inFlight[i] != Ref(j, run)
    ensures Inv(Accept(b, j, run, pull))
  {
    AnswerKeepsInv(b, j, run, pull);
    var e := b.(table := b.table[j := Answered(b.table[j], pull, run)]);
    CompleteKeepsInv(e, j);
    SendNextKeepsInv(e, j);
  }

  /** What the invariant knows about an outstanding request. */
  ghost predicate Known(b: Batch, id: nat)
  {
    id in b.inFlight ==>
      var ref := b.inFlight[id];
      && RefInv(b.table, id, ref)
      && b.table[ref.job].pull.info.blockSize > 0
      && b.table[ref.job].runs[ref.run].needs != []
  }

  lemma RequestIsKnown(b: Batch, id: nat)
    requires Inv(b)
    ensures Known(b, id)
  {
    if id in b.inFlight {
      JobAt(b.table, b.inFlight[id].job);
    }
  }

  lemma AnswerToLiveJobKeepsInv(b: Batch, id: nat, data: seq<Byte>)
    requires Inv(b) && id in b.inFlight && Known(b, id)
    requires var ref := b.inFlight[id];
             |data| == b.table[ref.job].runs[ref.run].size
             && ReceiveRun(b.table[ref.job].pull, b.table[ref.job].runs[ref.run].needs[0].index, data).Some?
    ensures var ref := b.inFlight[id];
            var job := b.table[ref.job];
            var run := job.runs[ref.run];
            Inv(Accept(Credit(Drop(b, id), run.size), ref.job, ref.run, ReceiveRun(job.pull, run.needs[0].index, data).value))
  {
    var ref := b.inFlight[id];
    var job := b.table[ref.job];
    var run := job.runs[ref.run];
    var d := Credit(Drop(b, id), run.size);
    DrainKeepsInv(b, id);
    JobAt(b.table, ref.job);
    AnsweredKeepsJob(job, ref.run, data);
    forall i | i in d.inFlight ensures d.inFlight[i] != ref {
      assert RefInv(b.table, i, b.inFlight[i]);
    }
    AcceptKeepsInv(d, ref.job, ref.run, ReceiveRun(job.pull, run.needs[0].index, data).value);
  }

  lemma RefusedKeepsInv(b: Batch, id: nat)
    requires Inv(b) && id in b.inFlight && Known(b, id)
    ensures var ref := b.inFlight[id];
            var d := Credit(Drop(b, id), b.table[ref.job].runs[ref.run].size);
            Inv(Drop(b, id)) && Inv(Abandon(Drop(b, id), ref.job)) && Inv(Abandon(d, ref.job))
  {
    var ref := b.inFlight[id];
    DrainKeepsInv(b, id);
    DeadKeepsInv(Drop(b, id), ref.job);
    DeadKeepsInv(Credit(Drop(b, id), b.table[ref.job].runs[ref.run].size), ref.job);
  }

  /** Handling any response in any state keeps the invariant. */
  lemma HandleKeepsInv(b: Batch, id: nat, code: Code, data: seq<Byte>)
    requires Inv(b) && Known(b, id)
    ensures Inv(Handle(b, id, code, data))
  {
    if id in b.inFlight {
      var ref := b.inFlight[id];
      var job := b.table[ref.job];
      var run := job.runs[ref.run];
      if !job.dead && code == NoError && |data| == run.size && ReceiveRun(job.pull, run.needs[0].index, data).Some? {
        AnswerToLiveJobKeepsInv(b, id, data);
      } else {
        RefusedKeepsInv(b, id);
      }
    }
  }

  // ---- admitting a file ----

  /** The tail of start: plan the needed blocks and send the first requests, or finish at once
      when nothing is needed. */
  function Admit(b: Batch, name: string, pull: PullState, ghost content: seq<Byte>, runs: seq<Run>): Batch
  {
    var job := NewJob(name, pull, content, runs, |Flatten(runs)|);
    var j := |b.table|;
    if runs == [] then
      Complete(b.(table := b.table + [job.(dead := true)]), j)
    else
      SendWindow(b.(table := b.table + [job], jobs := b.jobs + [j]), j)
  }

  lemma NewJobInv(name: string, pull: PullState, content: seq<Byte>, runs: seq<Run>, maxRun: int)
    requires Sound(pull, content) && IsPlan(runs, NeedsFrom(pull.info, pull.written, 0), maxRun)
    ensures JobInv(NewJob(name, pull, content, runs, |Flatten(runs)|))
  {
    PlanCoversNeeds(pull.info, pull.written, runs, maxRun);
    NothingChosen(runs, |runs|);
    PlannedTotal(runs, |runs|);
    assert runs[..|runs|] == runs;
    var job := NewJob(name, pull, content, runs, |Flatten(runs)|);
    forall b | 0 <= b < |pull.written| && !pull.written[b]
      ensures exists r: nat :: r < |runs| && r !in job.answered && InRun(runs[r], b)
    {
      var r :| 0 <= r < |runs| && InRun(runs[r], b);
      assert r !in job.answered;
    }
  }

  /** A further entry of the table changes nothing about the requests of the others. */
  lemma GrowKeepsRefs(b: Batch, c: Batch, job: Job)
    requires RefsInv(b) && BytesInv(b)
    requires c.table == b.table + [job] && c.inFlight == b.inFlight && c.nextRequest == b.nextRequest
    requires c.inflightBytes == b.inflightBytes && c.largest == b.largest && c.budget == b.budget
    ensures RefsInv(c) && BytesInv(c)
  {
    assert Sizes(c) == Sizes(b);
  }

  /** A new live job under a name no live job has. */
  lemma LiveGrows(k: nat, jobs: seq<JobId>, table: seq<Job>, job: Job)
    requires LiveInv(k, jobs, table)
    requires job.dead || (|jobs| < k && forall i :: 0 <= i < |jobs| ==> table[jobs[i]].name != job.name)
    ensures LiveInv(k, if job.dead then jobs else jobs + [|table|], table + [job])
  {
    var t, live := table + [job], if job.dead then jobs else jobs + [|table|];
    forall j: JobId | j < |t| ensures j in live <==> !t[j].dead {
      if j < |table| {
        assert t[j] == table[j];
      } else {
        assert j !in jobs;
      }
    }
  }

  lemma GrowKeepsInv(b: Batch, job: Job)
    requires Inv(b) && JobInv(job)
    requires job.dead || (|b.jobs| < b.k && forall i :: 0 <= i < |b.jobs| ==> b.table[b.jobs[i]].name != job.name)
    ensures Inv(b.(table := b.table + [job], jobs := if job.dead then b.jobs else b.jobs + [|b.table|]))
  {
    var c := b.(table := b.table + [job], jobs := if job.dead then b.jobs else b.jobs + [|b.table|]);
    LiveGrows(b.k, b.jobs, b.table, job);
    GrowKeepsRefs(b, c, job);
    assert c.table[..|b.table|] == b.table;
  }

  lemma AdmitKeepsInv(b: Batch, name: string, pull: PullState, content: seq<Byte>, runs: seq<Run>, maxRun: int)
    requires Inv(b) && |b.jobs| < b.k && !Active(b, name)
    requires Sound(pull, content) && IsPlan(runs, NeedsFrom(pull.info, pull.written, 0), maxRun)
    ensures Inv(Admit(b, name, pull, content, runs))
  {
    var job := NewJob(name, pull, content, runs, |Flatten(runs)|);
    NewJobInv(name, pull, content, runs, maxRun);
    if runs == [] {
      FinishedKeepsInv(b, job);
    } else {
      StartedKeepsInv(b, job);
    }
  }

  lemma FinishedKeepsInv(b: Batch, job: Job)
    requires Inv(b) && JobInv(job)
    ensures Inv(Complete(b.(table := b.table + [job.(dead := true)]), |b.table|))
  {
    GrowKeepsInv(b, job.(dead := true));
    CompleteKeepsInv(b.(table := b.table + [job.(dead := true)]), |b.table|);
  }

  lemma StartedKeepsInv(b: Batch, job: Job)
    requires Inv(b) && JobInv(job) && !job.dead && |b.jobs| < b.k && !Active(b, job.name)
    ensures Inv(SendWindow(b.(table := b.table + [job], jobs := b.jobs + [|b.table|]), |b.table|))
  {
    GrowKeepsInv(b, job);
    SendWindowKeepsInv(b.(table := b.table + [job], jobs := b.jobs + [|b.table|]), |b.table|);
  }

  // ---- what the invariant gives ----

  /** At most k jobs are live, under different names; and the peer never owes more bytes than
      the larger of the budget and the largest single run. */
  lemma BatchIsBounded(b: Batch)
    requires Inv(b)
    ensures |b.jobs| <= b.k && Owed(b) <= Max(b.budget, b.largest)
    ensures forall i, j :: 0 <= i < j < |b.jobs| ==>
              b.jobs[i] < |b.table| && b.jobs[j] < |b.table| && b.table[b.jobs[i]].name != b.table[b.jobs[j]].name
  {
  }

  /** What a response does to every pull in the table. */
  lemma PullsAfterHandle(b: Batch, id: nat, code: Code, data: seq<Byte>, j: JobId)
    requires Known(b, id) && j < |b.table|
    ensures |Handle(b, id, code, data).table| == |b.table|
    ensures var after := Handle(b, id, code, data).table[j].pull;
            || after == b.table[j].pull
            || (id in b.inFlight && b.inFlight[id].job == j && !b.table[j].dead && code == NoError &&
                var run := b.table[j].runs[b.inFlight[id].run];
                |data| == run.size && ReceiveRun(b.table[j].pull, run.needs[0].index, data) == Some(after))
  {
  }

  /** The pull after exactly this run was written: its blocks and no others are marked, and the
      data is the peer's content of exactly the requested range. */
  ghost predicate Writes(job: Job, run: Run, data: seq<Byte>, after: PullState)
  {
    && run.needs != [] && |data| == run.size
    && after.written == Mark(job.pull.written, run.needs[0].index, run.needs[0].index + |run.needs|)
    && 0 <= run.needs[0].offset <= run.needs[0].offset + run.size <= |job.content|
    && data == job.content[run.needs[0].offset..run.needs[0].offset + run.size]
  }

  lemma AcceptedWrites(job: Job, r: nat, data: seq<Byte>)
    requires JobInv(job) && r < |job.runs| && job.runs[r].needs != [] && |data| == job.runs[r].size
    requires ReceiveRun(job.pull, job.runs[r].needs[0].index, data).Some?
    ensures Writes(job, job.runs[r], data, ReceiveRun(job.pull, job.runs[r].needs[0].index, data).value)
  {
    AcceptedRunMarksItsBlocks(job.pull, job.content, job.runs[r], data);
  }

  /** A response changes a pull only if it answers an outstanding request of that very job, which
      is alive, with the requested number of bytes that verify; and then it writes exactly the
      requested run. */
  lemma OnlyTheRequesterIsWritten(b: Batch, id: nat, code: Code, data: seq<Byte>, j: JobId)
    requires Inv(b) && Known(b, id) && j < |b.table|
    requires |Handle(b, id, code, data).table| == |b.table| && Handle(b, id, code, data).table[j].pull != b.table[j].pull
    ensures id in b.inFlight && b.inFlight[id].job == j && !b.table[j].dead && code == NoError
    ensures Writes(b.table[j], b.table[j].runs[b.inFlight[id].run], data, Handle(b, id, code, data).table[j].pull)
  {
    PullsAfterHandle(b, id, code, data, j);
    JobAt(b.table, j);
    AcceptedWrites(b.table[j], b.inFlight[id].run, data);
  }

  /** An answered request is gone: any further response with its id changes nothing. */
  lemma RepeatedAnswerIsDropped(b: Batch, id: nat, code: Code, data: seq<Byte>, code': Code, data': seq<Byte>)
    requires Inv(b) && Known(b, id)
    ensures Known(Handle(b, id, code, data), id)
    ensures Handle(Handle(b, id, code, data), id, code', data') == Handle(b, id, code, data)
  {
    assert id !in Handle(b, id, code, data).inFlight;
  }

  /** complete is reached only with every block written, so what it commits is the peer's content. */
  lemma AnsweredInFullIsWritten(job: Job)
    requires JobInv(job) && job.received == job.total
    ensures AllWritten(job.pull) && job.pull.temp == job.content
  {
    assert forall r :: 0 <= r < |job.runs| ==> IsRunOf(job.pull.info, job.runs[r]);
    FullCountMissesNone(job.runs, job.answered, |job.runs|);
    assert AllWritten(job.pull);
    CompleteIsContent(job.pull, job.content);
  }

  /** The answer that completes a job commits it with the peer's content. */
  lemma LastAnswerCommits(b: Batch, id: nat, data: seq<Byte>)
    requires Inv(b) && id in b.inFlight && Known(b, id) && !b.table[b.inFlight[id].job].dead
    requires var ref := b.inFlight[id];
             var job := b.table[ref.job];
             var run := job.runs[ref.run];
             |data| == run.size && ReceiveRun(job.pull, run.needs[0].index, data).Some?
             && job.received + |run.needs| == job.total
    ensures var ref := b.inFlight[id];
            var after := Handle(b, id, NoError, data);
            ref.job in after.committed && after.committed[ref.job] == b.table[ref.job].content && ref.job < |after.table| && after.table[ref.job].dead
  {
    var ref := b.inFlight[id];
    var job := b.table[ref.job];
    JobAt(b.table, ref.job);
    AnsweredKeepsJob(job, ref.run, data);
    AnsweredInFullIsWritten(Answered(job, ReceiveRun(job.pull, job.runs[ref.run].needs[0].index, data).value, ref.run));
  }

  // ---- what an answer leads to ----

  /** The peer answered an outstanding request with the content's bytes of exactly its range. */
  ghost predicate Right(b: Batch, id: nat, code: Code, data: seq<Byte>)
    requires id in b.inFlight && Known(b, id)
  {
    var job := b.table[b.inFlight[id].job];
    var run := job.runs[b.inFlight[id].run];
    && code == NoError && 0 <= run.needs[0].offset <= run.needs[0].offset + run.size <= |job.content|
    && data == job.content[run.needs[0].offset..run.needs[0].offset + run.size]
  }

  /** An answer with the right bytes verifies, any other is refused. */
  lemma RightIsAccepted(job: Job, r: nat, data: seq<Byte>)
    requires JobInv(job) && r < |job.runs| && job.runs[r].needs != []
    ensures var run := job.runs[r];
            |data| == run.size && ReceiveRun(job.pull, run.needs[0].index, data).Some? <==>
            && 0 <= run.needs[0].offset <= run.needs[0].offset + run.size <= |job.content|
            && data == job.content[run.needs[0].offset..run.needs[0].offset + run.size]
  {
    var run, info := job.runs[r], job.pull.info;
    var first := run.needs[0].index;
    assert IsRunOf(info, run);
    if |data| == run.size && ReceiveRun(job.pull, first, data).Some? {
      AcceptedWrites(job, r, data);
    } else {
      RunSpan(info, job.content, run.needs, first);
      BlockGeometry(info, job.content, first);
      RunMeaning(job.pull, job.content, first, data, first + |run.needs|);
    }
  }

  lemma HandledWrong(b: Batch, id: nat, code: Code, data: seq<Byte>)
    requires id in b.inFlight && Known(b, id) && !b.table[b.inFlight[id].job].dead
    requires var job := b.table[b.inFlight[id].job];
             var run := job.runs[b.inFlight[id].run];
             code != NoError || |data| != run.size || ReceiveRun(job.pull, run.needs[0].index, data).None?
    ensures var j, after := b.inFlight[id].job, Handle(b, id, code, data);
            && after.table == b.table[j := b.table[j].(dead := true)]
            && after.committed == b.committed && after.inFlight == b.inFlight - {id}
  {
  }

  lemma DeadIsUnlisted(b: Batch, j: JobId)
    requires Inv(b) && j < |b.table|
    ensures b.table[j].dead <==> j !in b.jobs
  {
  }

  /** An error, or anything but the right bytes, gives the file up: its job is dead and off the
      list, nothing is written or committed, and the other jobs do not notice. */
  lemma WrongAnswerAbandons(b: Batch, id: nat, code: Code, data: seq<Byte>)
    requires Inv(b) && id in b.inFlight && Known(b, id) && !b.table[b.inFlight[id].job].dead
    requires !Right(b, id, code, data)
    ensures var j, after := b.inFlight[id].job, Handle(b, id, code, data);
            && after.table == b.table[j := b.table[j].(dead := true)] && j !in after.jobs
            && after.committed == b.committed && after.inFlight == b.inFlight - {id}
  {
    var ref := b.inFlight[id];
    JobAt(b.table, ref.job);
    RightIsAccepted(b.table[ref.job], ref.run, data);
    HandledWrong(b, id, code, data);
    HandleKeepsInv(b, id, code, data);
    DeadIsUnlisted(Handle(b, id, code, data), ref.job);
  }

  lemma HandledRight(b: Batch, id: nat, data: seq<Byte>, pull: PullState)
    requires id in b.inFlight && Known(b, id) && !b.table[b.inFlight[id].job].dead
    requires var job := b.table[b.inFlight[id].job];
             var run := job.runs[b.inFlight[id].run];
             && |data| == run.size && ReceiveRun(job.pull, run.needs[0].index, data) == Some(pull)
             && job.received + |run.needs| != job.total
    ensures var j, after := b.inFlight[id].job, Handle(b, id, NoError, data);
            var job, left := b.table[j], Max(0, b.inflightBytes - b.table[j].runs[b.inFlight[id].run].size);
            && |after.table| == |b.table| && !after.table[j].dead && after.committed == b.committed && after.table[j].pull == pull
            && (job.sent < |job.runs| && (left == 0 || left + job.runs[job.sent].size <= b.budget) ==>
                  after.inFlight == (b.inFlight - {id})[b.nextRequest := Ref(j, job.sent)] && after.table[j].sent == job.sent + 1)
  {
  }

  /** The right bytes of a run that is not the last: the run's blocks are marked, the file stays
      in the batch, and its next run is asked for if there is one and it is the only request or
      fits the budget. */
  lemma RightAnswerAsksNext(b: Batch, id: nat, data: seq<Byte>)
    requires Inv(b) && id in b.inFlight && Known(b, id) && !b.table[b.inFlight[id].job].dead && Right(b, id, NoError, data)
    requires var job := b.table[b.inFlight[id].job]; job.received + |job.runs[b.inFlight[id].run].needs| != job.total
    ensures var j, after := b.inFlight[id].job, Handle(b, id, NoError, data);
            var job, left := b.table[j], Max(0, b.inflightBytes - b.table[j].runs[b.inFlight[id].run].size);
            && |after.table| == |b.table| && j in after.jobs && !after.table[j].dead && after.committed == b.committed
            && Writes(job, job.runs[b.inFlight[id].run], data, after.table[j].pull)
            && (job.sent < |job.runs| && (left == 0 || left + job.runs[job.sent].size <= b.budget) ==>
                  after.inFlight == (b.inFlight - {id})[b.nextRequest := Ref(j, job.sent)] && after.table[j].sent == job.sent + 1)
  {
    var ref := b.inFlight[id];
    var job := b.table[ref.job];
    JobAt(b.table, ref.job);
    RightIsAccepted(job, ref.run, data);
    AcceptedWrites(job, ref.run, data);
    HandledRight(b, id, data, ReceiveRun(job.pull, job.runs[ref.run].needs[0].index, data).value);
    HandleKeepsInv(b, id, NoError, data);
    DeadIsUnlisted(Handle(b, id, NoError, data), ref.job);
  }

  /** Run r of job j is outstanding; the job's requests are numbered from id on. */
  ghost predicate Asked(b: Batch, j: JobId, id: nat, r: nat)
  {
    id + r in b.inFlight && b.inFlight[id + r] == Ref(j, r)
  }

  /** A file with something to fetch is admitted with its first runs outstanding: as many as the
      window allows and the plan has, unless the budget is reached before. */
  lemma AdmitFillsWindow(b: Batch, name: string, pull: PullState, content: seq<Byte>, runs: seq<Run>)
    requires runs != []
    ensures var j, after := |b.table|, Admit(b, name, pull, content, runs);
            && |after.table| == j + 1 && after.jobs == b.jobs + [j] && after.table[j].runs == runs && !after.table[j].dead
            && after.table[j].sent <= |runs|
            && (after.table[j].sent == |runs| || after.table[j].sent >= WINDOW
                || (after.inflightBytes > 0 && after.inflightBytes + runs[after.table[j].sent].size > b.budget))
            && (forall r: nat :: r < after.table[j].sent ==> Asked(after, j, b.nextRequest, r))
  {
    var job := NewJob(name, pull, content, runs, |Flatten(runs)|);
    WindowFills(b.(table := b.table + [job], jobs := b.jobs + [|b.table|]), |b.table|, b.nextRequest);
  }

  lemma {:induction false} WindowFills(b: Batch, j: JobId, id: nat)
    requires j < |b.table| && !b.table[j].dead && b.table[j].sent <= |b.table[j].runs| && b.nextRequest == id + b.table[j].sent
    requires forall r: nat :: r < b.table[j].sent ==> Asked(b, j, id, r)
    ensures var after, runs := SendWindow(b, j), b.table[j].runs;
            && |after.table| == |b.table| && after.jobs == b.jobs && after.table[j].runs == runs && !after.table[j].dead
            && after.table[j].sent <= |runs|
            && (after.table[j].sent == |runs| || after.table[j].sent >= WINDOW
                || (after.inflightBytes > 0 && after.inflightBytes + runs[after.table[j].sent].size > b.budget))
            && (forall r: nat :: r < after.table[j].sent ==> Asked(after, j, id, r))
    decreases |b.table[j].runs| - b.table[j].sent
  {
    if b.table[j].sent < WINDOW && MaySend(b, j) {
      var c := SendNext(b, j);
      forall r: nat | r < c.table[j].sent ensures Asked(c, j, id, r) {
        if r < b.table[j].sent { assert Asked(b, j, id, r); }
      }
      WindowFills(c, j, id);
    }
  }
}

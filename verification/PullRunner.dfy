/** The pull batch as the object the session drives (internal/node/pull_batch.go pullBatch). */
module PullRunner {
  import opened Entries
  import opened PullFile
  import opened PullPlan
  import opened PullBatch

  /** What can happen to a batch: the loop offers a name, a response arrives, the transport breaks. */
  datatype Event =
    | Offer(name: string, pull: PullState, ghost content: seq<Byte>)
    | Response(id: nat, code: Code, data: seq<Byte>)
    | TransportFailure

  class Runner {
    const k: nat
    const budget: int
    const runBytes: int

    var jobs: seq<JobId>
    var table: seq<Job>
    var inFlight: map<nat, Ref>
    var inflightBytes: int
    var nextRequest: nat
    ghost var largest: int
    ghost var committed: map<JobId, seq<Byte>>

    ghost function State(): Batch
      reads this
    {
      Batch(k, budget, jobs, table, inFlight, inflightBytes, nextRequest, largest, committed)
    }

    ghost predicate Valid()
      reads this
    {
      Inv(State())
    }

    constructor (k: nat, budget: int, runBytes: int, firstRequest: nat)
      ensures Valid() && this.k == k && this.budget == budget && this.runBytes == runBytes
      ensures jobs == [] && inFlight == map[]
    {
      this.k, this.budget, this.runBytes := k, budget, runBytes;
      jobs, table, inFlight, inflightBytes, nextRequest := [], [], map[], 0, firstRequest;
      largest, committed := 0, map[];
      new;
      assert Sizes(State()) == map[];
    }

    method SendNextRun(j: JobId)
      requires j < |table|
      modifies `inFlight, `inflightBytes, `nextRequest, `table, `largest
      ensures State() == SendNext(old(State()), j)
    {
      var job := table[j];
      if job.dead || job.sent >= |job.runs| {
        return;
      }
      var run := job.runs[job.sent];
      if inflightBytes > 0 && inflightBytes + run.size > budget {
        return;
      }
      inFlight := inFlight[nextRequest := Ref(j, job.sent)];
      table := table[j := Sent(job, nextRequest)];
      nextRequest := nextRequest + 1;
      inflightBytes := inflightBytes + run.size;
      largest := Max(largest, run.size);
    }

    /** The window loop of start. */
    method SendFirstRuns(j: JobId)
      requires j < |table|
      modifies `inFlight, `inflightBytes, `nextRequest, `table, `largest
      ensures State() == SendWindow(old(State()), j)
    {
      while table[j].sent < WINDOW && table[j].sent < |table[j].runs|
        invariant j < |table|
        invariant SendWindow(State(), j) == SendWindow(old(State()), j)
        decreases |table[j].runs| - table[j].sent
      {
        var before := table[j].sent;
        SendNextRun(j);
        if table[j].sent == before {
          break;
        }
      }
    }

    /** remove: the first occurrence of the job leaves the live list. */
    method Drop(j: JobId)
      modifies `jobs
      ensures jobs == Without(old(jobs), j)
    {
      for i := 0 to |jobs|
        invariant jobs == old(jobs) && FirstAt(jobs, j, i) == FirstAt(jobs, j, 0)
      {
        if jobs[i] == j {
          jobs := jobs[..i] + jobs[i + 1..];
          return;
        }
      }
    }

    method CompleteJob(j: JobId)
      requires j < |table|
      modifies `jobs, `table, `committed
      ensures State() == Complete(old(State()), j)
    {
      var job := table[j];
      table := table[j := job.(dead := true)];
      Drop(j);
      committed := if AllWritten(job.pull) then committed[j := job.pull.temp] else committed;
    }

    method AbandonJob(j: JobId)
      requires j < |table|
      modifies `jobs, `table
      ensures State() == Abandon(old(State()), j)
    {
      if table[j].dead {
        return;
      }
      table := table[j := table[j].(dead := true)];
      Drop(j);
    }

    method IsActive(name: string) returns (r: bool)
      requires Valid()
      ensures r == Active(State(), name)
    {
      for i := 0 to |jobs|
        invariant forall x :: 0 <= x < i ==> jobs[x] < |table| && table[jobs[x]].name != name
      {
        if table[jobs[i]].name == name {
          return true;
        }
      }
      r := false;
    }

    /** One admission of the run loop: nothing without a free slot or for a name in progress. */
    method StartJob(name: string, pull: PullState, ghost content: seq<Byte>)
      requires Valid() && Sound(pull, content)
      modifies this
      ensures Valid()
      ensures State() == old(State()) ||
              exists runs :: IsPlan(runs, NeedsFrom(pull.info, pull.written, 0), runBytes)
                             && State() == Admit(old(State()), name, pull, content, runs)
      ensures State() == old(State()) ==> |old(jobs)| >= k || Active(old(State()), name)
    {
      var active := IsActive(name);
      if |jobs| >= k || active {
        return;
      }
      var needs := ListNeeds(pull.info, pull.written);
      var runs := PlanPulls(needs, runBytes);
      AdmitKeepsInv(State(), name, pull, content, runs, runBytes);
      var job := NewJob(name, pull, content, runs, |Flatten(runs)|);
      var j := |table|;
      if |runs| == 0 {
        table := table + [job.(dead := true)];
        CompleteJob(j);
      } else {
        table := table + [job];
        jobs := jobs + [j];
        SendFirstRuns(j);
      }
      AdmitGrows(old(State()), name, pull, content, runs);
    }

    /** handle for a response. */
    method HandleResponse(id: nat, code: Code, data: seq<Byte>)
      requires Known(State(), id)
      modifies this
      ensures State() == Handle(old(State()), id, code, data)
    {
      if id !in inFlight {
        return;
      }
      var ref := inFlight[id];
      inFlight := inFlight - {id};
      var job := table[ref.job];
      if job.dead {
        return;
      }
      if code != NoError {
        AbandonJob(ref.job);
        return;
      }
      var run := job.runs[ref.run];
      inflightBytes := Max(0, inflightBytes - run.size);
      if |data| != run.size {
        AbandonJob(ref.job);
        return;
      }
      var pull := ReceiveRun(job.pull, run.needs[0].index, data);
      if pull.None? {
        AbandonJob(ref.job);
        return;
      }
      AcceptRun(ref.job, ref.run, pull.value);
    }

    /** A verified run: count it, then finish the file or ask for more. */
    method AcceptRun(j: JobId, run: nat, pull: PullState)
      requires j < |table| && run < |table[j].runs|
      modifies this
      ensures State() == Accept(old(State()), j, run, pull)
    {
      table := table[j := Answered(table[j], pull, run)];
      if table[j].received == table[j].total {
        CompleteJob(j);
      } else {
        SendNextRun(j);
      }
    }

    /** abortAll: every live pull ends, nothing is committed. */
    method AbortAll()
      requires Valid()
      modifies `jobs, `table
      ensures Valid() && jobs == [] && committed == old(committed)
      ensures |table| == |old(table)|
      ensures forall j :: 0 <= j < |table| ==> table[j].dead && table[j].pull == old(table)[j].pull
    {
      while |jobs| > 0
        invariant Valid() && |table| == |old(table)|
        invariant forall j :: 0 <= j < |table| ==> table[j].pull == old(table)[j].pull
        decreases |jobs|
      {
        var j := jobs[0];
        DeadKeepsInv(State(), j);
        AbandonJob(j);
      }
    }

    method Step(e: Event)
      requires Valid() && (e.Offer? ==> Sound(e.pull, e.content))
      modifies this
      ensures Valid()
    {
      match e {
        case Offer(name, pull, content) => StartJob(name, pull, content);
        case Response(id, code, data) =>
          RequestIsKnown(State(), id);
          HandleKeepsInv(State(), id, code, data);
          HandleResponse(id, code, data);
        case TransportFailure => AbortAll();
      }
    }

    /** Every run of a batch, whatever is offered and however the responses arrive: never more
        than k live jobs, never two under one name, never more bytes owed than the larger of
        the budget and one run, and everything committed is the peer's content. */
    method Drive(events: seq<Event>)
      requires Valid() && forall i :: 0 <= i < |events| && events[i].Offer? ==> Sound(events[i].pull, events[i].content)
      modifies this
      ensures Valid() && |jobs| <= k && Owed(State()) <= Max(budget, largest)
      ensures forall j :: j in committed ==> j < |table| && committed[j] == table[j].content
    {
      for i := 0 to |events|
        invariant Valid()
      {
        Step(events[i]);
      }
      BatchIsBounded(State());
    }
  }

  /** An admission adds a job to the table. */
  lemma AdmitGrows(b: Batch, name: string, pull: PullState, content: seq<Byte>, runs: seq<Run>)
    ensures |Admit(b, name, pull, content, runs).table| == |b.table| + 1
  {
    if runs != [] {
      var job := NewJob(name, pull, content, runs, |Flatten(runs)|);
      WindowKeepsLength(b.(table := b.table + [job], jobs := b.jobs + [|b.table|]), |b.table|);
    }
  }

  lemma {:induction false} WindowKeepsLength(b: Batch, j: JobId)
    requires j < |b.table|
    ensures |SendWindow(b, j).table| == |b.table|
    decreases |b.table[j].runs| - b.table[j].sent
  {
    if b.table[j].sent < WINDOW && MaySend(b, j) {
      WindowKeepsLength(SendNext(b, j), j);
    }
  }
}

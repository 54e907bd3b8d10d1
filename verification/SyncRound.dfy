/** The round as two devices run it, each updating its own index, disk and view. */
module SyncRound {
  import opened Versions
  import opened Entries
  import opened GlobalModel
  import opened Overwrite
  import Joining
  import opened PullFile
  import opened Hashing
  import opened Converge
  import Pending
  import DirState
  import IndexFrames

  class Node {
    const id: U64
    var rows: View
    var disk: map<string, Bytes>
    var view: View
    var archive: set<(string, Bytes)>

    function State(): Device
      reads this
    {
      Device(id, rows, disk, view, archive)
    }

    constructor (d: Device)
      ensures State() == d
    {
      id, rows, disk, view, archive := d.id, d.rows, d.disk, d.view, d.archive;
    }

    method PlanFor(name: string, env: Env) returns (plan: Option<Plan>)
      ensures plan == Converge.PlanFor(State(), name, env)
    {
      plan := MakePlan(Pending.Lookup(rows, name), [view], name, env.policy, env.versioning, id, env.ts);
    }

    /** Execute: archive or move the local copy aside. */
    method Execute(plan: Plan, env: Env) returns (ok: bool)
      modifies `rows, `disk, `archive
      ensures ok <==> Preserved(old(State()), plan, env).Some?
      ensures ok ==> State() == Preserved(old(State()), plan, env).value
      ensures !ok && !plan.archiveLocal ==> State() == old(State())
      ensures ok && plan.makeConflictCopy && !plan.archiveLocal ==> plan.name in old(disk) && KeptAt(State(), plan.conflictName, old(disk)[plan.name])
    {
      if plan.archiveLocal && env.archiveMoves && plan.name in disk {
        archive := archive + {(plan.name, disk[plan.name])};
        disk := disk - {plan.name};
      }
      if plan.makeConflictCopy {
        if plan.name !in disk {
          return false;
        }
        var content := disk[plan.name];
        BestIsSmallest(|content|);
        rows := rows[plan.conflictName := CopyRow(State(), plan.conflictName, content, env.copied)];
        disk := (disk - {plan.name})[plan.conflictName := content];
      }
      ok := true;
    }

    /** applyDeletion for a winner that is not a directory. */
    method ApplyDeletion(name: string, env: Env) returns (done: bool)
      modifies `rows, `disk, `archive
      ensures Outcome(State(), done) == Erased(old(State()), name, env)
    {
      var plan := PlanFor(name, env);
      if plan.None? {
        return false;
      }
      if name in rows && rows[name].deleted && plan.value.delete {
        return true;
      }
      var ok := Execute(plan.value, env);
      if !ok {
        return false;
      }
      disk := disk - {name};
      rows := rows[name := DirState.Tombstone(name, if name in rows then rows[name].version else map[], id)];
      done := true;
    }

    /** StartPull to Finish: the served bytes are committed when they are the listed content. */
    method Fetch(name: string, env: Env, served: Option<Bytes>) returns (done: bool)
      modifies `rows, `disk, `archive
      ensures Outcome(State(), done) == Fetched(old(State()), name, env, served)
    {
      var global, _ := GlobalFrom(Pending.Lookup(rows, name), [view], name);
      if global.None? || global.value.deleted || served.None? || !Describes(global.value, served.value) {
        return false;
      }
      disk := disk[name := served.value];
      rows := rows[name := global.value.(size := |served.value|, modS := env.committed.modS, modNs := env.committed.modNs,
                                         mode := env.committed.mode, sequence := 0)];
      done := true;
    }

    method Start(name: string, env: Env, served: Option<Bytes>) returns (done: bool)
      modifies `rows, `disk, `archive
      ensures Outcome(State(), done) == Started(old(State()), name, env, served)
    {
      var plan := PlanFor(name, env);
      if plan.None? {
        return false;
      }
      var ok := Execute(plan.value, env);
      if !ok {
        return false;
      }
      if plan.value.delete {
        done := ApplyDeletion(name, env);
      } else {
        done := Fetch(name, env, served);
      }
    }

    method Join(name: string, env: Env)
      modifies `rows
      ensures State() == JoinedAt(old(State()), name, env)
    {
      if name in rows && !rows[name].deleted && !rows[name].invalid && env.statHolds {
        var f := Joining.JoinEntry(rows[name], [view]);
        if f.Some? {
          rows := rows[name := f.value];
        }
      }
    }

    method PullAll(name: string, env: Env, served: Option<Bytes>) returns (told: bool)
      modifies `rows, `disk, `archive
      ensures Outcome(State(), told) == Pulled(old(State()), name, env, served)
    {
      Join(name, env);
      var want := Pending.DecidePullFrom(Pending.Plain(), WorldOf(State()), [view], name);
      if !want {
        return false;
      }
      told := Start(name, env, served);
    }
  }

  /** One completed round for one file, initiator first. It ends converged exactly when it
      does not start from one of the two failing families. */
  method Sync(a: Node, b: Node, name: string, ea: Env, eb: Env)
    requires a != b && Ready(a.State(), b.State(), name)
    modifies a, b
    ensures (a.State(), b.State()) == Round(old(a.State()), old(b.State()), name, ea, eb)
    ensures Converged(a.State(), b.State(), name) <==> !Fails(old(a.State()), old(b.State()), name, ea, eb)
  {
    RoundConverges(a.State(), b.State(), name, ea, eb);
    var told := a.PullAll(name, ea, Served(b.State(), name));
    if told && name in a.rows {
      Tell(b, a, name);
    }
    told := b.PullAll(name, eb, Served(a.State(), name));
    if told && name in b.rows {
      Tell(a, b, name);
    }
  }

  /** sendIndexUpdate: push the current row for name. */
  method Tell(to: Node, of: Node, name: string)
    requires to != of && name in of.rows
    modifies to`view
    ensures to.view == old(to.view)[name := IndexFrames.Wire(of.rows[name])]
  {
    to.view := to.view[name := IndexFrames.Wire(of.rows[name])];
  }
}

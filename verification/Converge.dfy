/** One completed round between two send-receive devices, for one hashed file
    (session.go pullAll, pull_batch.go start and complete, engine.go Execute, applyDeletion, Finish). */
module Converge {
  import opened Versions
  import opened Entries
  import opened GlobalModel
  import opened Overwrite
  import Joining
  import opened Hashing
  import opened PullFile
  import Pending
  import DirState
  import IndexFrames
  import ConflictNames

  type Bytes = seq<Byte>

  datatype Stat = Stat(modS: int, modNs: int, mode: int)

  /** A device: its index, its disk, what it knows of the other device's index, and the replaced
      contents in its versions area. */
  datatype Device = Device(id: U64, rows: View, disk: map<string, Bytes>, view: View, archive: set<(string, Bytes)>)

  /** The settings of a device and what the file system answers it during the round: whether a
      stat still matches the index row, whether archiving moves the file away, the formatted
      time of the local entry, the stats reported for a committed file and for a conflict copy. */
  datatype Env = Env(policy: Policy, versioning: bool, statHolds: bool, archiveMoves: bool, ts: string,
                     committed: Stat, copied: Stat)

  function RowAt(d: Device, name: string): Option<FileInfo>
  {
    Pending.Lookup(d.rows, name)
  }

  predicate IsLive(f: Option<FileInfo>)
  {
    f.Some? && !f.value.deleted
  }

  // ---- the operations on values ----

  ghost function PlanFor(d: Device, name: string, env: Env): Option<Plan>
  {
    PlanOverwrite(RowAt(d, name), [d.view], name, env.policy, env.versioning, d.id, env.ts)
  }

  /** The row that indexes a conflict copy: hashed, with a version of its own. */
  function CopyRow(d: Device, copy: string, content: Bytes, stat: Stat): FileInfo
  {
    var bs := BestFrom(|content|, MIN_BLOCK);
    var version: Vector := if copy in d.rows then d.rows[copy].version else map[];
    FileInfo(copy, |content|, stat.modS, stat.modNs, stat.mode, File, false, false, Bump(version, d.id), 0,
             bs, if bs > 0 then Cut(content, bs) else [])
  }

  /** Execute: preserve the local copy. None when the rename to the conflict name fails. */
  function Preserved(d: Device, plan: Plan, env: Env): Option<Device>
  {
    var moves := plan.archiveLocal && env.archiveMoves && plan.name in d.disk;
    var disk := if moves then d.disk - {plan.name} else d.disk;
    if !plan.makeConflictCopy then
      Some(d.(disk := disk, archive := if moves then d.archive + {(plan.name, d.disk[plan.name])} else d.archive))
    else if plan.name !in disk then None
    else
      var content := disk[plan.name];
      Some(d.(disk := (disk - {plan.name})[plan.conflictName := content],
              rows := d.rows[plan.conflictName := CopyRow(d, plan.conflictName, content, env.copied)]))
  }

  /** A device after an operation, and whether it pushed its row to the peer. */
  datatype Outcome = Outcome(device: Device, told: bool)

  /** applyDeletion of a path whose winner is not a directory. */
  ghost function Erased(d: Device, name: string, env: Env): Outcome
  {
    match PlanFor(d, name, env)
    case None => Outcome(d, false)
    case Some(plan) =>
      if name in d.rows && d.rows[name].deleted && plan.delete then Outcome(d, true)
      else match Preserved(d, plan, env)
        case None => Outcome(d, false)
        case Some(e) =>
          var version: Vector := if name in e.rows then e.rows[name].version else map[];
          Outcome(e.(disk := e.disk - {name}, rows := e.rows[name := DirState.Tombstone(name, version, d.id)]), true)
  }

  /** A pull that asks the peer for every block: it commits exactly when what the peer serves
      is the content the entry lists. */
  ghost function Fetched(d: Device, name: string, env: Env, served: Option<Bytes>): Outcome
  {
    match Global(RowAt(d, name), [d.view], name)
    case None => Outcome(d, false)
    case Some(g) =>
      if g.deleted || served.None? || !Describes(g, served.value) then Outcome(d, false)
      else
        var row := g.(size := |served.value|, modS := env.committed.modS, modNs := env.committed.modNs,
                      mode := env.committed.mode, sequence := 0);
        Outcome(d.(disk := d.disk[name := served.value], rows := d.rows[name := row]), true)
  }

  /** start: preserve, then delete or fetch. */
  ghost function Started(d: Device, name: string, env: Env, served: Option<Bytes>): Outcome
  {
    match PlanFor(d, name, env)
    case None => Outcome(d, false)
    case Some(plan) =>
      match Preserved(d, plan, env)
      case None => Outcome(d, false)
      case Some(e) => if plan.delete then Erased(e, name, env) else Fetched(e, name, env, served)
  }

  /** JoinIdentical, at this name. */
  ghost function JoinedAt(d: Device, name: string, env: Env): Device
  {
    if !IsLive(RowAt(d, name)) || d.rows[name].invalid || !env.statHolds then d
    else match Joining.Joined(d.rows[name], [d.view])
      case None => d
      case Some(f) => d.(rows := d.rows[name := f])
  }

  /** The device with its one peer, complete view, nothing in flight. */
  function WorldOf(d: Device): Pending.World
  {
    Pending.World(d.rows, map[0 := d.view], {}, {})
  }

  ghost predicate Wants(d: Device, name: string)
  {
    Pending.PullWanted(Pending.Plain(), WorldOf(d), name)
  }

  /** The device lists the name as upload work. */
  ghost predicate Offers(d: Device, name: string)
  {
    name in Pending.WalkUploads(Pending.Plain(), WorldOf(d))
  }

  /** One side's pull phase. */
  ghost function Pulled(d: Device, name: string, env: Env, served: Option<Bytes>): Outcome
  {
    var j := JoinedAt(d, name, env);
    if Wants(j, name) then Started(j, name, env, served) else Outcome(j, false)
  }

  function Served(d: Device, name: string): Option<Bytes>
  {
    if name in d.disk then Some(d.disk[name]) else None
  }

  function Told(d: Device, o: Outcome, name: string): Device
  {
    if o.told && name in o.device.rows then d.(view := d.view[name := IndexFrames.Wire(o.device.rows[name])]) else d
  }

  /** The initiator pulls while the responder serves, then the other way round. */
  ghost function Round(a: Device, b: Device, name: string, ea: Env, eb: Env): (Device, Device)
  {
    var oa := Pulled(a, name, ea, Served(b, name));
    var ob := Pulled(Told(b, oa, name), name, eb, Served(oa.device, name));
    (Told(oa.device, ob, name), ob.device)
  }

  // ---- what is claimed ----

  /** The row is a file's, and a live row lists the blocks of what is on disk. */
  ghost predicate Sound(d: Device, name: string)
  {
    name in d.rows ==>
      && d.rows[name].name == name && d.rows[name].kind == File
      && (!d.rows[name].deleted ==> name in d.disk && Describes(d.rows[name], d.disk[name]))
  }

  /** d's view of name is what the other device's index holds. */
  predicate Knows(d: Device, other: Device, name: string)
  {
    Pending.Lookup(d.view, name) == match RowAt(other, name) case None => None case Some(f) => Some(IndexFrames.Wire(f))
  }

  ghost predicate Converged(a: Device, b: Device, name: string)
  {
    && (IsLive(RowAt(a, name)) <==> IsLive(RowAt(b, name)))
    && (IsLive(RowAt(a, name)) ==>
          && SameContent(a.rows[name], b.rows[name])
          && name in a.disk && name in b.disk && a.disk[name] == b.disk[name])
    && !Wants(a, name) && !Wants(b, name) && Mirrored(a, name) && Mirrored(b, name)
  }

  /** The peer is known to have a live row's content. */
  ghost predicate Mirrored(d: Device, name: string)
  {
    IsLive(RowAt(d, name)) ==> name in d.view && !d.view[name].deleted && IdenticalContent(d.rows[name], d.view[name])
  }

  /** A live file loses a concurrent conflict against a deletion while conflicts are kept as
      copies: preserving it moves it away, and the second preservation inside applyDeletion
      then fails. */
  ghost predicate Stuck(local: Option<FileInfo>, peer: Option<FileInfo>, env: Env)
  {
    && IsLive(local) && peer.Some? && peer.value.deleted
    && Compare(peer.value.version, local.value.version) == Concurrent && NewerOrGreater(peer.value, local.value)
    && env.policy == ConflictCopy && !env.versioning
    && !SameContent(local.value, peer.value)
  }

  /** Two different contents claim one version. */
  ghost predicate Clash(a: Option<FileInfo>, b: Option<FileInfo>)
  {
    IsLive(a) && IsLive(b) && Compare(a.value.version, b.value.version) == Equal && !SameContent(a.value, b.value)
  }

  // ---- what one side decides ----

  datatype Decision = Nothing | Erase | Adopt

  /** Decided from the two entries alone. */
  ghost function Decide(local: Option<FileInfo>, peer: Option<FileInfo>): Decision
  {
    if peer.None? then Nothing
    else if local.None? then (if peer.value.deleted then Nothing else Adopt)
    else
      var l, p := local.value, peer.value;
      if !Replaces(p, l) then Nothing
      else if l.deleted && p.deleted then Nothing
      else if p.deleted then Erase
      else if l.deleted then Adopt
      else if Compare(p.version, l.version) == Equal || SameContent(l, p) then Nothing
      else Adopt
  }

  lemma WinnerIs(d: Device, name: string)
    ensures Global(RowAt(d, name), [d.view], name) ==
            if name !in d.view then RowAt(d, name)
            else if RowAt(d, name).None? then Some(d.view[name])
            else Some(Pick(d.rows[name], d.view[name]))
  {
    assert [d.view][..0] == [];
    assert Global(RowAt(d, name), [], name) == RowAt(d, name);
  }

  /** Hashed means that equal content is provable. */
  ghost predicate Hashed(f: Option<FileInfo>)
  {
    IsLive(f) ==> f.value.size == 0 || |f.value.blocks| > 0
  }

  lemma WantsIsDecide(d: Device, name: string)
    requires Hashed(RowAt(d, name))
    ensures Wants(d, name) <==> Decide(RowAt(d, name), Pending.Lookup(d.view, name)) != Nothing
    ensures Decide(RowAt(d, name), Pending.Lookup(d.view, name)) != Nothing ==>
              Global(RowAt(d, name), [d.view], name) == Some(d.view[name])
    ensures Decide(RowAt(d, name), Pending.Lookup(d.view, name)) == Erase <==> Wants(d, name) && d.view[name].deleted
  {
    WinnerIs(d, name);
    if name in d.rows {
      LeqReflexive(d.rows[name].version);
    }
  }

  lemma OffersIs(d: Device, name: string)
    ensures Offers(d, name) <==> IsLive(RowAt(d, name)) && Pending.Owed(d.rows[name], d.view, name)
  {
    var w := WorldOf(d);
    assert Pending.Complete([0], {}) == [0] by { assert [0][1..] == []; }
    assert Pending.FullViews(Pending.Plain(), w) == [d.view];
    assert d.view in [d.view];
  }

  /** With faithful views, a device offers what the other lacks, and of what the other has, or had,
      exactly the later versions that it wants. */
  lemma OfferIsWanted(a: Device, b: Device, name: string)
    requires Knows(a, b, name) && Knows(b, a, name) && IsLive(RowAt(a, name))
    ensures name !in b.rows ==> Offers(a, name) && Wants(b, name)
    ensures name in b.rows ==> (Offers(a, name) <==> Compare(a.rows[name].version, b.rows[name].version) == Greater && Wants(b, name))
  {
    OffersIs(a, name);
    WinnerIs(b, name);
  }

  /** What the peer has adopted is not offered any more. */
  lemma NothingOffered(d: Device, name: string)
    requires Mirrored(d, name)
    ensures !Offers(d, name)
  {
    OffersIs(d, name);
  }

  // ---- one phase ----

  /** A join leaves everything but the version (and the sequence) of a row with identical content. */
  ghost predicate Rejoined(l: FileInfo, f: FileInfo)
  {
    f == l.(version := f.version, sequence := f.sequence)
  }

  lemma JoinTouchesTwinsOnly(d: Device, name: string, env: Env)
    requires Sound(d, name)
    ensures JoinedAt(d, name, env) == d ||
            (&& IsLive(RowAt(d, name)) && name in d.view && !d.view[name].deleted && IdenticalContent(d.rows[name], d.view[name])
             && exists f :: Rejoined(d.rows[name], f) && JoinedAt(d, name, env) == d.(rows := d.rows[name := f]))
  {
    var j := JoinedAt(d, name, env);
    if j != d {
      var f := Joining.Joined(d.rows[name], [d.view]).value;
      assert d.view in [d.view] && Rejoined(d.rows[name], f);
      assert forall v :: v in [d.view] ==> v == d.view;
    }
  }

  /** Nothing wanted: at most the vector changes, and only between identical copies. */
  lemma IdlePhase(d: Device, name: string, env: Env, served: Option<Bytes>)
    requires Sound(d, name) && Decide(RowAt(d, name), Pending.Lookup(d.view, name)) == Nothing
    ensures var o := Pulled(d, name, env, served);
            && !o.told && o.device.disk == d.disk && o.device.view == d.view
            && (o.device == d || (&& IsLive(RowAt(d, name)) && IsLive(RowAt(o.device, name)) && name in d.view && !d.view[name].deleted
                                  && env.statHolds && !d.rows[name].invalid && !d.view[name].invalid
                                  && IdenticalContent(d.rows[name], d.view[name]) && Rejoined(d.rows[name], o.device.rows[name])))
  {
    JoinTouchesTwinsOnly(d, name, env);
    var j := JoinedAt(d, name, env);
    WantsIsDecide(j, name);
  }

  /** What the plan says when the peer's entry wins. */
  lemma PlanIs(d: Device, name: string, env: Env)
    requires Sound(d, name) && Decide(RowAt(d, name), Pending.Lookup(d.view, name)) != Nothing
    ensures var plan, local, p := PlanFor(d, name, env), RowAt(d, name), d.view[name];
            var copy := IsLive(local) && IsConflict(local.value, p) && env.policy == ConflictCopy && !env.versioning;
            && plan.Some? && plan.value.name == name && plan.value.global == p && plan.value.delete == p.deleted
            && plan.value.makeConflictCopy == copy
            && (copy ==> plan.value.conflictName == ConflictNames.ConflictName(name, env.ts, d.id) && !plan.value.archiveLocal)
  {
    WantsIsDecide(d, name);
  }

  /** The row at path comes after what was there before, up to the wrap of the device's counter,
      and then no device that still has the old row or an older one brings it back. */
  ghost predicate ComesAfter(before: View, after: View, path: string, device: U64)
    requires path in after
  {
    var v := DirState.VersionAt(before, path);
    && (Compare(after[path].version, v) == Greater <==> Get(v, device) < MAX_U64)
    && (Get(v, device) < MAX_U64 ==> Prevails(after[path], path, v))
  }

  lemma BumpComesAfter(before: View, after: View, path: string, device: U64)
    requires path in after && after[path].version == Bump(DirState.VersionAt(before, path), device)
    ensures ComesAfter(before, after, path, device)
  {
    var v := DirState.VersionAt(before, path);
    BumpIsAbove(v, device);
    if Get(v, device) < MAX_U64 { LaterPrevails(after[path], path, v); }
  }

  /** With versioning, unless the archive fails, the content that was replaced is in the versions area. */
  ghost predicate Archives(d: Device, e: Device, name: string, env: Env)
  {
    d.archive <= e.archive && (env.versioning && env.archiveMoves && name in d.disk && IsLive(RowAt(d, name)) ==> (name, d.disk[name]) in e.archive)
  }

  /** A deletion that wins without a conflict copy leaves a tombstone that comes after the deleted
      row, and says so. */
  lemma ErasePhase(d: Device, name: string, env: Env, served: Option<Bytes>)
    requires Sound(d, name) && Decide(RowAt(d, name), Pending.Lookup(d.view, name)) == Erase
    requires !Stuck(RowAt(d, name), Pending.Lookup(d.view, name), env)
    ensures var o := Pulled(d, name, env, served);
            && o.told && o.device.view == d.view && name in o.device.rows
            && o.device.rows[name].deleted && name !in o.device.disk && Archives(d, o.device, name, env)
            && ComesAfter(d.rows, o.device.rows, name, d.id)
  {
    WantsIsDecide(d, name);
    PlanIs(d, name, env);
    var e := Preserved(d, PlanFor(d, name, env).value, env).value;
    assert e.rows == d.rows && e.view == d.view;
    assert PlanFor(e, name, env) == PlanFor(d, name, env);
    BumpComesAfter(d.rows, Pulled(d, name, env, served).device.rows, name, d.id);
  }

  /** A deletion that wins a conflict kept as a copy is never recorded: the file has moved to
      the conflict name, its row stays live, and the peer is not told. */
  lemma StuckPhase(d: Device, name: string, env: Env, served: Option<Bytes>)
    requires Sound(d, name) && Stuck(RowAt(d, name), Pending.Lookup(d.view, name), env)
    ensures var o := Pulled(d, name, env, served);
            && !o.told && o.device.view == d.view && name in o.device.rows && o.device.rows[name] == d.rows[name]
            && name !in o.device.disk
  {
    assert Decide(RowAt(d, name), Pending.Lookup(d.view, name)) == Erase;
    WantsIsDecide(d, name);
    PlanIs(d, name, env);
    ConflictNames.CopyIsElsewhere(name, env.ts, d.id);
    var e := Preserved(d, PlanFor(d, name, env).value, env).value;
    assert RowAt(e, name) == RowAt(d, name);
    assert PlanFor(e, name, env) == PlanFor(d, name, env);
  }

  /** An adopted row: the peer's entry under the stat the file system reports. */
  ghost predicate Adopted(f: FileInfo, p: FileInfo)
  {
    && f.version == p.version && f.deleted == p.deleted && f.kind == p.kind && f.size == p.size
    && f.blocks == p.blocks && f.blockSize == p.blockSize && f.name == p.name
  }

  /** A pull adopts the peer's entry and content; the loser of a conflict kept as a copy is on
      disk under the conflict name, indexed with its own block hashes. */
  lemma AdoptPhase(d: Device, name: string, env: Env, content: Bytes)
    requires Sound(d, name) && Decide(RowAt(d, name), Pending.Lookup(d.view, name)) == Adopt
    requires Describes(d.view[name], content)
    ensures var o := Pulled(d, name, env, Some(content));
            && o.told && o.device.view == d.view && name in o.device.rows
            && Adopted(o.device.rows[name], d.view[name]) && name in o.device.disk && o.device.disk[name] == content
            && StatOf(o.device.rows[name]) == env.committed && Archives(d, o.device, name, env)
            && (IsLive(RowAt(d, name)) && Compare(d.rows[name].version, d.view[name].version) == Concurrent
                && env.policy == ConflictCopy && !env.versioning ==>
                  KeptAt(o.device, ConflictNames.ConflictName(name, env.ts, d.id), d.disk[name])
                  && ComesAfter(d.rows, o.device.rows, ConflictNames.ConflictName(name, env.ts, d.id), d.id))
  {
    WantsIsDecide(d, name);
    PlanIs(d, name, env);
    ConflictNames.CopyIsElsewhere(name, env.ts, d.id);
    var plan := PlanFor(d, name, env).value;
    var e := Preserved(d, plan, env).value;
    assert RowAt(e, name) == RowAt(d, name) && e.view == d.view;
    if IsLive(RowAt(d, name)) {
      if plan.makeConflictCopy {
        BestIsSmallest(|d.disk[name]|);
        BumpComesAfter(d.rows, Pulled(d, name, env, Some(content)).device.rows, plan.conflictName, d.id);
      }
    }
  }

  function StatOf(f: FileInfo): Stat
  {
    Stat(f.modS, f.modNs, f.mode)
  }

  /** Bytes that are not the listed content are not committed: the row stays as it was, and the
      peer is not told. */
  lemma WrongBytesAreRefused(d: Device, name: string, env: Env, served: Option<Bytes>)
    requires Sound(d, name) && Decide(RowAt(d, name), Pending.Lookup(d.view, name)) == Adopt
    requires served.None? || !Describes(d.view[name], served.value)
    ensures var o := Pulled(d, name, env, served);
            && !o.told && RowAt(o.device, name) == RowAt(d, name)
            && (name in o.device.disk ==> name in d.disk && o.device.disk[name] == d.disk[name])
  {
    WantsIsDecide(d, name);
    PlanIs(d, name, env);
    ConflictNames.CopyIsElsewhere(name, env.ts, d.id);
    var e := Preserved(d, PlanFor(d, name, env).value, env).value;
    assert RowAt(e, name) == RowAt(d, name) && e.view == d.view;
  }

  /** Copies with provably the same bytes end a phase with a vector that has seen both, if the row
      is valid on both sides and a stat still matches it. */
  lemma TwinsAreJoined(d: Device, name: string, env: Env, served: Option<Bytes>)
    requires Sound(d, name) && IsLive(RowAt(d, name)) && name in d.view && d.view[name].name == name
    requires Joining.Twins(d.rows[name], d.view[name]) && env.statHolds
    ensures var o := Pulled(d, name, env, served);
            && name in o.device.rows && SameContent(o.device.rows[name], d.rows[name])
            && Leq(d.rows[name].version, o.device.rows[name].version) && Leq(d.view[name].version, o.device.rows[name].version)
  {
    var row, v := d.rows[name], [d.view];
    Joining.JoinExactly(row, v);
    assert d.view in v && Joining.HasBytes(d.view, row) && forall w :: w in v ==> w == d.view;
    LeqReflexive(row.version);
    var j := JoinedAt(d, name, env);
    assert name in j.rows && Leq(d.view[name].version, j.rows[name].version);
    WantsIsDecide(j, name);
  }

  /** The bytes are on disk at this path and a live row describes them. */
  ghost predicate KeptAt(d: Device, path: string, content: Bytes)
  {
    && path in d.disk && d.disk[path] == content
    && path in d.rows && !d.rows[path].deleted && Describes(d.rows[path], content)
  }

  // ---- both phases ----

  /** When neither side does anything they agree already, or two contents claim one version. */
  lemma NothingMeansAgreement(a: Option<FileInfo>, b: Option<FileInfo>)
    requires Decide(a, b) == Nothing && Decide(b, a) == Nothing
    ensures (!IsLive(a) && !IsLive(b)) || (IsLive(a) && IsLive(b) && (SameContent(a.value, b.value) || Clash(a, b)))
  {
    if a.Some? && b.Some? {
      if Compare(a.value.version, b.value.version) == Concurrent {
        LeqReflexive(a.value.version);
        ExactlyOneWins(a.value, b.value);
      }
    }
  }

  lemma OneSideActs(a: Option<FileInfo>, b: Option<FileInfo>)
    ensures Decide(a, b) == Nothing || Decide(b, a) == Nothing
    ensures Decide(a, b) != Nothing ==> !Clash(a, b) && !Clash(b, a)
    ensures Clash(a, b) <==> Clash(b, a)
  {
    if a.Some? && b.Some? {
      if Compare(a.value.version, b.value.version) == Concurrent {
        LeqReflexive(a.value.version);
        ExactlyOneWins(a.value, b.value);
      }
    }
  }

  /** The bytes an entry lists are determined by its block list, whatever the block size. */
  lemma SameContentSameBytes(f: FileInfo, x: Bytes, g: FileInfo, y: Bytes)
    requires Describes(f, x) && Describes(g, y) && SameContent(f, g)
    ensures x == y
  {
    Unhash(x, f.blockSize);
    Unhash(y, g.blockSize);
  }

  function Joined(blocks: seq<Digest>): Bytes
  {
    if blocks == [] then [] else blocks[0].of + Joined(blocks[1..])
  }

  lemma {:induction false} Unhash(x: Bytes, bs: nat)
    requires bs > 0
    ensures Joined(Cut(x, bs)) == x
    decreases |x|
  {
    if |x| > bs {
      Unhash(x[bs..], bs);
      assert Cut(x, bs)[1..] == Cut(x[bs..], bs);
    } else if x != [] {
      assert Joined([HashBytes(x)]) == x + Joined([]);
    }
  }

  /** Both sides' starting point. */
  ghost predicate Ready(a: Device, b: Device, name: string)
  {
    Sound(a, name) && Sound(b, name) && Knows(a, b, name) && Knows(b, a, name)
  }

  ghost predicate Fails(a: Device, b: Device, name: string, ea: Env, eb: Env)
  {
    var x, y := RowAt(a, name), RowAt(b, name);
    Stuck(x, y, ea) || Stuck(y, x, eb) || Clash(x, y)
  }

  /** Decisions do not read sequence numbers. */
  lemma WireDecides(a: Device, b: Device, name: string)
    requires Knows(a, b, name)
    ensures Decide(RowAt(a, name), Pending.Lookup(a.view, name)) == Decide(RowAt(a, name), RowAt(b, name))
  {
  }

  /** A device with nothing to decide wants nothing, before and after its phase. */
  lemma IdleWantsNothing(d: Device, name: string, env: Env, served: Option<Bytes>)
    requires Sound(d, name) && Decide(RowAt(d, name), Pending.Lookup(d.view, name)) == Nothing
    ensures !Wants(d, name) && !Wants(Pulled(d, name, env, served).device, name)
  {
    IdlePhase(d, name, env, served);
    WantsIsDecide(d, name);
    var e := Pulled(d, name, env, served).device;
    if e != d {
      WantsIsDecide(e, name);
    }
  }

  lemma FirstAdopts(a: Device, b: Device, name: string, ea: Env, eb: Env)
    requires Ready(a, b, name) && Decide(RowAt(a, name), RowAt(b, name)) == Adopt
    ensures var r := Round(a, b, name, ea, eb);
            Converged(r.0, r.1, name)
  {
    WireDecides(a, b, name);
    AdoptPhase(a, name, ea, b.disk[name]);
    var oa := Pulled(a, name, ea, Served(b, name));
    var b1 := Told(b, oa, name);
    IdlePhase(b1, name, eb, Served(oa.device, name));
    IdleWantsNothing(b1, name, eb, Served(oa.device, name));
    WantsIsDecide(oa.device, name);
  }

  lemma FirstErases(a: Device, b: Device, name: string, ea: Env, eb: Env)
    requires Ready(a, b, name) && Decide(RowAt(a, name), RowAt(b, name)) == Erase
    requires !Stuck(RowAt(a, name), RowAt(b, name), ea)
    ensures var r := Round(a, b, name, ea, eb);
            Converged(r.0, r.1, name)
  {
    WireDecides(a, b, name);
    ErasePhase(a, name, ea, Served(b, name));
    var oa := Pulled(a, name, ea, Served(b, name));
    var b1 := Told(b, oa, name);
    IdlePhase(b1, name, eb, Served(oa.device, name));
    IdleWantsNothing(b1, name, eb, Served(oa.device, name));
    WantsIsDecide(oa.device, name);
  }

  lemma FirstSticks(a: Device, b: Device, name: string, ea: Env, eb: Env)
    requires Ready(a, b, name) && Stuck(RowAt(a, name), RowAt(b, name), ea)
    ensures var r := Round(a, b, name, ea, eb);
            !Converged(r.0, r.1, name)
  {
    WireDecides(a, b, name);
    StuckPhase(a, name, ea, Served(b, name));
    var oa := Pulled(a, name, ea, Served(b, name));
    OneSideActs(RowAt(a, name), RowAt(b, name));
    WireDecides(b, a, name);
    IdlePhase(b, name, eb, Served(oa.device, name));
  }

  /** The first side has nothing to do: at most its vector is joined, and then both have
      identical content. */
  lemma FirstIsIdle(a: Device, b: Device, name: string, ea: Env, eb: Env)
    requires Ready(a, b, name) && Decide(RowAt(a, name), RowAt(b, name)) == Nothing
    ensures var oa := Pulled(a, name, ea, Served(b, name));
            && Told(b, oa, name) == b && oa.device.view == a.view && oa.device.disk == a.disk
            && (oa.device == a || (Decide(RowAt(b, name), RowAt(a, name)) == Nothing
                                   && IsLive(RowAt(a, name)) && IsLive(RowAt(b, name)) && SameContent(a.rows[name], b.rows[name])
                                   && IsLive(RowAt(oa.device, name)) && Rejoined(a.rows[name], oa.device.rows[name])))
            && !Wants(oa.device, name)
  {
    WireDecides(a, b, name);
    IdlePhase(a, name, ea, Served(b, name));
    IdleWantsNothing(a, name, ea, Served(b, name));
    var oa := Pulled(a, name, ea, Served(b, name));
  }

  lemma SecondSticks(a: Device, b: Device, name: string, ea: Env, eb: Env)
    requires Ready(a, b, name) && Decide(RowAt(a, name), RowAt(b, name)) == Nothing && Stuck(RowAt(b, name), RowAt(a, name), eb)
    ensures var r := Round(a, b, name, ea, eb);
            !Converged(r.0, r.1, name)
  {
    FirstIsIdle(a, b, name, ea, eb);
    WireDecides(b, a, name);
    StuckPhase(b, name, eb, Served(a, name));
  }

  lemma SecondErases(a: Device, b: Device, name: string, ea: Env, eb: Env)
    requires Ready(a, b, name) && Decide(RowAt(a, name), RowAt(b, name)) == Nothing
    requires Decide(RowAt(b, name), RowAt(a, name)) == Erase && !Stuck(RowAt(b, name), RowAt(a, name), eb)
    ensures var r := Round(a, b, name, ea, eb);
            Converged(r.0, r.1, name)
  {
    FirstIsIdle(a, b, name, ea, eb);
    WireDecides(b, a, name);
    var ob := Pulled(b, name, eb, Served(a, name));
    ErasePhase(b, name, eb, Served(a, name));
    WantsIsDecide(Told(a, ob, name), name);
    WantsIsDecide(ob.device, name);
  }

  lemma SecondAdopts(a: Device, b: Device, name: string, ea: Env, eb: Env)
    requires Ready(a, b, name) && Decide(RowAt(a, name), RowAt(b, name)) == Nothing
    requires Decide(RowAt(b, name), RowAt(a, name)) == Adopt
    ensures var r := Round(a, b, name, ea, eb);
            Converged(r.0, r.1, name)
  {
    FirstIsIdle(a, b, name, ea, eb);
    WireDecides(b, a, name);
    var ob := Pulled(b, name, eb, Served(a, name));
    AdoptPhase(b, name, eb, a.disk[name]);
    WantsIsDecide(Told(a, ob, name), name);
    WantsIsDecide(ob.device, name);
  }

  /** What an idle phase leaves: the device, or its row with another vector. */
  ghost predicate Idled(d: Device, e: Device, name: string)
  {
    && e.disk == d.disk && e.view == d.view
    && (e == d || (IsLive(RowAt(d, name)) && IsLive(RowAt(e, name)) && Rejoined(d.rows[name], e.rows[name])))
  }

  lemma BothIdled(a: Device, b: Device, name: string, ea: Env, eb: Env)
    requires Ready(a, b, name) && Decide(RowAt(a, name), RowAt(b, name)) == Nothing
    requires Decide(RowAt(b, name), RowAt(a, name)) == Nothing
    ensures var r := Round(a, b, name, ea, eb);
            Idled(a, r.0, name) && Idled(b, r.1, name) && !Wants(r.0, name) && !Wants(r.1, name)
  {
    FirstIsIdle(a, b, name, ea, eb);
    WireDecides(b, a, name);
    var oa := Pulled(a, name, ea, Served(b, name));
    IdlePhase(b, name, eb, Served(oa.device, name));
    IdleWantsNothing(b, name, eb, Served(oa.device, name));
  }

  lemma BothIdle(a: Device, b: Device, name: string, ea: Env, eb: Env)
    requires Ready(a, b, name) && Decide(RowAt(a, name), RowAt(b, name)) == Nothing
    requires Decide(RowAt(b, name), RowAt(a, name)) == Nothing
    ensures var r := Round(a, b, name, ea, eb);
            Converged(r.0, r.1, name) <==> !Clash(RowAt(a, name), RowAt(b, name))
  {
    BothIdled(a, b, name, ea, eb);
    var r := Round(a, b, name, ea, eb);
    IdledConverge(a, b, r.0, r.1, name);
  }

  lemma IdledConverge(a: Device, b: Device, c: Device, d: Device, name: string)
    requires Ready(a, b, name) && Decide(RowAt(a, name), RowAt(b, name)) == Nothing
    requires Decide(RowAt(b, name), RowAt(a, name)) == Nothing
    requires Idled(a, c, name) && Idled(b, d, name) && !Wants(c, name) && !Wants(d, name)
    ensures Converged(c, d, name) <==> !Clash(RowAt(a, name), RowAt(b, name))
  {
    NothingMeansAgreement(RowAt(a, name), RowAt(b, name));
    if IsLive(RowAt(a, name)) && SameContent(a.rows[name], b.rows[name]) {
      SameContentSameBytes(a.rows[name], a.disk[name], b.rows[name], b.disk[name]);
    }
  }

  /** One completed round from any pair of absent, live or tombstoned rows of a hashed file:
      both sides end not live, or live with the same content, and neither wants anything more,
      exactly when no live file loses a conflict to a deletion under conflict copies and no two
      contents claim one version. */
  lemma RoundConverges(a: Device, b: Device, name: string, ea: Env, eb: Env)
    requires Ready(a, b, name)
    ensures var r := Round(a, b, name, ea, eb);
            && (Converged(r.0, r.1, name) <==> !Fails(a, b, name, ea, eb))
            && (Converged(r.0, r.1, name) ==> !Offers(r.0, name) && !Offers(r.1, name))
  {
    var x, y := RowAt(a, name), RowAt(b, name);
    var r := Round(a, b, name, ea, eb);
    if Converged(r.0, r.1, name) {
      NothingOffered(r.0, name);
      NothingOffered(r.1, name);
    }
    OneSideActs(x, y);
    OneSideActs(y, x);
    if Decide(x, y) == Adopt {
      FirstAdopts(a, b, name, ea, eb);
    } else if Stuck(x, y, ea) {
      FirstSticks(a, b, name, ea, eb);
    } else if Decide(x, y) == Erase {
      FirstErases(a, b, name, ea, eb);
    } else if Stuck(y, x, eb) {
      SecondSticks(a, b, name, ea, eb);
    } else if Decide(y, x) == Erase {
      SecondErases(a, b, name, ea, eb);
    } else if Decide(y, x) == Adopt {
      SecondAdopts(a, b, name, ea, eb);
    } else {
      BothIdle(a, b, name, ea, eb);
    }
  }

  /** Live entries have a positive modification time and tombstones none. */
  predicate Dated(f: Option<FileInfo>)
  {
    f.Some? ==> if f.value.deleted then f.value.modS == 0 && f.value.modNs == 0 else Stamp(f.value) > 0
  }

  ghost predicate OneEntryPerVersion(x: Option<FileInfo>, y: Option<FileInfo>)
  {
    x.Some? && y.Some? && Compare(x.value.version, y.value.version) == Equal ==> SameContent(x.value, y.value)
  }

  lemma DatedNeverSticks(x: Option<FileInfo>, y: Option<FileInfo>, env: Env)
    requires Dated(x) && Dated(y)
    ensures !Stuck(x, y, env)
  {
  }

  /** With positive modification times on live entries, none on tombstones, and equal vectors
      only on equal entries, every round converges. */
  lemma DatedRoundConverges(a: Device, b: Device, name: string, ea: Env, eb: Env)
    requires Ready(a, b, name) && Dated(RowAt(a, name)) && Dated(RowAt(b, name))
    requires OneEntryPerVersion(RowAt(a, name), RowAt(b, name))
    ensures var r := Round(a, b, name, ea, eb);
            Converged(r.0, r.1, name)
  {
    RoundConverges(a, b, name, ea, eb);
    DatedNeverSticks(RowAt(a, name), RowAt(b, name), ea);
    DatedNeverSticks(RowAt(b, name), RowAt(a, name), eb);
  }

  /** A real conflict: both live, neither version saw the other, different content. */
  ghost predicate Conflict(x: Option<FileInfo>, y: Option<FileInfo>)
  {
    IsLive(x) && IsLive(y) && Compare(x.value.version, y.value.version) == Concurrent && !SameContent(x.value, y.value)
  }

  predicate KeepsCopies(env: Env)
  {
    env.policy == ConflictCopy && !env.versioning
  }

  /** The loser's bytes are kept at the copy's path and the winner's where they were. */
  ghost predicate BothKept(loser: Device, copy: string, lost: Bytes, winner: Device, name: string, won: Bytes)
  {
    KeptAt(loser, copy, lost) && name in winner.disk && winner.disk[name] == won
  }

  lemma FirstLoses(a: Device, b: Device, name: string, ea: Env, eb: Env)
    requires Ready(a, b, name) && Conflict(RowAt(a, name), RowAt(b, name)) && KeepsCopies(ea)
    requires Decide(RowAt(a, name), RowAt(b, name)) == Adopt
    ensures var r := Round(a, b, name, ea, eb);
            BothKept(r.0, ConflictNames.ConflictName(name, ea.ts, a.id), a.disk[name], r.1, name, b.disk[name])
  {
    WireDecides(a, b, name);
    AdoptPhase(a, name, ea, b.disk[name]);
    var oa := Pulled(a, name, ea, Served(b, name));
    IdlePhase(Told(b, oa, name), name, eb, Served(oa.device, name));
  }

  lemma SecondLoses(a: Device, b: Device, name: string, ea: Env, eb: Env)
    requires Ready(a, b, name) && Conflict(RowAt(b, name), RowAt(a, name)) && KeepsCopies(eb)
    requires Decide(RowAt(a, name), RowAt(b, name)) == Nothing && Decide(RowAt(b, name), RowAt(a, name)) == Adopt
    ensures var r := Round(a, b, name, ea, eb);
            BothKept(r.1, ConflictNames.ConflictName(name, eb.ts, b.id), b.disk[name], r.0, name, a.disk[name])
  {
    FirstIsIdle(a, b, name, ea, eb);
    WireDecides(b, a, name);
    AdoptPhase(b, name, eb, a.disk[name]);
  }

  /** The loser of a real conflict survives: whichever device gives way keeps its bytes under
      its conflict name, on disk and as a live, hashed row, and the winner's bytes stay. */
  lemma LoserSurvives(a: Device, b: Device, name: string, ea: Env, eb: Env)
    requires Ready(a, b, name) && Conflict(RowAt(a, name), RowAt(b, name)) && KeepsCopies(ea) && KeepsCopies(eb)
    ensures var r := Round(a, b, name, ea, eb);
            if NewerOrGreater(b.rows[name], a.rows[name]) then
              BothKept(r.0, ConflictNames.ConflictName(name, ea.ts, a.id), a.disk[name], r.1, name, b.disk[name])
            else
              BothKept(r.1, ConflictNames.ConflictName(name, eb.ts, b.id), b.disk[name], r.0, name, a.disk[name])
  {
    ConflictDecides(RowAt(a, name), RowAt(b, name));
    if NewerOrGreater(b.rows[name], a.rows[name]) {
      FirstLoses(a, b, name, ea, eb);
    } else {
      SecondLoses(a, b, name, ea, eb);
    }
  }

  /** With versioning, unless the archive fails, the content a round replaces or deletes is in the
      versions area of the device that had it. */
  lemma ReplacedIsArchived(a: Device, b: Device, name: string, ea: Env, eb: Env)
    requires Ready(a, b, name)
    ensures var r := Round(a, b, name, ea, eb);
            && (IsLive(RowAt(a, name)) && Decide(RowAt(a, name), RowAt(b, name)) != Nothing && ea.versioning && ea.archiveMoves ==>
                  (name, a.disk[name]) in r.0.archive)
            && (IsLive(RowAt(b, name)) && Decide(RowAt(b, name), RowAt(a, name)) != Nothing && eb.versioning && eb.archiveMoves ==>
                  (name, b.disk[name]) in r.1.archive)
  {
    OneSideActs(RowAt(a, name), RowAt(b, name));
    WireDecides(a, b, name);
    WireDecides(b, a, name);
    if Decide(RowAt(a, name), RowAt(b, name)) != Nothing && ea.versioning {
      PhaseArchives(a, b, name, ea);
    }
    if Decide(RowAt(b, name), RowAt(a, name)) != Nothing && eb.versioning {
      FirstIsIdle(a, b, name, ea, eb);
      PhaseArchives(b, a, name, eb);
    }
  }

  lemma PhaseArchives(d: Device, other: Device, name: string, env: Env)
    requires Ready(d, other, name) && Decide(RowAt(d, name), RowAt(other, name)) != Nothing && env.versioning
    ensures Archives(d, Pulled(d, name, env, Served(other, name)).device, name, env)
  {
    WireDecides(d, other, name);
    if Decide(RowAt(d, name), RowAt(other, name)) == Erase {
      ErasePhase(d, name, env, Served(other, name));
    } else {
      AdoptPhase(d, name, env, other.disk[name]);
    }
  }

  lemma ConflictDecides(x: Option<FileInfo>, y: Option<FileInfo>)
    requires Conflict(x, y)
    ensures Conflict(y, x)
    ensures if NewerOrGreater(y.value, x.value) then Decide(x, y) == Adopt
            else Decide(x, y) == Nothing && Decide(y, x) == Adopt
  {
    LeqReflexive(x.value.version);
    ExactlyOneWins(x.value, y.value);
  }

  function OldFile(): FileInfo
  {
    FileInfo("f", 1, -1, 0, 0, File, false, false, map[1 := 1], 0, 1, [HashBytes([7])])
  }

  lemma SeparateEditsAreConcurrent(v: Vector, o: Vector)
    requires v == Bump(map[], 2) && o == map[1 := 1]
    ensures Compare(v, o) == Concurrent
  {
    assert Get(o, 1) == 1 && Get(v, 1) == 0 && Get(o, 2) == 0 && Get(v, 2) == 1;
  }

  /** A file and a concurrent deletion of it. */
  lemma OldFileSticks(a: Device, b: Device, y: FileInfo, e: Env)
    requires y == DirState.Tombstone("f", map[], 2) && e.policy == ConflictCopy && !e.versioning
    requires a == Device(1, map["f" := OldFile()], map["f" := [7]], map["f" := y], {})
    requires b == Device(2, map["f" := y], map[], map["f" := OldFile()], {})
    ensures Sticks("f")
  {
    assert Cut([7], 1) == [HashBytes([7])];
    assert Ready(a, b, "f");
    SeparateEditsAreConcurrent(y.version, OldFile().version);
    assert Stuck(Some(OldFile()), Some(y), e);
    RoundConverges(a, b, "f", e, e);
  }

  /** Some round over this name does not converge. */
  ghost predicate Sticks(name: string)
  {
    exists a: Device, b: Device, ea: Env, eb: Env ::
      Ready(a, b, name) && !Converged(Round(a, b, name, ea, eb).0, Round(a, b, name, ea, eb).1, name)
  }

  /** A file dated before 1970 against a concurrent deletion: after the round one side still
      has a live row. */
  lemma RoundCanStick()
    ensures Sticks("f")
  {
    var y := DirState.Tombstone("f", map[], 2);
    var a := Device(1, map["f" := OldFile()], map["f" := [7]], map["f" := y], {});
    var b := Device(2, map["f" := y], map[], map["f" := OldFile()], {});
    OldFileSticks(a, b, y, Env(ConflictCopy, false, true, false, "19691231-235959", Stat(0, 0, 0), Stat(0, 0, 0)));
  }

  /** The rename to a conflict name takes the place of whatever was there: an earlier copy of the
      same path, second and device is gone unless some other path holds the same bytes. */
  lemma EarlierCopyIsOverwritten(d: Device, plan: Plan, env: Env)
    requires plan.makeConflictCopy && !plan.archiveLocal && plan.name in d.disk && plan.conflictName != plan.name
    ensures var e := Preserved(d, plan, env);
            && e.Some? && plan.conflictName in e.value.disk && e.value.disk[plan.conflictName] == d.disk[plan.name]
            && (plan.conflictName in d.disk && d.disk[plan.conflictName] != d.disk[plan.name] ==>
                  forall p :: p in e.value.disk && e.value.disk[p] == d.disk[plan.conflictName] ==>
                    p != plan.conflictName && p in d.disk && d.disk[p] == d.disk[plan.conflictName])
  {
  }

  /** Two devices never give their copies one name, as long as their formatted times have one length. */
  lemma OtherDeviceOtherName(name: string, ts: string, other: string, device: U64, device': U64)
    requires |ts| == |other| && device != device'
    ensures ConflictNames.ConflictName(name, ts, device) != ConflictNames.ConflictName(name, other, device')
  {
    var base, ext := ConflictNames.Base(name) + ConflictNames.SUFFIX + "-", ConflictNames.Ext(name);
    var x, y := ts + "-" + ConflictNames.Decimal(device), other + "-" + ConflictNames.Decimal(device');
    assert ConflictNames.ConflictName(name, ts, device) == base + x + ext;
    assert ConflictNames.ConflictName(name, other, device') == base + y + ext;
    if base + x + ext == base + y + ext {
      assert |x| == |y| && x == (base + x + ext)[|base|..|base| + |x|];
      assert ConflictNames.Decimal(device) == x[|ts| + 1..] == y[|other| + 1..];
      ConflictNames.DecimalInjective(device, device');
    }
  }

  /** Two conflicts of one path on one device share a conflict name exactly when their formatted
      times agree. */
  lemma SameSecondSameCopy(name: string, ts: string, other: string, device: U64)
    ensures ConflictNames.ConflictName(name, ts, device) == ConflictNames.ConflictName(name, other, device) <==> ts == other
  {
    var base, ext, end := ConflictNames.Base(name), ConflictNames.Ext(name), "-" + ConflictNames.Decimal(device);
    var a, b := base + ConflictNames.SUFFIX + "-", end + ext;
    assert ConflictNames.ConflictName(name, ts, device) == a + ts + b;
    assert ConflictNames.ConflictName(name, other, device) == a + other + b;
    if a + ts + b == a + other + b {
      assert |ts| == |other|;
      assert ts == (a + ts + b)[|a|..|a| + |ts|];
    }
  }
}

/** What every run of the blob store keeps, crashes and restarts included. */
module BlobSafety {
  import opened BlobTables
  import opened BlobMachine

  /** While every row has its file, so has every reference. */
  lemma CoveredIsSafe(s: State)
    requires Sound(s.disk.tables) && Covered(s.disk)
    ensures Safe(s)
  {
  }

  /** A collection in progress has unlinked only blobs whose references have all
      expired. */
  lemma CollectingIsSafe(s: State, now: int, tx: Tables)
    requires now <= s.clock && Sound(tx) && tx.rows.Keys <= s.disk.files.Keys && Pending(s.disk.tables, now, tx)
    ensures Safe(s)
  {
    forall r | r in s.disk.tables.refs && !Expired(s.disk.tables.refs[r], s.clock)
      ensures r.digest in s.disk.files
    {
      assert r in tx.refs;
    }
  }

  /** The disk is fit for a crash at any time. */
  lemma AlwaysSafe(c: Config, s: State)
    requires Inv(c, s)
    ensures Safe(s)
  {
    match s.work {
      case Collecting(now, tx, queue) => CollectingIsSafe(s, now, tx);
      case Idle => CoveredIsSafe(s);
      case Uploading(_, _, _, _) => CoveredIsSafe(s);
      case Renamed(_, _) => CoveredIsSafe(s);
      case Settled(_, _) => CoveredIsSafe(s);
      case SweepingFiles(_, _) => CoveredIsSafe(s);
      case Down =>
      case SweepingParts =>
      case CheckingRows(_, _) =>
    }
  }

  lemma RemoveFileKeeps(c: Config, s: State, d: Digest)
    requires LooseInv(c, s)
    ensures LooseInv(c, RemoveFile(s, d))
  {
  }

  // ----- upload -----

  lemma CreateKeeps(c: Config, s: State, d: Digest, declared: nat, part: nat)
    requires Inv(c, s)
    ensures Inv(c, OnCreate(c, s, d, declared, part))
  {
  }

  lemma WriteKeeps(c: Config, s: State, bytes: Content)
    requires Inv(c, s)
    ensures Inv(c, OnWrite(s, bytes)) && Inv(c, OnSyncPart(s))
  {
  }

  lemma RenameKeeps(c: Config, s: State)
    requires Inv(c, s)
    ensures Inv(c, OnRename(c, s))
  {
  }

  lemma SyncDirectoryKeeps(c: Config, s: State)
    requires Inv(c, s)
    ensures Inv(c, OnSyncDirectory(c, s))
  {
  }

  lemma IndexKeeps(c: Config, s: State, at: int)
    requires Inv(c, s)
    ensures Inv(c, OnIndex(s, at))
  {
    if s.work.Settled? {
      InsertKeeps(s.disk.tables, s.work.digest, s.work.size, at);
      TotalAdds(s.disk.tables, s.work.digest, Row(s.work.size, 0, at));
    }
  }

  lemma AbandonKeeps(c: Config, s: State, removed: bool)
    requires Inv(c, s)
    ensures Inv(c, OnAbandon(s, removed))
  {
    if s.work.Renamed? || s.work.Settled? {
      RemoveFileKeeps(c, s, s.work.digest);
    }
  }

  // ----- metadata statements -----

  lemma StatementKeepsTables(t: Tables, step: Step)
    requires Sound(t)
    ensures var u := OnTables(t, step);
            Sound(u) && Sizes(u) == Sizes(t) && u.rows.Keys == t.rows.Keys
  {
    match step {
      case Use(d, at) => TouchKeeps(t, d, at);
      case Retain(refs, e) =>
        if AllPresent(t, refs) {
          RetainedKeeps(t, refs, e);
        }
      case Expire(kind, owner, e) => SetExpiryKeeps(t, kind, owner, e);
      case Release(kind, owner) => DropRefsKeeps(t, OwnedBy(t.refs, kind, owner));
      case _ =>
    }
  }

  /** A statement adds references only to blobs that are there. */
  lemma StatementKeepsLost(s: State, step: Step)
    requires LostIsGone(s)
    ensures LostIsGone(OnStatement(s, step))
  {
    var t := OnStatement(s, step);
    forall r | r in t.disk.tables.refs && r in t.loose.lost
      ensures r in s.disk.tables.refs && r in s.loose.lost
    {
      if step.Retain? && AllPresent(s.disk.tables, step.refs) {
        RetainedRefs(s.disk.tables, step.refs, step.expiry, r);
      }
    }
  }

  lemma StatementKeeps(c: Config, s: State, step: Step)
    requires Inv(c, s)
    ensures Inv(c, OnStatement(s, step))
  {
    StatementKeepsLost(s, step);
    StatementKeepsTables(s.disk.tables, step);
    var u := OnTables(s.disk.tables, step);
    forall d | d in u.rows
      ensures u.rows[d].size == s.disk.tables.rows[d].size
    {
      assert Sizes(u)[d] == Sizes(s.disk.tables)[d];
    }
  }

  // ----- garbage collection -----

  lemma BeginKeeps(c: Config, s: State, now: int, gone: set<Ref>, queue: seq<Digest>)
    requires Inv(c, s)
    ensures Inv(c, OnBegin(s, now, gone, queue))
  {
    DropRefsKeeps(s.disk.tables, gone);
  }

  lemma UnlinkKeepsPending(t: Tables, now: int, tx: Tables, queue: seq<Digest>)
    requires Sound(tx) && Pending(t, now, tx) && Queueable(tx, queue) && queue != []
    ensures var u := DropRow(tx, queue[0]);
            Sound(u) && Pending(t, now, u) && Queueable(u, queue[1..]) && u.refs == tx.refs
  {
    DropRowKeeps(tx, queue[0]);
    var u := DropRow(tx, queue[0]);
    assert u.refs == tx.refs;
    forall d | d in queue[1..]
      ensures d in u.rows
    {
      assert d != queue[0];
    }
  }

  lemma UnlinkKeeps(c: Config, s: State, ok: bool)
    requires Inv(c, s)
    ensures Inv(c, OnUnlink(s, ok))
  {
    if s.work.Collecting? && s.work.queue != [] {
      UnlinkKeepsPending(s.disk.tables, s.work.now, s.work.tx, s.work.queue);
      TotalDrops(s.work.tx, s.work.queue[0]);
      RemoveFileKeeps(c, s, s.work.queue[0]);
    }
  }

  lemma CommitKeeps(c: Config, s: State)
    requires Inv(c, s)
    ensures Inv(c, OnCommit(s))
  {
  }

  // ----- start-up -----

  lemma DeadRowGoes(c: Config, s: State, d: Digest)
    requires Sound(s.disk.tables) && LooseInv(c, s) && d in s.disk.tables.rows
    ensures var t := s.(disk := s.disk.(tables := DropRow(s.disk.tables, d)));
            && Sound(t.disk.tables) && LooseInv(c, t) && Total(t.disk.tables) <= Total(s.disk.tables)
            && (forall r | r in t.disk.tables.refs ::
                  r in s.disk.tables.refs && t.disk.tables.refs[r] == s.disk.tables.refs[r])
  {
    DropRowKeeps(s.disk.tables, d);
    TotalDrops(s.disk.tables, d);
  }

  lemma CheckRowKeeps(c: Config, s: State, d: Digest)
    requires Inv(c, s)
    ensures Inv(c, OnCheckRow(s, d))
  {
    if s.work.CheckingRows? && d in s.work.pending && d !in s.disk.files {
      DeadRowGoes(c, s, d);
    }
  }

  lemma SweepFileKeeps(c: Config, s: State, d: Digest)
    requires Inv(c, s)
    ensures Inv(c, OnSweepFile(s, d))
  {
    RemoveFileKeeps(c, s, d);
  }

  lemma SweepPartKeeps(c: Config, s: State, part: nat)
    requires Inv(c, s)
    ensures Inv(c, OnSweepPart(s, part))
  {
  }

  lemma NextPhaseKeeps(c: Config, s: State)
    requires Inv(c, s)
    ensures Inv(c, OnNextPhase(s))
  {
  }

  lemma CrashKeeps(c: Config, s: State)
    requires Inv(c, s)
    ensures Inv(c, s.(work := Down))
  {
    AlwaysSafe(c, s);
  }

  lemma LeftIsGenuine(c: Config, s: State, cut: Cut)
    requires LooseInv(c, s)
    ensures Genuine(c, s.disk.tables.rows, Left(c, s.disk.files, s.loose.removed, cut))
  {
  }

  /** A power failure takes no file with a row, but for those that go with their
      directory. */
  lemma PowerLossKeepsSafe(c: Config, s: State, cut: Cut)
    requires Sound(s.disk.tables) && LooseInv(c, s) && Safe(s)
    ensures Safe(OnPowerLoss(c, s, cut))
  {
  }

  lemma PowerLossKeeps(c: Config, s: State, cut: Cut)
    requires Inv(c, s)
    ensures Inv(c, OnPowerLoss(c, s, cut))
  {
    AlwaysSafe(c, s);
    PowerLossKeepsSafe(c, s, cut);
    LeftIsGenuine(c, s, cut);
  }

  lemma WriteBackKeeps(c: Config, s: State, loose: Unsynced)
    requires Inv(c, s)
    ensures Inv(c, OnWriteBack(s, loose))
  {
  }

  lemma BootKeeps(c: Config, s: State)
    requires Inv(c, s)
    ensures Inv(c, OnBoot(s))
  {
  }

  lemma TickKeeps(c: Config, s: State, clock: int)
    requires Inv(c, s) && s.clock <= clock
    ensures Inv(c, s.(clock := clock))
  {
  }

  /** The steps of an upload. */
  predicate Uploads(step: Step) {
    || step.Create? || step.Write? || step.SyncPart? || step.Rename? || step.SyncDirectory? || step.Index?
    || step.Abandon?
  }

  lemma UploadStepKeeps(c: Config, s: State, step: Step)
    requires Inv(c, s) && Uploads(step)
    ensures Inv(c, Next(c, s, step))
  {
    match step {
      case Create(d, declared, part) => CreateKeeps(c, s, d, declared, part);
      case Write(bytes) => WriteKeeps(c, s, bytes);
      case SyncPart => WriteKeeps(c, s, []);
      case Rename => RenameKeeps(c, s);
      case SyncDirectory => SyncDirectoryKeeps(c, s);
      case Index(at) => IndexKeeps(c, s, at);
      case Abandon(removed) => AbandonKeeps(c, s, removed);
    }
  }

  lemma SweepStepKeeps(c: Config, s: State, step: Step)
    requires Inv(c, s) && (step.SweepPart? || step.CheckRow? || step.SweepFile?)
    ensures Inv(c, Next(c, s, step))
  {
    if step.SweepPart? {
      SweepPartKeeps(c, s, step.part);
      assert Next(c, s, step) == OnSweepPart(s, step.part);
    } else if step.CheckRow? {
      CheckRowKeeps(c, s, step.digest);
      assert Next(c, s, step) == OnCheckRow(s, step.digest);
    } else {
      SweepFileKeeps(c, s, step.digest);
      assert Next(c, s, step) == OnSweepFile(s, step.digest);
    }
  }

  lemma NextKeeps(c: Config, s: State, step: Step)
    requires Inv(c, s)
    ensures Inv(c, Next(c, s, step))
  {
    if Uploads(step) {
      UploadStepKeeps(c, s, step);
    } else if step.SweepPart? || step.CheckRow? || step.SweepFile? {
      SweepStepKeeps(c, s, step);
    } else if step.Use? || step.Retain? || step.Expire? || step.Release? {
      StatementKeeps(c, s, step);
    } else {
      match step {
        case Begin(now, gone, queue) => BeginKeeps(c, s, now, gone, queue);
        case Unlink(ok) => UnlinkKeeps(c, s, ok);
        case Commit => CommitKeeps(c, s);
        case Crash => CrashKeeps(c, s);
        case PowerLoss(cut) => PowerLossKeeps(c, s, cut);
        case WriteBack(loose) => WriteBackKeeps(c, s, loose);
        case Boot => BootKeeps(c, s);
        case NextPhase => NextPhaseKeeps(c, s);
        case Tick(clock) =>
          if s.clock <= clock {
            TickKeeps(c, s, clock);
          }
      }
    }
  }

  lemma {:induction false} InvKept(c: Config, s: State, steps: seq<Step>)
    requires Inv(c, s)
    ensures Inv(c, Run(c, s, steps))
  {
    if |steps| > 0 {
      InvKept(c, s, steps[..|steps| - 1]);
      NextKeeps(c, Run(c, s, steps[..|steps| - 1]), steps[|steps| - 1]);
    }
  }

  lemma InvAlways(c: Config, clock: int, steps: seq<Step>)
    ensures Inv(c, Run(c, Fresh(clock), steps))
  {
    InvKept(c, Fresh(clock), steps);
  }

  // ----- what every run guarantees -----

  /** At any moment of any run, mid-operation or after a crash, a blob with a
      reference that has not expired has its row, and it has its file if and only if the
      directory of that was not lost under the reference; the file holds what the digest
      names. */
  lemma ReferencedBlobIsKept(c: Config, clock: int, steps: seq<Step>, r: Ref)
    requires var s := Run(c, Fresh(clock), steps);
             r in s.disk.tables.refs && !Expired(s.disk.tables.refs[r], s.clock)
    ensures var s := Run(c, Fresh(clock), steps);
            var k := s.disk;
            && r.digest in k.tables.rows
            && (r.digest in k.files <==> r !in s.loose.lost)
            && (r.digest in k.files ==>
                  c.hash(k.files[r.digest]) == r.digest && |k.files[r.digest]| == k.tables.rows[r.digest].size)
  {
    InvAlways(c, clock, steps);
    AlwaysSafe(c, Run(c, Fresh(clock), steps));
  }

  /** What a power failure does to a referenced blob: its file stays if and only if its
      directory does. */
  lemma PowerLossTakesDirectoriesOnly(c: Config, clock: int, steps: seq<Step>, r: Ref, cut: Cut)
    requires var s := Run(c, Fresh(clock), steps);
             r in s.disk.tables.refs && r.digest in s.disk.files && Possible(s.loose, cut)
    ensures r.digest in OnPowerLoss(c, Run(c, Fresh(clock), steps), cut).disk.files
       <==> c.shard(r.digest) !in cut.shards
  {
    InvAlways(c, clock, steps);
  }

  /** So it can be lost to a power failure if and only if the entry of its directory
      has not reached the disk. */
  lemma LosableExactlyWhen(c: Config, clock: int, steps: seq<Step>, r: Ref)
    requires var s := Run(c, Fresh(clock), steps);
             r in s.disk.tables.refs && r.digest in s.disk.files
    ensures var s := Run(c, Fresh(clock), steps);
            (exists cut :: Possible(s.loose, cut) && r.digest !in OnPowerLoss(c, s, cut).disk.files)
            <==> c.shard(r.digest) in s.loose.made
  {
    var s := Run(c, Fresh(clock), steps);
    forall cut | Possible(s.loose, cut)
      ensures r.digest in OnPowerLoss(c, s, cut).disk.files <==> c.shard(r.digest) !in cut.shards
    {
      PowerLossTakesDirectoriesOnly(c, clock, steps, r, cut);
    }
    if c.shard(r.digest) in s.loose.made {
      var cut := Cut({}, {}, {c.shard(r.digest)}, map[]);
      assert Possible(s.loose, cut);
    }
  }

  lemma LossIsByDirectory(c: Config, s: State, step: Step)
    requires step.PowerLoss? ==> step.cut.shards == {}
    ensures Next(c, s, step).loose.lost <= s.loose.lost
  {
    match step {
      case PowerLoss(cut) =>
        assert forall r | r in s.disk.tables.refs :: c.shard(r.digest) !in cut.shards;
      case Create(d, declared, part) =>
      case Rename =>
      case SyncDirectory =>
      case Abandon(removed) =>
      case Unlink(ok) =>
      case SweepFile(d) =>
      case _ =>
    }
  }

  /** Without the loss of a directory there is no exception to what is kept, however
      often the process dies or the power fails. */
  lemma {:induction false} NothingIsLost(c: Config, s: State, steps: seq<Step>)
    requires forall i | 0 <= i < |steps| && steps[i].PowerLoss? :: steps[i].cut.shards == {}
    ensures Run(c, s, steps).loose.lost <= s.loose.lost
  {
    if |steps| > 0 {
      NothingIsLost(c, s, steps[..|steps| - 1]);
      LossIsByDirectory(c, Run(c, s, steps[..|steps| - 1]), steps[|steps| - 1]);
    }
  }

  /** An empty store, opened, and ready for an empty blob. */
  lemma OpenedFresh(c: Config, clock: int) returns (steps: seq<Step>)
    ensures Run(c, Fresh(clock), steps) == Fresh(clock).(work := Idle)
  {
    var s := Fresh(clock);
    RunGrows(c, s, [], Boot);
    var booted := [] + [Boot];
    RunGrows(c, s, booted, NextPhase);
    var checking := booted + [NextPhase];
    assert s.disk.tables.rows.Keys == {} && s.disk.files.Keys == {};
    assert Run(c, s, checking) == s.(work := CheckingRows({}, {}));
    RunGrows(c, s, checking, NextPhase);
    var sweeping := checking + [NextPhase];
    assert Run(c, s, sweeping) == s.(work := SweepingFiles({}, {}));
    RunGrows(c, s, sweeping, NextPhase);
    steps := sweeping + [NextPhase];
  }

  /** The first upload of an empty blob. */
  lemma EmptyBlobStored(c: Config, clock: int) returns (steps: seq<Step>)
    ensures var d := c.hash([]);
            Run(c, Fresh(clock), steps)
            == State(Disk(Tables(map[d := Row(0, 0, 0)], map[]), map[d := []], map[], {c.shard(d)}),
                     Unsynced({}, map[], {c.shard(d)}, {}), clock, Idle)
  {
    var s, d := Fresh(clock), c.hash([]);
    var ready := OpenedFresh(c, clock);
    assert Total(s.disk.tables) == 0;
    RunGrows(c, s, ready, Create(d, 0, 0));
    var created := ready + [Create(d, 0, 0)];
    RunGrows(c, s, created, SyncPart);
    var synced := created + [SyncPart];
    assert Run(c, s, synced) == State(Disk(s.disk.tables, map[], map[0 := []], {c.shard(d)}),
                                      Unsynced({}, map[], {c.shard(d)}, {}), clock, Uploading(d, 0, 0, true));
    RunGrows(c, s, synced, Rename);
    var renamed := synced + [Rename];
    RunGrows(c, s, renamed, SyncDirectory);
    var settled := renamed + [SyncDirectory];
    assert Run(c, s, settled) == State(Disk(s.disk.tables, map[d := []], map[], {c.shard(d)}),
                                       Unsynced({}, map[], {c.shard(d)}, {}), clock, Settled(d, 0));
    RunGrows(c, s, settled, Index(0));
    steps := settled + [Index(0)];
  }

  /** ... and a reference to it. */
  lemma EmptyBlobRetained(c: Config, clock: int, r: Ref) returns (steps: seq<Step>)
    requires r.digest == c.hash([])
    ensures var s := Run(c, Fresh(clock), steps);
            && s.disk.tables.refs == map[r := Never] && s.disk.files == map[r.digest := []]
            && s.loose.made == {c.shard(r.digest)}
  {
    var stored := EmptyBlobStored(c, clock);
    RunGrows(c, Fresh(clock), stored, Retain([r], Never));
    steps := stored + [Retain([r], Never)];
    var t := Run(c, Fresh(clock), stored).disk.tables;
    assert Retained(t, [r], Never) == Upsert(Retained(t, [r][..0], Never), r, Never);
  }

  /** The failure is real, whatever the configuration: the directory of the first blob
      of a shard is never synchronised, and a referenced blob goes with it. */
  lemma FirstBlobCanBeLost(c: Config, clock: int) returns (steps: seq<Step>, r: Ref)
    ensures var k := Run(c, Fresh(clock), steps).disk;
            r in k.tables.refs && k.tables.refs[r].Never? && r.digest !in k.files
  {
    r := Ref(Reader, 0, c.hash([]));
    var retained := EmptyBlobRetained(c, clock, r);
    var cut := Cut({}, {}, {c.shard(r.digest)}, map[]);
    RunGrows(c, Fresh(clock), retained, PowerLoss(cut));
    steps := retained + [PowerLoss(cut)];
  }

  /** Whenever the store is open, every row has its file with the right content, so a
      verification finds no corruption. */
  lemma OpenStoreIsGenuine(c: Config, clock: int, steps: seq<Step>, d: Digest)
    requires var s := Run(c, Fresh(clock), steps);
             Serving(s.work) && d in s.disk.tables.rows
    ensures var k := Run(c, Fresh(clock), steps).disk;
            d in k.files && c.hash(k.files[d]) == d && |k.files[d]| == k.tables.rows[d].size
  {
    InvAlways(c, clock, steps);
  }

  /** Start-up ends with as many files as rows, one for one, whatever the crash left
      behind. */
  lemma AgreementAfterOpen(c: Config, clock: int, steps: seq<Step>)
    requires var s := Run(c, Fresh(clock), steps); s.work.SweepingFiles? && OnNextPhase(s).work.Idle?
    ensures var k := OnNextPhase(Run(c, Fresh(clock), steps)).disk; k.tables.rows.Keys == k.files.Keys
  {
    InvAlways(c, clock, steps);
  }

  /** The stored count of every row is its number of references, and the sizes stay
      within the quota. */
  lemma CountsAndQuotaAreExact(c: Config, clock: int, steps: seq<Step>)
    ensures var t := Run(c, Fresh(clock), steps).disk.tables;
            Counted(t) && Total(t) <= c.quota
  {
    InvAlways(c, clock, steps);
  }

  // ----- references stay until they expire or are given up -----

  /** The statements that name the reference. */
  predicate Names(step: Step, r: Ref) {
    match step
    case Retain(refs, _) => r in refs
    case Expire(kind, owner, _) => r.kind == kind && r.owner == owner
    case Release(kind, owner) => r.kind == kind && r.owner == owner
    case _ => false
  }

  lemma StatementSpares(t: Tables, step: Step, r: Ref)
    requires r in t.refs && !Names(step, r)
    ensures r in OnTables(t, step).refs && OnTables(t, step).refs[r] == t.refs[r]
  {
    if step.Retain? && AllPresent(t, step.refs) {
      RetainedRefs(t, step.refs, step.expiry, r);
    }
  }

  lemma CommitSpares(s: State, r: Ref)
    requires WorkInv(s) && r in s.disk.tables.refs && !Expired(s.disk.tables.refs[r], s.clock)
    ensures var t := OnCommit(s).disk.tables; r in t.refs && t.refs[r] == s.disk.tables.refs[r]
  {
  }

  lemma CheckRowSpares(s: State, d: Digest, r: Ref)
    requires Safe(s) && r in s.disk.tables.refs && !Expired(s.disk.tables.refs[r], s.clock)
    requires r !in s.loose.lost
    ensures var t := OnCheckRow(s, d).disk.tables; r in t.refs && t.refs[r] == s.disk.tables.refs[r]
  {
  }

  /** The other steps leave the committed tables alone, but for a new row. */
  lemma OthersSpare(c: Config, s: State, step: Step)
    requires !step.Commit? && !step.CheckRow?
    requires !step.Use? && !step.Retain? && !step.Expire? && !step.Release?
    ensures Next(c, s, step).disk.tables.refs == s.disk.tables.refs
  {
    match step {
      case Create(d, declared, part) =>
      case Write(bytes) =>
      case SyncPart =>
      case Rename =>
      case SyncDirectory =>
      case Index(at) =>
      case Abandon(removed) =>
      case Begin(now, gone, queue) =>
      case Unlink(ok) =>
      case Crash =>
      case PowerLoss(cut) =>
      case WriteBack(loose) =>
      case Boot =>
      case SweepPart(part) =>
      case SweepFile(d) =>
      case NextPhase =>
      case Tick(clock) =>
    }
  }

  /** No step but a statement that names it takes or changes a reference that has not
      expired, unless its file was lost with its directory. */
  lemma UnexpiredStays(c: Config, s: State, step: Step, r: Ref)
    requires Inv(c, s) && !Names(step, r) && r !in s.loose.lost
    requires r in s.disk.tables.refs && !Expired(s.disk.tables.refs[r], s.clock)
    ensures var t := Next(c, s, step).disk.tables;
            r in t.refs && t.refs[r] == s.disk.tables.refs[r]
  {
    if step.Commit? {
      CommitSpares(s, r);
    } else if step.CheckRow? {
      AlwaysSafe(c, s);
      CheckRowSpares(s, step.digest, r);
    } else if step.Use? || step.Retain? || step.Expire? || step.Release? {
      StatementSpares(s.disk.tables, step, r);
      assert Next(c, s, step) == OnStatement(s, step);
    } else {
      OthersSpare(c, s, step);
    }
  }

  lemma ClockGrows(c: Config, s: State, step: Step)
    ensures s.clock <= Next(c, s, step).clock
    ensures forall r | r in s.loose.lost && !Names(step, r) :: r in Next(c, s, step).loose.lost
  {
  }

  /** A reference outlives every run that does not name it, until its expiry. */
  lemma {:induction false} UnexpiredStaysThroughout(c: Config, s: State, steps: seq<Step>, r: Ref)
    requires Inv(c, s) && forall i | 0 <= i < |steps| :: !Names(steps[i], r)
    requires r in s.disk.tables.refs && !Expired(s.disk.tables.refs[r], Run(c, s, steps).clock)
    requires r !in Run(c, s, steps).loose.lost
    ensures var t := Run(c, s, steps).disk.tables;
            r in t.refs && t.refs[r] == s.disk.tables.refs[r]
  {
    if |steps| > 0 {
      var before, last := steps[..|steps| - 1], steps[|steps| - 1];
      var p := Run(c, s, before);
      assert steps == before + [last];
      RunGrows(c, s, before, last);
      ClockGrows(c, p, last);
      assert !Expired(s.disk.tables.refs[r], p.clock);
      UnexpiredStaysThroughout(c, s, before, r);
      InvKept(c, s, before);
      assert !Names(last, r);
      UnexpiredStays(c, p, last, r);
    }
  }
}

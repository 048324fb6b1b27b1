/** The blob store as a machine over its two durable layers, the metadata tables and
    the file tree. Every step makes at most one file operation or one commit. Between
    any two steps the process may die, and the power may fail: then file operations
    that nothing has synchronised are lost or kept one by one. */
module BlobMachine {
  import opened Words
  import opened BlobTables

  const MAX_BLOB_BYTES: nat := 268435456

  type Content = seq<Byte>

  /** The digest function, the directory a digest's file is kept in, and the
      configured quota. */
  datatype Config = Config(hash: Content -> Digest, shard: Digest -> nat, quota: nat)

  /** What the process sees: committed tables, blob files by digest, the part files of
      unfinished uploads, and the shard directories that exist. */
  datatype Disk = Disk(tables: Tables, files: map<Digest, Content>, parts: map<nat, Content>, shards: set<nat>)

  /** What a power failure may do to it: files in `added` have an entry that may be
      lost, files in `removed` are gone but may come back, and the directories in
      `made` may be lost with everything in them. `lost` keeps the references whose file
      has gone that last way, until they are made anew. */
  datatype Unsynced = Unsynced(added: set<Digest>, removed: map<Digest, Content>, made: set<nat>, lost: set<Ref>)

  /** What the holder of the write lock is doing. */
  datatype Work =
    | Idle
    | Uploading(digest: Digest, declared: nat, part: nat, synced: bool)
    | Renamed(digest: Digest, size: nat)
    | Settled(digest: Digest, size: nat)   // renamed, and the directory synchronised
    | Collecting(now: int, tx: Tables, queue: seq<Digest>)
    | Down
    | SweepingParts
    | CheckingRows(known: set<Digest>, pending: set<Digest>)
    | SweepingFiles(known: set<Digest>, pending: set<Digest>)

  datatype State = State(disk: Disk, loose: Unsynced, clock: int, work: Work)

  /** The outcome of a power failure: which loose entries are lost, which removed files
      come back, which directories vanish, and which part files are left. */
  datatype Cut = Cut(lost: set<Digest>, back: set<Digest>, shards: set<nat>, parts: map<nat, Content>)

  datatype Step =
    // upload
    | Create(digest: Digest, declared: nat, part: nat)
    | Write(bytes: Content)
    | SyncPart
    | Rename
    | SyncDirectory
    | Index(at: int)
    | Abandon(removed: bool)
    // metadata statements
    | Use(digest: Digest, at: int)
    | Retain(refs: seq<Ref>, expiry: Expiry)
    | Expire(kind: Kind, owner: nat, expiry: Expiry)
    | Release(kind: Kind, owner: nat)
    // garbage collection
    | Begin(now: int, gone: set<Ref>, queue: seq<Digest>)
    | Unlink(ok: bool)
    | Commit
    // the process and its environment
    | Crash
    | PowerLoss(cut: Cut)
    | WriteBack(loose: Unsynced)
    | Boot
    | SweepPart(part: nat)
    | CheckRow(digest: Digest)
    | SweepFile(digest: Digest)
    | NextPhase
    | Tick(clock: int)

  // ----- files -----

  /** The file of `d` is unlinked, if there is one. */
  function RemoveFile(s: State, d: Digest): State {
    if d !in s.disk.files then s
    else s.(disk := s.disk.(files := s.disk.files - {d}),
            loose := s.loose.(added := s.loose.added - {d}, removed := s.loose.removed[d := s.disk.files[d]]))
  }

  // ----- upload -----

  ghost predicate FitsQuota(c: Config, t: Tables, declared: nat) {
    Total(t) <= I64_MAX && SatAdd(Total(t), declared) <= c.quota
  }

  /** The shard directory is made if need be, then the part. */
  ghost function OnCreate(c: Config, s: State, d: Digest, declared: nat, part: nat): State {
    if s.work.Idle? && declared <= MAX_BLOB_BYTES && d !in s.disk.files && part !in s.disk.parts
       && FitsQuota(c, s.disk.tables, declared)
    then s.(disk := s.disk.(parts := s.disk.parts[part := []], shards := s.disk.shards + {c.shard(d)}),
            loose := if c.shard(d) in s.disk.shards then s.loose
                     else s.loose.(made := s.loose.made + {c.shard(d)}),
            work := Uploading(d, declared, part, false))
    else s
  }

  function OnWrite(s: State, bytes: Content): State {
    if s.work.Uploading? && s.work.part in s.disk.parts
       && |s.disk.parts[s.work.part]| + |bytes| <= s.work.declared
    then s.(disk := s.disk.(parts := s.disk.parts[s.work.part := s.disk.parts[s.work.part] + bytes]),
            work := s.work.(synced := false))
    else s
  }

  /** What was written is on the disk. */
  function OnSyncPart(s: State): State {
    if s.work.Uploading? then s.(work := s.work.(synced := true)) else s
  }

  /** Only a synchronised part may become a file: of any other the content is anyone's
      guess after a power failure. */
  function OnRename(c: Config, s: State): State {
    if s.work.Uploading? && s.work.synced && s.work.part in s.disk.parts
       && |s.disk.parts[s.work.part]| == s.work.declared
       && c.hash(s.disk.parts[s.work.part]) == s.work.digest
    then s.(disk := s.disk.(files := s.disk.files[s.work.digest := s.disk.parts[s.work.part]],
                            parts := s.disk.parts - {s.work.part}),
            loose := s.loose.(added := s.loose.added + {s.work.digest}),
            work := Renamed(s.work.digest, s.work.declared))
    else s
  }

  /** The entries of one directory are settled. */
  function SyncShard(c: Config, loose: Unsynced, shard: nat): Unsynced {
    loose.(added := (set d | d in loose.added && c.shard(d) != shard),
           removed := map d | d in loose.removed && c.shard(d) != shard :: loose.removed[d])
  }

  function OnSyncDirectory(c: Config, s: State): State {
    if s.work.Renamed?
    then s.(loose := SyncShard(c, s.loose, c.shard(s.work.digest)), work := Settled(s.work.digest, s.work.size))
    else s
  }

  function OnIndex(s: State, at: int): State {
    if s.work.Settled? && s.work.digest !in s.disk.tables.rows
    then s.(disk := s.disk.(tables := s.disk.tables.(
                    rows := s.disk.tables.rows[s.work.digest := Row(s.work.size, 0, at)])),
            work := Idle)
    else s
  }

  /** A failed upload removes its part, or its file when that has no row; the removal
      itself may fail. */
  function OnAbandon(s: State, removed: bool): State {
    if s.work.Uploading? then
      s.(disk := if removed then s.disk.(parts := s.disk.parts - {s.work.part}) else s.disk, work := Idle)
    else if s.work.Renamed? || s.work.Settled? then
      (if removed && s.work.digest !in s.disk.tables.rows then RemoveFile(s, s.work.digest) else s).(work := Idle)
    else s
  }

  // ----- metadata statements -----

  /** The store is open and no collection holds the metadata lock. */
  predicate Serving(w: Work) {
    w.Idle? || w.Uploading? || w.Renamed? || w.Settled?
  }

  predicate AllPresent(t: Tables, refs: seq<Ref>) {
    forall r | r in refs :: r.digest in t.rows
  }

  function OnTables(t: Tables, step: Step): Tables {
    match step
    case Use(d, at) => Touch(t, d, at)
    case Retain(refs, e) => if AllPresent(t, refs) then Retained(t, refs, e) else t
    case Expire(kind, owner, e) => SetExpiry(t, kind, owner, e)
    case Release(kind, owner) => DropRefs(t, OwnedBy(t.refs, kind, owner))
    case _ => t
  }

  /** A reference that is made anew has its file. */
  function OnLost(s: State, step: Step): Unsynced {
    if step.Retain? && AllPresent(s.disk.tables, step.refs)
    then s.loose.(lost := s.loose.lost - set r | r in step.refs)
    else s.loose
  }

  function OnStatement(s: State, step: Step): State {
    if Serving(s.work)
    then s.(disk := s.disk.(tables := OnTables(s.disk.tables, step)), loose := OnLost(s, step))
    else s
  }

  // ----- garbage collection -----

  ghost predicate Queueable(tx: Tables, queue: seq<Digest>) {
    && (forall i, j | 0 <= i < j < |queue| :: queue[i] != queue[j])
    && (forall d | d in queue :: d in tx.rows && RefsOf(tx.refs, d) == {})
  }

  /** A transaction that has dropped some expired references and selected some
      unreferenced blobs. */
  ghost function OnBegin(s: State, now: int, gone: set<Ref>, queue: seq<Digest>): State {
    var tx := DropRefs(s.disk.tables, gone);
    if s.work.Idle? && now <= s.clock && Queueable(tx, queue)
       && (forall r | r in gone :: r in s.disk.tables.refs && Expired(s.disk.tables.refs[r], now))
    then s.(work := Collecting(now, tx, queue))
    else s
  }

  /** The next candidate's file is unlinked and its row deleted in the transaction; a
      file that cannot be unlinked ends the loop. */
  function OnUnlink(s: State, ok: bool): State {
    if !s.work.Collecting? || s.work.queue == [] then s
    else if !ok then s.(work := s.work.(queue := []))
    else
      RemoveFile(s, s.work.queue[0]).(
        work := Collecting(s.work.now, DropRow(s.work.tx, s.work.queue[0]), s.work.queue[1..]))
  }

  function OnCommit(s: State): State {
    if s.work.Collecting? && s.work.queue == [] then s.(disk := s.disk.(tables := s.work.tx), work := Idle) else s
  }

  // ----- crashes -----

  predicate Possible(loose: Unsynced, cut: Cut) {
    cut.lost <= loose.added && cut.back <= loose.removed.Keys && cut.shards <= loose.made
  }

  /** The files a power failure leaves. */
  function Left(c: Config, files: map<Digest, Content>, removed: map<Digest, Content>, cut: Cut): map<Digest, Content> {
    map d | d in files.Keys + removed.Keys && c.shard(d) !in cut.shards
            && ((d in files && d !in cut.lost) || (d in removed && d in cut.back)) ::
      if d in files && d !in cut.lost then files[d] else removed[d]
  }

  /** What is found afterwards is what is on the disk. */
  function OnPowerLoss(c: Config, s: State, cut: Cut): State {
    if !Possible(s.loose, cut) then s
    else
      var gone := set r | r in s.disk.tables.refs && r.digest in s.disk.files && c.shard(r.digest) in cut.shards;
      State(s.disk.(files := Left(c, s.disk.files, s.loose.removed, cut), parts := cut.parts,
                    shards := s.disk.shards - cut.shards),
            Unsynced({}, map[], {}, s.loose.lost + gone), s.clock, Down)
  }

  /** The system may write anything back at any time. */
  ghost function OnWriteBack(s: State, loose: Unsynced): State {
    if loose.added <= s.loose.added && loose.made <= s.loose.made && loose.lost == s.loose.lost
       && (forall d | d in loose.removed :: d in s.loose.removed && loose.removed[d] == s.loose.removed[d])
    then s.(loose := loose)
    else s
  }

  // ----- start-up -----

  function OnBoot(s: State): State {
    if s.work.Down? then s.(work := SweepingParts) else s
  }

  function OnSweepPart(s: State, part: nat): State {
    if s.work.SweepingParts? then s.(disk := s.disk.(parts := s.disk.parts - {part})) else s
  }

  function OnCheckRow(s: State, d: Digest): State {
    if s.work.CheckingRows? && d in s.work.pending
    then s.(disk := if d in s.disk.files then s.disk else s.disk.(tables := DropRow(s.disk.tables, d)),
            work := CheckingRows(s.work.known, s.work.pending - {d}))
    else s
  }

  function OnSweepFile(s: State, d: Digest): State {
    if s.work.SweepingFiles? && d in s.work.pending
    then (if d in s.work.known then s else RemoveFile(s, d)).(
           work := SweepingFiles(s.work.known, s.work.pending - {d}))
    else s
  }

  function OnNextPhase(s: State): State {
    match s.work
    case SweepingParts =>
      if s.disk.parts == map[] then s.(work := CheckingRows(s.disk.tables.rows.Keys, s.disk.tables.rows.Keys)) else s
    case CheckingRows(known, pending) =>
      if pending == {} then s.(work := SweepingFiles(known, s.disk.files.Keys)) else s
    case SweepingFiles(known, pending) => if pending == {} then s.(work := Idle) else s
    case _ => s
  }

  // ----- the machine -----

  /** A step that is not enabled changes nothing, so every sequence of steps is a
      run. */
  ghost function Next(c: Config, s: State, step: Step): State {
    match step
    case Create(d, declared, part) => OnCreate(c, s, d, declared, part)
    case Write(bytes) => OnWrite(s, bytes)
    case SyncPart => OnSyncPart(s)
    case Rename => OnRename(c, s)
    case SyncDirectory => OnSyncDirectory(c, s)
    case Index(at) => OnIndex(s, at)
    case Abandon(removed) => OnAbandon(s, removed)
    case Use(_, _) => OnStatement(s, step)
    case Retain(_, _) => OnStatement(s, step)
    case Expire(_, _, _) => OnStatement(s, step)
    case Release(_, _) => OnStatement(s, step)
    case Begin(now, gone, queue) => OnBegin(s, now, gone, queue)
    case Unlink(ok) => OnUnlink(s, ok)
    case Commit => OnCommit(s)
    case Crash => s.(work := Down)
    case PowerLoss(cut) => OnPowerLoss(c, s, cut)
    case WriteBack(loose) => OnWriteBack(s, loose)
    case Boot => OnBoot(s)
    case SweepPart(part) => OnSweepPart(s, part)
    case CheckRow(d) => OnCheckRow(s, d)
    case SweepFile(d) => OnSweepFile(s, d)
    case NextPhase => OnNextPhase(s)
    case Tick(clock) => if s.clock <= clock then s.(clock := clock) else s
  }

  ghost function Run(c: Config, s: State, steps: seq<Step>): State {
    if |steps| == 0 then s else Next(c, Run(c, s, steps[..|steps| - 1]), steps[|steps| - 1])
  }

  lemma RunGrows(c: Config, s: State, steps: seq<Step>, step: Step)
    ensures Run(c, s, steps + [step]) == Next(c, Run(c, s, steps), step)
  {
    assert (steps + [step])[..|steps|] == steps;
  }

  lemma {:induction false} RunJoins(c: Config, s: State, a: seq<Step>, b: seq<Step>)
    ensures Run(c, s, a + b) == Run(c, Run(c, s, a), b)
  {
    if |b| == 0 {
      assert a + b == a;
    } else {
      assert a + b == (a + b[..|b| - 1]) + [b[|b| - 1]];
      RunGrows(c, s, a + b[..|b| - 1], b[|b| - 1]);
      RunJoins(c, s, a, b[..|b| - 1]);
    }
  }

  /** An empty store directory, before its first start. */
  function Fresh(clock: int): State {
    State(Disk(Tables(map[], map[]), map[], map[], {}), Unsynced({}, map[], {}, {}), clock, Down)
  }

  // ----- invariants -----

  /** Every file holds the content its digest names, and a row knows its length. */
  ghost predicate Genuine(c: Config, rows: map<Digest, Row>, files: map<Digest, Content>) {
    && (forall d | d in files :: c.hash(files[d]) == d)
    && (forall d | d in files && d in rows :: rows[d].size == |files[d]|)
  }

  /** Every row has its file. */
  ghost predicate Covered(k: Disk) {
    k.tables.rows.Keys <= k.files.Keys
  }

  /** Every reference that has not expired has its file, unless that went with its
      directory. */
  ghost predicate Safe(s: State) {
    forall r | r in s.disk.tables.refs && !Expired(s.disk.tables.refs[r], s.clock) ::
      r.digest in s.disk.files || r in s.loose.lost
  }

  /** The open transaction of a collection against the committed tables. */
  ghost predicate Pending(t: Tables, now: int, tx: Tables) {
    && (forall d | d in tx.rows :: d in t.rows && tx.rows[d].size == t.rows[d].size)
    && (forall r | r in tx.refs :: r in t.refs && tx.refs[r] == t.refs[r])
    && (forall r | r in t.refs :: r in tx.refs || Expired(t.refs[r], now))
  }

  /** The file of a lost reference is not there, and does not come back. */
  ghost predicate LostIsGone(s: State) {
    forall r | r in s.disk.tables.refs && r in s.loose.lost ::
      r.digest !in s.disk.files && r.digest !in s.loose.removed
  }

  /** Files come and go unsynchronised; rows do not wait for that. */
  ghost predicate LooseInv(c: Config, s: State) {
    && Genuine(c, s.disk.tables.rows, s.disk.files)
    && Genuine(c, s.disk.tables.rows, s.loose.removed)
    && s.disk.tables.rows.Keys !! s.loose.added
    && LostIsGone(s)
  }

  ghost predicate WorkInv(s: State) {
    match s.work
    case Idle => Covered(s.disk)
    case Uploading(d, declared, part, synced) =>
      Covered(s.disk) && d !in s.disk.files && part in s.disk.parts && |s.disk.parts[part]| <= declared
    case Renamed(d, size) =>
      Covered(s.disk) && d !in s.disk.tables.rows && d in s.disk.files && |s.disk.files[d]| == size
    case Settled(d, size) =>
      && Covered(s.disk) && d !in s.disk.tables.rows && d in s.disk.files && |s.disk.files[d]| == size
      && d !in s.loose.added && d !in s.loose.removed
    case Collecting(now, tx, queue) =>
      && now <= s.clock && Sound(tx) && tx.rows.Keys <= s.disk.files.Keys
      && Pending(s.disk.tables, now, tx) && Queueable(tx, queue)
    case Down => Safe(s)
    case SweepingParts => Safe(s)
    case CheckingRows(known, pending) =>
      && Safe(s)
      && pending <= s.disk.tables.rows.Keys <= known
      && s.disk.tables.rows.Keys - pending <= s.disk.files.Keys
      && known * s.disk.files.Keys <= s.disk.tables.rows.Keys
    case SweepingFiles(known, pending) =>
      && Covered(s.disk) && s.disk.tables.rows.Keys <= known
      && known * s.disk.files.Keys <= s.disk.tables.rows.Keys
      && s.disk.files.Keys - pending <= known
  }

  ghost predicate QuotaInv(c: Config, s: State) {
    match s.work
    case Uploading(d, declared, part, synced) => Total(s.disk.tables) + declared <= c.quota
    case Renamed(d, size) => Total(s.disk.tables) + size <= c.quota
    case Settled(d, size) => Total(s.disk.tables) + size <= c.quota
    case Collecting(now, tx, queue) => Total(s.disk.tables) <= c.quota && Total(tx) <= c.quota
    case _ => Total(s.disk.tables) <= c.quota
  }

  ghost predicate Inv(c: Config, s: State) {
    Sound(s.disk.tables) && LooseInv(c, s) && WorkInv(s) && QuotaInv(c, s)
  }
}

/** The blob store's operations. Each returns, as a ghost, the steps of the machine it
    went through, so what holds of every run of the machine, cut short by a crash or
    not, holds of every use of the store. */
module BlobStore {
  import opened Words
  import opened Counting
  import opened BlobTables
  import opened BlobMachine
  import opened BlobSafety
  import opened BlobCollection
  import opened BlobStartup

  // ----- expiry -----

  datatype Deadline = Unlimited | Until(ms: nat)

  /** What is stored for a deadline: the milliseconds go through a cast. */
  function Stored(x: Deadline): Expiry
    requires x.Until? ==> x.ms <= U64_MAX
  {
    if x.Unlimited? then Never else At(AsI64(x.ms))
  }

  /** A reference lives until its deadline exactly when the deadline survives the cast
      to a signed integer; a later one counts as expired from the start. */
  lemma DeadlineIsKept(ms: nat, clock: int)
    requires ms <= U64_MAX && 0 <= clock
    ensures !Expired(Stored(Until(ms)), clock) <==> clock < ms <= I64_MAX
  {
  }

  // ----- queries -----

  /** The sum the quota is checked against. */
  method SumSizes(t: Tables) returns (n: nat)
    ensures n == Total(t)
  {
    n := 0;
    var left := t.rows.Keys;
    assert Sizes(t).Keys == t.rows.Keys;
    while left != {}
      invariant left <= Sizes(t).Keys
      invariant n + SumOver(Sizes(t), left) == Total(t)
      decreases left
    {
      var d :| d in left;
      SumTakes(Sizes(t), left, d);
      n := n + t.rows[d].size;
      left := left - {d};
    }
  }

  /** Whether so many bytes fit beside what there is; a sum that overflows cannot be
      read. */
  method CheckQuota(c: Config, t: Tables, declared: nat) returns (refused: bool, overflow: bool)
    ensures refused || overflow <==> !FitsQuota(c, t, declared)
    ensures overflow <==> Total(t) > I64_MAX
  {
    var used := SumSizes(t);
    overflow := used > I64_MAX;
    refused := SatAdd(used, declared) > c.quota;
  }

  /** The coldest of some blobs. */
  method ColdestOf(t: Tables, of: set<Digest>) returns (d: Digest)
    requires of != {}
    ensures d in of && forall e | e in of :: LastUsed(t, d) <= LastUsed(t, e)
  {
    d :| d in of;
    var left := of - {d};
    while left != {}
      invariant left <= of && d in of
      invariant forall e | e in of - left :: LastUsed(t, d) <= LastUsed(t, e)
      decreases left
    {
      var e :| e in left;
      if LastUsed(t, e) < LastUsed(t, d) {
        d := e;
      }
      left := left - {e};
    }
  }

  /** The unreferenced blobs, coldest first, at most `limit`. */
  method UnreferencedCandidates(t: Tables, limit: nat) returns (q: seq<Digest>)
    ensures Coldest(t, limit, q)
  {
    q := [];
    var left := Unreferenced(t);
    while |q| < limit && left != {}
      invariant ColdFirst(t, q, left) && left == Unreferenced(t) - Members(q)
      invariant Members(q) <= Unreferenced(t)
      invariant |q| + |left| == |Unreferenced(t)| && |q| <= limit
      decreases left
    {
      var d := ColdestOf(t, left);
      ColdFirstGrows(t, q, left, d);
      q, left := q + [d], left - {d};
    }
  }

  /** The size of the candidates, in saturating arithmetic. */
  method CandidateBytes(t: Tables, q: seq<Digest>) returns (n: nat)
    requires Distinct(q) && Members(q) <= t.rows.Keys
    ensures Total(t) <= U64_MAX ==> n == SumOver(Sizes(t), Members(q))
  {
    n := 0;
    assert Sizes(t).Keys == t.rows.Keys;
    for i := 0 to |q|
      invariant Members(q[..i]) <= t.rows.Keys
      invariant Total(t) <= U64_MAX ==> n == SumOver(Sizes(t), Members(q[..i]))
    {
      assert q[i] in Members(q) && q[..i + 1] == q[..i] + [q[i]];
      assert Members(q[..i + 1]) - {q[i]} == Members(q[..i]);
      SumTakes(Sizes(t), Members(q[..i + 1]), q[i]);
      SumMonotone(Sizes(t), Members(q[..i + 1]), Sizes(t), Sizes(t).Keys);
      n := SatAdd(n, t.rows[q[i]].size);
    }
    assert q[..|q|] == q;
  }

  /** Some expired references, as many as there are up to `limit`. */
  method ExpiredReferences(t: Tables, now: int, limit: nat) returns (gone: set<Ref>)
    ensures gone <= ExpiredRefs(t, now) && |gone| == Min(limit, |ExpiredRefs(t, now)|)
  {
    gone := {};
    var left := ExpiredRefs(t, now);
    while |gone| < limit && left != {}
      invariant gone + left == ExpiredRefs(t, now) && gone !! left && |gone| <= limit
      decreases left
    {
      var r :| r in left;
      gone, left := gone + {r}, left - {r};
    }
  }

  // ----- references -----

  /** The upserts of one transaction, which is given up when a blob is missing. */
  method RetainIn(t: Tables, entries: seq<Ref>, e: Expiry) returns (ok: bool, tx: Tables)
    ensures ok <==> AllPresent(t, entries)
    ensures ok ==> tx == Retained(t, entries, e)
    ensures ok ==> forall r | r in entries :: r in tx.refs && tx.refs[r] == e
  {
    tx := t;
    for i := 0 to |entries|
      invariant AllPresent(t, entries[..i]) && tx == Retained(t, entries[..i], e)
    {
      if entries[i].digest !in tx.rows {
        return false, tx;
      }
      assert entries[..i + 1][..i] == entries[..i];
      tx := Upsert(tx, entries[i], e);
    }
    assert entries[..|entries|] == entries;
    ok := true;
    forall r | r in entries
      ensures r in tx.refs && tx.refs[r] == e
    {
      RetainedRefs(t, entries, e, r);
    }
  }

  // ----- uploads -----

  /** A piece of an upload's body, or the failure of the transport. */
  datatype Chunk = Data(bytes: Content) | Broken

  predicate Whole(chunks: seq<Chunk>) {
    forall x | x in chunks :: x.Data?
  }

  function Joined(chunks: seq<Chunk>): Content {
    if |chunks| == 0 then []
    else
      var last := chunks[|chunks| - 1];
      Joined(chunks[..|chunks| - 1]) + if last.Data? then last.bytes else []
  }

  lemma JoinedGrows(chunks: seq<Chunk>, i: nat)
    requires i < |chunks|
    ensures Joined(chunks[..i + 1]) == Joined(chunks[..i]) + if chunks[i].Data? then chunks[i].bytes else []
  {
    assert chunks[..i + 1][..i] == chunks[..i];
  }

  datatype Received = All | Oversize | BrokenBody | WriteFailed

  /** How a body ends when every write succeeds: at the first chunk that does not arrive
      or exceeds the declared length, or whole. */
  function Arrival(chunks: seq<Chunk>, declared: nat): (r: Received)
    ensures r.All? <==> Whole(chunks) && |Joined(chunks)| <= declared
  {
    if |chunks| == 0 then All
    else
      var before := Arrival(chunks[..|chunks| - 1], declared);
      assert chunks == chunks[..|chunks| - 1] + [chunks[|chunks| - 1]];
      if !before.All? then before
      else if chunks[|chunks| - 1].Broken? then BrokenBody
      else if |Joined(chunks)| > declared then Oversize
      else All
  }

  lemma {:induction false} ArrivalSticks(chunks: seq<Chunk>, declared: nat, i: nat)
    requires i <= |chunks| && !Arrival(chunks[..i], declared).All?
    ensures Arrival(chunks, declared) == Arrival(chunks[..i], declared)
    decreases |chunks|
  {
    if i < |chunks| {
      var front := chunks[..|chunks| - 1];
      assert front[..i] == chunks[..i];
      ArrivalSticks(front, declared, i);
    } else {
      assert chunks[..i] == chunks;
    }
  }

  datatype PutError =
    | TooLarge | NotFound | QuotaExceeded | Failed | Body | LengthMismatch | DigestMismatch

  datatype Put = Present | Refused(error: PutError)

  /** Which operations of an upload fail: the write after the first `writes`, and any
      of the others; `read` is that of a file to be verified. */
  datatype Faults = Faults(
    writes: nat, read: bool, create: bool, sync: bool, rename: bool, syncDirectory: bool, index: bool,
    removePart: bool, removeFile: bool)

  predicate Faultless(f: Faults, chunks: seq<Chunk>) {
    |chunks| <= f.writes && !f.read && !f.create && !f.sync && !f.rename && !f.syncDirectory && !f.index
  }

  /** The body is whole, as long as declared, and what the digest names. */
  predicate Matches(c: Config, d: Digest, declared: nat, chunks: seq<Chunk>) {
    Whole(chunks) && |Joined(chunks)| == declared && c.hash(Joined(chunks)) == d
  }

  /** The answer to a body that meets no fault. */
  function Verdict(c: Config, d: Digest, declared: nat, chunks: seq<Chunk>): (r: Put)
    ensures r.Present? <==> Matches(c, d, declared, chunks)
  {
    match Arrival(chunks, declared)
    case Oversize => Refused(TooLarge)
    case BrokenBody => Refused(Body)
    case WriteFailed => Refused(Failed)
    case All =>
      if |Joined(chunks)| < declared then Refused(LengthMismatch)
      else if c.hash(Joined(chunks)) != d then Refused(DigestMismatch)
      else Present
  }

  /** The answer to an upload that meets no fault. */
  ghost function Answer(c: Config, k: Disk, d: Digest, declared: nat, chunks: seq<Chunk>): Put {
    if declared > MAX_BLOB_BYTES then Refused(TooLarge)
    else if d in k.files then if d in k.tables.rows then Present else Refused(NotFound)
    else if Total(k.tables) > I64_MAX then Refused(Failed)
    else if SatAdd(Total(k.tables), declared) > c.quota then Refused(QuotaExceeded)
    else Verdict(c, d, declared, chunks)
  }

  /** The upload is let in: its body is read, or the file that is there. */
  ghost predicate LetIn(c: Config, k: Disk, d: Digest, declared: nat) {
    declared <= MAX_BLOB_BYTES && if d in k.files then d in k.tables.rows else FitsQuota(c, k.tables, declared)
  }

  /** What an upload answers: what it would without faults, or, once it was let in, that
      it failed. */
  ghost predicate Answers(c: Config, k: Disk, d: Digest, declared: nat, chunks: seq<Chunk>, f: Faults, r: Put) {
    && (r == Answer(c, k, d, declared, chunks) || (LetIn(c, k, d, declared) && r == Refused(Failed)))
    && (Faultless(f, chunks) ==> r == Answer(c, k, d, declared, chunks))
    && (d !in k.files && r.Present? ==> Faultless(f.(read := false), chunks))
  }

  /** What an upload that was answered `r` has made of the disk. A failed one leaves no
      row, and no file or part either unless their removal fails. */
  ghost predicate Leaves(c: Config, k: Disk, d: Digest, declared: nat, chunks: seq<Chunk>, at: int, f: Faults, r: Put,
                         l: Disk)
  {
    && l.tables.refs == k.tables.refs
    && (d in k.files ==> l.files == k.files && l.parts == k.parts)
    && (r.Present? ==> d in l.tables.rows && d in l.files && c.hash(l.files[d]) == d)
    && (r.Present? && d !in k.files ==>
          && l.parts == k.parts && l.files == k.files[d := Joined(chunks)]
          && l.tables == k.tables.(rows := k.tables.rows[d := Row(declared, 0, at)]))
    && (r.Refused? ==> l.tables == k.tables && (d !in k.files ==> l.files - {d} == k.files))
    && (r.Refused? && !f.removePart && !f.removeFile ==> l.parts == k.parts && l.files == k.files)
  }

  lemma NothingDone(c: Config, k: Disk, d: Digest, declared: nat, chunks: seq<Chunk>, at: int, f: Faults,
                    error: PutError)
    ensures Leaves(c, k, d, declared, chunks, at, f, Refused(error), k)
  {
    assert d !in k.files ==> k.files - {d} == k.files;
  }

  lemma RunsOne(c: Config, s: State, step: Step)
    ensures Run(c, s, [step]) == Next(c, s, step)
  {
    RunGrows(c, s, [], step);
    assert [] + [step] == [step];
  }

  /** A statement on an open store, as a run. */
  lemma StatementRuns(c: Config, s: State, step: Step)
    requires Inv(c, s) && s.work.Idle?
    requires step.Use? || step.Retain? || step.Expire? || step.Release?
    ensures var t := s.(disk := s.disk.(tables := OnTables(s.disk.tables, step)), loose := OnLost(s, step));
            Run(c, s, [step]) == t && Inv(c, t)
  {
    RunsOne(c, s, step);
    StatementKeeps(c, s, step);
  }

  /** The tables without the rows of some unreferenced blobs. */
  function Without(t: Tables, q: seq<Digest>): Tables {
    Tables(t.rows - Members(q), t.refs)
  }

  lemma WithoutNone(t: Tables)
    ensures Without(t, []) == t && forall m: map<Digest, Content> :: m - Members([]) == m
  {
    assert t.rows - {} == t.rows;
    assert Members([]) == {};
  }

  lemma WithoutNext(t: Tables, q: seq<Digest>, i: nat)
    requires Queueable(t, q) && i < |q|
    ensures q[i] in Without(t, q[..i]).rows
    ensures DropRow(Without(t, q[..i]), q[i]) == Without(t, q[..i + 1])
    ensures Members(q[..i + 1]) == Members(q[..i]) + {q[i]}
  {
    assert q[..i + 1] == q[..i] + [q[i]];
    assert q[i] !in q[..i];
    assert RefsOf(t.refs, q[i]) == {};
    assert t.rows - Members(q[..i]) - {q[i]} == t.rows - Members(q[..i + 1]);
    assert t.refs - {} == t.refs;
  }

  lemma RemovedFile(s: State, d: Digest, w: Work)
    ensures RemoveFile(s, d).disk == s.disk.(files := s.disk.files - {d})
    ensures RemoveFile(s.(work := w), d) == RemoveFile(s, d).(work := w)
  {
    assert d !in s.disk.files ==> s.disk.files - {d} == s.disk.files;
  }

  lemma UnlinkRuns(c: Config, s: State, trace: seq<Step>, t: State, now: int, tx: Tables, queue: seq<Digest>)
    requires queue != [] && Run(c, s, trace) == t && t.work == Collecting(now, tx, queue)
    ensures Run(c, s, trace + [Unlink(true)])
         == RemoveFile(t, queue[0]).(work := Collecting(now, DropRow(tx, queue[0]), queue[1..]))
  {
    RunGrows(c, s, trace, Unlink(true));
  }

  datatype Report = Report(expired: nat, expiredRemoved: nat, candidates: nat, candidateBytes: nat,
                           removed: nat, removedBytes: nat)

  datatype Collected = Done(report: Report) | UnlinkFailed

  function Bound(limit: nat): nat {
    Min(limit, I64_MAX)
  }

  /** The candidates of a pass, and their size. */
  ghost predicate CandidatesOf(t: Tables, limit: nat, q: seq<Digest>, bytes: nat) {
    Coldest(t, limit, q) && Members(q) <= Sizes(t).Keys && bytes == SumOver(Sizes(t), Members(q))
  }

  lemma DropNothing(t: Tables)
    ensures DropRefs(t, {}) == t
  {
    assert t.refs - {} == t.refs;
    forall d | d in t.rows
      ensures RefsOf(t.refs, d) * {} == {}
    {
    }
    assert DropRefs(t, {}).rows == t.rows;
  }

  lemma NoPass(k: Disk, now: int, limit: nat)
    ensures Pass(k, k, now, limit, {}, [])
  {
    assert Members([]) == {};
    assert k.files - {} == k.files;
    assert k.tables.refs - {} == k.tables.refs;
  }

  /** What the unlink loop has counted, as long as every row had its file. */
  ghost predicate Tally(tx: Tables, left: Tables, covered: bool, done: nat, removed: nat, bytes: nat) {
    covered ==> removed == done && (Total(tx) <= U64_MAX ==> bytes + Total(left) == Total(tx))
  }

  lemma TallyGrows(tx: Tables, left: Tables, d: Digest, present: bool, covered: bool, done: nat, removed: nat,
                   bytes: nat)
    requires Tally(tx, left, covered, done, removed, bytes) && d in left.rows && (covered ==> present)
    ensures var n, m := if present then removed + 1 else removed,
                        if present then SatAdd(bytes, left.rows[d].size) else bytes;
            Tally(tx, DropRow(left, d), covered, done + 1, n, m)
  {
    TotalDrops(left, d);
  }

  /** A collection begins as a step of the machine. */
  lemma CollectingStarts(c: Config, s: State, now: int, gone: set<Ref>, queue: seq<Digest>, limit: nat)
    requires s.work.Idle? && gone <= ExpiredRefs(s.disk.tables, now)
    requires Coldest(DropRefs(s.disk.tables, gone), limit, queue)
    ensures var tx := DropRefs(s.disk.tables, gone);
            && Queueable(tx, queue)
            && Run(c, s, [Tick(now), Begin(now, gone, queue)])
               == s.(clock := if s.clock <= now then now else s.clock, work := Collecting(now, tx, queue))
  {
    RunsOne(c, s, Tick(now));
    RunGrows(c, s, [Tick(now)], Begin(now, gone, queue));
    assert [Tick(now)] + [Begin(now, gone, queue)] == [Tick(now), Begin(now, gone, queue)];
    forall d | d in queue
      ensures d in Unreferenced(DropRefs(s.disk.tables, gone))
    {
      assert d in Members(queue);
    }
  }

  /** ... and ends as one. */
  lemma CollectingEnds(c: Config, s: State, started: seq<Step>, unlinked: seq<Step>, t: State, now: int, left: Tables)
    requires Run(c, Run(c, s, started), unlinked) == t && t.work == Collecting(now, left, [])
    ensures Run(c, s, started + unlinked + [Commit]) == t.(disk := t.disk.(tables := left), work := Idle)
  {
    RunJoins(c, s, started, unlinked);
    RunGrows(c, s, started + unlinked, Commit);
  }

  lemma ColdPrefix(t: Tables, limit: nat, queue: seq<Digest>, done: nat, d: Digest, e: Digest)
    requires Coldest(t, limit, queue) && done <= |queue| && d in queue[..done]
    requires e in Unreferenced(Without(t, queue[..done]))
    ensures LastUsed(t, d) <= LastUsed(t, e)
  {
    assert e in Unreferenced(t) && e !in queue[..done];
    var i :| 0 <= i < done && queue[i] == d;
    if e in queue {
      var j :| 0 <= j < |queue| && queue[j] == e;
      assert done <= j;
    } else {
      assert e in Unreferenced(t) - Members(queue);
    }
  }

  /** What the committed transaction amounts to. */
  lemma PassOf(k: Disk, now: int, limit: nat, gone: set<Ref>, queue: seq<Digest>, done: nat)
    requires gone <= ExpiredRefs(k.tables, now) && |gone| == Min(limit, |ExpiredRefs(k.tables, now)|)
    requires Coldest(DropRefs(k.tables, gone), limit, queue) && done <= |queue|
    ensures var taken := queue[..done];
            var l := Disk(Without(DropRefs(k.tables, gone), taken), k.files - Members(taken), k.parts, k.shards);
            && Pass(k, l, now, limit, gone, taken)
            && (done == |queue| ==> taken == queue && Complete(k, now, limit, gone, taken))
  {
    var tx, taken := DropRefs(k.tables, gone), queue[..done];
    var left := Without(tx, taken);
    assert Members(taken) <= Members(queue);
    forall d, e | d in taken && e in Unreferenced(left)
      ensures LastUsed(k.tables, d) <= LastUsed(k.tables, e)
    {
      ColdPrefix(tx, limit, queue, done, d, e);
      assert LastUsed(tx, d) == LastUsed(k.tables, d) && LastUsed(tx, e) == LastUsed(k.tables, e);
    }
    forall r | r in left.refs
      ensures r.digest !in taken
    {
      assert r in RefsOf(tx.refs, r.digest);
      assert r.digest in taken ==> r.digest in Members(queue);
    }
  }

  /** The steps an upload makes. */
  ghost predicate UploadTrace(trace: seq<Step>) {
    forall i | 0 <= i < |trace| :: Uploads(trace[i]) || trace[i].Use?
  }

  lemma UploadTraceJoins(a: seq<Step>, b: seq<Step>)
    requires UploadTrace(a) && UploadTrace(b)
    ensures UploadTrace(a + b)
  {
  }

  /** One more file is gone. */
  lemma FilesWithoutNext(files: map<Digest, Content>, q: seq<Digest>, i: nat)
    requires i < |q|
    ensures files - Members(q[..i]) - {q[i]} == files - Members(q[..i + 1])
  {
    assert Members(q[..i + 1]) == Members(q[..i]) + {q[i]} by {
      assert q[..i + 1] == q[..i] + [q[i]];
    }
  }

  class Store {
    const config: Config
    var tables: Tables
    var files: map<Digest, Content>
    var parts: map<nat, Content>
    var shards: set<nat>
    ghost var loose: Unsynced
    ghost var clock: int

    ghost function Image(): Disk
      reads this
    {
      Disk(tables, files, parts, shards)
    }

    ghost function Phase(work: Work): State
      reads this
    {
      State(Image(), loose, clock, work)
    }

    ghost predicate Valid()
      reads this
    {
      Inv(config, Phase(Idle)) && config.quota <= U64_MAX
    }

    /** A store on a disk that start-up has reconciled. */
    constructor (c: Config, k: Disk, ghost s: State)
      requires Inv(c, s) && s.disk == k && s.work.Idle? && c.quota <= U64_MAX
      ensures Valid() && config == c && Phase(Idle) == s
    {
      config, tables, files, parts, shards := c, k.tables, k.files, k.parts, k.shards;
      loose, clock := s.loose, s.clock;
    }

    /** The body loop: the length is checked before each chunk is written, and the
        write after the first `writes` fails. */
    method Receive(d: Digest, declared: nat, part: nat, chunks: seq<Chunk>, writes: nat)
      returns (r: Received, ghost trace: seq<Step>)
      requires part in parts && parts[part] == []
      modifies this`parts
      ensures Phase(Uploading(d, declared, part, false))
           == Run(config, old(Phase(Uploading(d, declared, part, false))), trace)
      ensures UploadTrace(trace)
      ensures part in parts && parts - {part} == old(parts) - {part}
      ensures r == Arrival(chunks, declared) || (r.WriteFailed? && writes < |chunks|)
      ensures r.All? ==> parts[part] == Joined(chunks) && |chunks| <= writes
    {
      ghost var s := Phase(Uploading(d, declared, part, false));
      trace := [];
      for i := 0 to |chunks|
        invariant part in parts && parts - {part} == old(parts) - {part}
        invariant parts[part] == Joined(chunks[..i]) && Arrival(chunks[..i], declared).All? && i <= writes
        invariant UploadTrace(trace) && Phase(Uploading(d, declared, part, false)) == Run(config, s, trace)
      {
        JoinedGrows(chunks, i);
        assert chunks[..i + 1][..i] == chunks[..i];
        if chunks[i].Broken? {
          ArrivalSticks(chunks, declared, i + 1);
          return BrokenBody, trace;
        }
        if |parts[part]| + |chunks[i].bytes| > declared {
          ArrivalSticks(chunks, declared, i + 1);
          return Oversize, trace;
        }
        if i >= writes {
          return WriteFailed, trace;
        }
        RunGrows(config, s, trace, Write(chunks[i].bytes));
        trace := trace + [Write(chunks[i].bytes)];
        parts := parts[part := parts[part] + chunks[i].bytes];
      }
      assert chunks[..|chunks|] == chunks;
      r := All;
    }

    /** Reads the file of an indexed blob; what it finds is never corrupt, so the blob is
        marked as used. */
    method VerifyExisting(d: Digest, at: int, unreadable: bool) returns (r: Put, ghost trace: seq<Step>)
      requires Valid()
      modifies this`tables
      ensures Valid() && Phase(Idle) == Run(config, old(Phase(Idle)), trace) && UploadTrace(trace)
      ensures r == if d !in old(tables.rows) then Refused(NotFound)
                   else if unreadable then Refused(Failed)
                   else Present
      ensures tables == if r.Present? then Touch(old(tables), d, at) else old(tables)
    {
      trace := [];
      if d !in tables.rows {
        return Refused(NotFound), trace;
      }
      if unreadable {
        return Refused(Failed), trace;
      }
      var corrupt := |files[d]| != tables.rows[d].size || config.hash(files[d]) != d;
      assert !corrupt;
      StatementRuns(config, Phase(Idle), Use(d, at));
      trace := [Use(d, at)];
      tables := Touch(tables, d, at);
      r := Present;
    }

    method DiscardPart(d: Digest, declared: nat, part: nat, ghost synced: bool, fails: bool)
      returns (ghost trace: seq<Step>)
      modifies this`parts
      ensures Phase(Idle) == Run(config, old(Phase(Uploading(d, declared, part, synced))), trace)
      ensures UploadTrace(trace)
      ensures parts == if fails then old(parts) else old(parts) - {part}
    {
      trace := [Abandon(!fails)];
      RunsOne(config, Phase(Uploading(d, declared, part, synced)), Abandon(!fails));
      if !fails {
        parts := parts - {part};
      }
    }

    /** An upload that failed after its rename takes its file away again. */
    method DiscardFile(d: Digest, ghost w: Work, fails: bool) returns (ghost trace: seq<Step>)
      requires (w.Renamed? || w.Settled?) && w.digest == d && d !in tables.rows
      modifies this`files, this`loose
      ensures Phase(Idle) == Run(config, old(Phase(w)), trace) && UploadTrace(trace)
      ensures files == if fails then old(files) else old(files) - {d}
    {
      ghost var s := Phase(w);
      trace := [Abandon(!fails)];
      RunsOne(config, s, Abandon(!fails));
      RemovedFile(s, d, Idle);
      if !fails {
        files, loose := files - {d}, RemoveFile(s, d).loose;
      }
    }

    /** The renamed file gets its row once its directory is synchronised, or goes
        again. */
    method IndexFile(d: Digest, size: nat, at: int, f: Faults) returns (r: Put, ghost trace: seq<Step>)
      requires d !in tables.rows
      modifies this`tables, this`files, this`loose
      ensures Phase(Idle) == Run(config, old(Phase(Renamed(d, size))), trace) && UploadTrace(trace)
      ensures r == if f.syncDirectory || f.index then Refused(Failed) else Present
      ensures tables == if r.Present? then old(tables).(rows := old(tables).rows[d := Row(size, 0, at)])
                        else old(tables)
      ensures files == if r.Present? || f.removeFile then old(files) else old(files) - {d}
    {
      ghost var s := Phase(Renamed(d, size));
      if f.syncDirectory {
        trace := DiscardFile(d, Renamed(d, size), f.removeFile);
        return Refused(Failed), trace;
      }
      RunsOne(config, s, SyncDirectory);
      loose := SyncShard(config, loose, config.shard(d));
      assert Phase(Settled(d, size)) == Run(config, s, [SyncDirectory]);
      if f.index {
        trace := DiscardFile(d, Settled(d, size), f.removeFile);
        r := Refused(Failed);
      } else {
        RunsOne(config, Phase(Settled(d, size)), Index(at));
        trace := [Index(at)];
        tables := tables.(rows := tables.rows[d := Row(size, 0, at)]);
        r := Present;
      }
      RunJoins(config, s, [SyncDirectory], trace);
      trace := [SyncDirectory] + trace;
    }

    /** The synchronised part becomes the blob's file. */
    method RenamePart(d: Digest, declared: nat, part: nat) returns (ghost trace: seq<Step>)
      requires part in parts && |parts[part]| == declared && config.hash(parts[part]) == d
      modifies this`files, this`parts, this`loose
      ensures Phase(Renamed(d, declared)) == Run(config, old(Phase(Uploading(d, declared, part, false))), trace)
      ensures UploadTrace(trace)
      ensures parts == old(parts) - {part} && files == old(files)[d := old(parts[part])]
    {
      ghost var s := Phase(Uploading(d, declared, part, false));
      RunsOne(config, s, SyncPart);
      RunGrows(config, s, [SyncPart], Rename);
      trace := [SyncPart] + [Rename];
      files, parts, loose := files[d := parts[part]], parts - {part}, loose.(added := loose.added + {d});
    }

    /** The received part becomes the blob's file, and then gets its row. */
    method Publish(d: Digest, declared: nat, part: nat, at: int, f: Faults)
      returns (r: Put, ghost trace: seq<Step>)
      requires part in parts && d !in files && d !in tables.rows
      modifies this`tables, this`files, this`parts, this`loose
      ensures Phase(Idle) == Run(config, old(Phase(Uploading(d, declared, part, false))), trace)
      ensures UploadTrace(trace)
      ensures r == if |old(parts[part])| != declared then Refused(LengthMismatch)
                   else if config.hash(old(parts[part])) != d then Refused(DigestMismatch)
                   else if f.sync || f.rename || f.syncDirectory || f.index then Refused(Failed)
                   else Present
      ensures r.Present? ==> && parts == old(parts) - {part} && files == old(files)[d := old(parts[part])]
                             && tables == old(tables).(rows := old(tables).rows[d := Row(declared, 0, at)])
      ensures r.Refused? ==> tables == old(tables) && files - {d} == old(files)
      ensures r.Refused? && !f.removePart && !f.removeFile ==> parts == old(parts) - {part} && files == old(files)
    {
      r := if |parts[part]| != declared then Refused(LengthMismatch)
           else if config.hash(parts[part]) != d then Refused(DigestMismatch)
           else if f.sync || f.rename then Refused(Failed)
           else Present;
      if r.Refused? {
        assert files - {d} == files;
        trace := DiscardPart(d, declared, part, false, f.removePart);
      } else {
        ghost var s := Phase(Uploading(d, declared, part, false));
        ghost var renamed, ending;
        renamed := RenamePart(d, declared, part);
        assert files - {d} == old(files);
        r, ending := IndexFile(d, declared, at, f);
        RunJoins(config, s, renamed, ending);
        UploadTraceJoins(renamed, ending);
        trace := renamed + ending;
      }
    }

    /** An upload that was let in, from its part file to its end. */
    method Upload(d: Digest, declared: nat, chunks: seq<Chunk>, part: nat, at: int, f: Faults)
      returns (r: Put, ghost trace: seq<Step>)
      requires declared <= MAX_BLOB_BYTES && FitsQuota(config, tables, declared)
      requires part !in parts && d !in files && d !in tables.rows
      modifies this`tables, this`files, this`parts, this`shards, this`loose
      ensures Phase(Idle) == Run(config, old(Phase(Idle)), trace) && UploadTrace(trace)
      ensures r.Present? ==> Faultless(f.(read := false), chunks)
      ensures r == Verdict(config, d, declared, chunks) || r == Refused(Failed)
      ensures Faultless(f.(read := false), chunks) ==> r == Verdict(config, d, declared, chunks)
      ensures r.Present? ==> && parts == old(parts) && files == old(files)[d := Joined(chunks)]
                             && tables == old(tables).(rows := old(tables).rows[d := Row(declared, 0, at)])
      ensures r.Refused? ==> tables == old(tables) && files - {d} == old(files)
      ensures r.Refused? && !f.removePart && !f.removeFile ==> parts == old(parts) && files == old(files)
    {
      trace := [];
      if f.create {
        assert files - {d} == files;
        return Refused(Failed), trace;
      }
      ghost var s := Phase(Idle);
      RunsOne(config, s, Create(d, declared, part));
      loose := Next(config, s, Create(d, declared, part)).loose;
      parts, shards := parts[part := []], shards + {config.shard(d)};
      assert parts - {part} == old(parts);
      assert Phase(Uploading(d, declared, part, false)) == Run(config, s, [Create(d, declared, part)]);
      var body;
      ghost var written, ending;
      body, written := Receive(d, declared, part, chunks, f.writes);
      if body.All? {
        r, ending := Publish(d, declared, part, at, f);
      } else {
        r := Refused(if body.BrokenBody? then Body else if body.Oversize? then TooLarge else Failed);
        assert files - {d} == files;
        ending := DiscardPart(d, declared, part, false, f.removePart);
      }
      RunJoins(config, s, [Create(d, declared, part)], written);
      RunJoins(config, s, [Create(d, declared, part)] + written, ending);
      UploadTraceJoins([Create(d, declared, part)], written);
      UploadTraceJoins([Create(d, declared, part)] + written, ending);
      trace := [Create(d, declared, part)] + written + ending;
    }

    /** An upload of what is there already. */
    method PutExisting(d: Digest, declared: nat, ghost chunks: seq<Chunk>, at: int, f: Faults)
      returns (r: Put, ghost trace: seq<Step>)
      requires Valid() && d in files && declared <= MAX_BLOB_BYTES
      modifies this`tables
      ensures Valid() && Phase(Idle) == Run(config, old(Phase(Idle)), trace) && UploadTrace(trace)
      ensures Answers(config, old(Image()), d, declared, chunks, f, r)
      ensures Leaves(config, old(Image()), d, declared, chunks, at, f, r, Image())
    {
      r, trace := VerifyExisting(d, at, f.read);
    }

    /** An upload of what is not there. */
    method PutAbsent(d: Digest, declared: nat, chunks: seq<Chunk>, part: nat, at: int, f: Faults)
      returns (r: Put, ghost trace: seq<Step>)
      requires Valid() && declared <= MAX_BLOB_BYTES && part !in parts && d !in files
      modifies this`tables, this`files, this`parts, this`shards, this`loose
      ensures Valid() && Phase(Idle) == Run(config, old(Phase(Idle)), trace) && UploadTrace(trace)
      ensures Answers(config, old(Image()), d, declared, chunks, f, r)
      ensures Leaves(config, old(Image()), d, declared, chunks, at, f, r, Image())
    {
      var refused, overflow := CheckQuota(config, tables, declared);
      if refused || overflow {
        r := Refused(if overflow then Failed else QuotaExceeded);
        NothingDone(config, Image(), d, declared, chunks, at, f, r.error);
        return r, [];
      }
      r, trace := Upload(d, declared, chunks, part, at, f);
      InvKept(config, old(Phase(Idle)), trace);
    }

    /** Stores the body under its digest if it fits, is whole and matches. */
    method PutStream(d: Digest, declared: nat, chunks: seq<Chunk>, part: nat, at: int, f: Faults)
      returns (r: Put, ghost trace: seq<Step>)
      requires Valid() && part !in parts
      modifies this`tables, this`files, this`parts, this`shards, this`loose
      ensures Valid() && Phase(Idle) == Run(config, old(Phase(Idle)), trace) && UploadTrace(trace)
      ensures Answers(config, old(Image()), d, declared, chunks, f, r)
      ensures Leaves(config, old(Image()), d, declared, chunks, at, f, r, Image())
    {
      if declared > MAX_BLOB_BYTES {
        NothingDone(config, Image(), d, declared, chunks, at, f, TooLarge);
        return Refused(TooLarge), [];
      }
      if d in files {
        r, trace := PutExisting(d, declared, chunks, at, f);
      } else {
        r, trace := PutAbsent(d, declared, chunks, part, at, f);
      }
    }

    // ----- references -----

    /** Retains every entry for its owner, or none when a blob is missing. */
    method RetainPerOwner(entries: seq<Ref>, deadline: Deadline) returns (ok: bool, ghost trace: seq<Step>)
      requires Valid() && (deadline.Until? ==> deadline.ms <= U64_MAX)
      modifies this`tables, this`loose
      ensures Valid() && Phase(Idle) == Run(config, old(Phase(Idle)), trace)
      ensures ok <==> AllPresent(old(tables), entries)
      ensures tables == if ok then Retained(old(tables), entries, Stored(deadline)) else old(tables)
      ensures trace == if ok then [Retain(entries, Stored(deadline))] else []
    {
      var tx;
      trace := [];
      ok, tx := RetainIn(tables, entries, Stored(deadline));
      if ok {
        StatementRuns(config, Phase(Idle), Retain(entries, Stored(deadline)));
        trace := [Retain(entries, Stored(deadline))];
        loose := OnLost(Phase(Idle), Retain(entries, Stored(deadline)));
        tables := tx;
      }
    }

    method SetReferenceExpiry(kind: Kind, owner: nat, deadline: Deadline) returns (ghost trace: seq<Step>)
      requires Valid() && (deadline.Until? ==> deadline.ms <= U64_MAX)
      modifies this`tables
      ensures Valid() && Phase(Idle) == Run(config, old(Phase(Idle)), trace)
      ensures tables.rows == old(tables.rows) && tables.refs.Keys == old(tables.refs.Keys)
      ensures forall r | r in tables.refs ::
                tables.refs[r] == if r.kind == kind && r.owner == owner then Stored(deadline) else old(tables.refs)[r]
    {
      StatementRuns(config, Phase(Idle), Expire(kind, owner, Stored(deadline)));
      trace := [Expire(kind, owner, Stored(deadline))];
      tables := SetExpiry(tables, kind, owner, Stored(deadline));
    }

    method ReleaseReferences(kind: Kind, owner: nat) returns (ghost trace: seq<Step>)
      requires Valid()
      modifies this`tables
      ensures Valid() && Phase(Idle) == Run(config, old(Phase(Idle)), trace)
      ensures tables.rows.Keys == old(tables.rows.Keys)
      ensures forall r :: r in tables.refs <==> r in old(tables.refs) && !(r.kind == kind && r.owner == owner)
      ensures forall r | r in tables.refs :: tables.refs[r] == old(tables.refs)[r]
    {
      StatementRuns(config, Phase(Idle), Release(kind, owner));
      trace := [Release(kind, owner)];
      tables := DropRefs(tables, OwnedBy(tables.refs, kind, owner));
    }

    // ----- garbage collection -----

    /** The unlink loop: each candidate's file goes and its row goes from the
        transaction, until one of the `stuck` files cannot be unlinked. */
    method UnlinkAll(now: int, tx: Tables, queue: seq<Digest>, stuck: set<Digest>)
      returns (left: Tables, done: nat, removed: nat, bytes: nat, ghost trace: seq<Step>)
      requires Queueable(tx, queue)
      modifies this`files, this`loose
      ensures done <= |queue| && (forall i | 0 <= i < done :: queue[i] !in stuck)
      ensures done < |queue| ==> queue[done] in stuck
      ensures Phase(Collecting(now, left, [])) == Run(config, old(Phase(Collecting(now, tx, queue))), trace)
      ensures files == old(files) - Members(queue[..done])
      ensures left == Without(tx, queue[..done])
      ensures Tally(tx, left, tx.rows.Keys <= old(files.Keys), done, removed, bytes)
    {
      ghost var s := Phase(Collecting(now, tx, queue));
      left, done, removed, bytes, trace := tx, 0, 0, 0, [];
      WithoutNone(tx);
      while done < |queue| && queue[done] !in stuck
        invariant done <= |queue| && forall i | 0 <= i < done :: queue[i] !in stuck
        invariant Phase(Collecting(now, left, queue[done..])) == Run(config, s, trace)
        invariant files == old(files) - Members(queue[..done])
        invariant left == Without(tx, queue[..done])
        invariant Tally(tx, left, tx.rows.Keys <= old(files.Keys), done, removed, bytes)
      {
        var d := queue[done];
        WithoutNext(tx, queue, done);
        FilesWithoutNext(old(files), queue, done);
        assert tx.rows.Keys <= old(files.Keys) ==> d in files;
        TallyGrows(tx, left, d, d in files, tx.rows.Keys <= old(files.Keys), done, removed, bytes);
        if d in files {
          removed, bytes := removed + 1, SatAdd(bytes, left.rows[d].size);
        }
        trace := UnlinkOne(now, left, queue[done..], s, trace);
        left := DropRow(left, d);
        done := done + 1;
      }
      if done < |queue| {
        RunGrows(config, s, trace, Unlink(false));
        trace := trace + [Unlink(false)];
      } else {
        assert queue[done..] == [];
      }
    }

    method UnlinkOne(now: int, tx: Tables, queue: seq<Digest>, ghost s: State, ghost before: seq<Step>)
      returns (ghost trace: seq<Step>)
      requires queue != [] && Phase(Collecting(now, tx, queue)) == Run(config, s, before)
      modifies this`files, this`loose
      ensures files == old(files) - {queue[0]}
      ensures Phase(Collecting(now, DropRow(tx, queue[0]), queue[1..])) == Run(config, s, trace)
    {
      ghost var t := Phase(Collecting(now, tx, queue));
      UnlinkRuns(config, s, before, t, now, tx, queue);
      RemovedFile(t, queue[0], Idle);
      trace := before + [Unlink(true)];
      files, loose := files - {queue[0]}, RemoveFile(t, queue[0]).loose;
    }

    /** The transaction of a pass over what was selected. */
    method Collect(now: int, gone: set<Ref>, queue: seq<Digest>, ghost limit: nat, stuck: set<Digest>)
      returns (done: nat, removed: nat, bytes: nat, ghost trace: seq<Step>)
      requires gone <= ExpiredRefs(tables, now) && Coldest(DropRefs(tables, gone), limit, queue)
      modifies this
      ensures Phase(Idle) == Run(config, old(Phase(Idle)), trace)
      ensures done <= |queue| && (done < |queue| ==> queue[done] in stuck)
      ensures Image() == Disk(Without(DropRefs(old(tables), gone), queue[..done]),
                              old(files) - Members(queue[..done]), old(parts), old(shards))
      ensures old(tables.rows.Keys) <= old(files.Keys) ==> removed == done
      ensures var tx := DropRefs(old(tables), gone);
              old(tables.rows.Keys) <= old(files.Keys) && Total(tx) <= U64_MAX ==> bytes + Total(tables) == Total(tx)
    {
      ghost var s := Phase(Idle);
      CollectingStarts(config, s, now, gone, queue, limit);
      clock := if clock <= now then now else clock;
      var left;
      ghost var unlinked;
      left, done, removed, bytes, unlinked := UnlinkAll(now, DropRefs(tables, gone), queue, stuck);
      ghost var started := [Tick(now), Begin(now, gone, queue)];
      CollectingEnds(config, s, started, unlinked, Phase(Collecting(now, left, [])), now, left);
      trace := started + unlinked + [Commit];
      tables := left;
    }

    /** A pass that is no dry run. */
    method Sweep(now: int, limit: nat, stuck: set<Digest>)
      returns (r: Collected, ghost gone: set<Ref>, ghost taken: seq<Digest>, ghost trace: seq<Step>)
      requires Sound(tables) && tables.rows.Keys <= files.Keys && Total(tables) <= U64_MAX
      modifies this
      ensures Phase(Idle) == Run(config, old(Phase(Idle)), trace)
      ensures Pass(old(Image()), Image(), now, limit, gone, taken)
      ensures r.Done? ==> Complete(old(Image()), now, limit, gone, taken)
      ensures stuck == {} ==> r.Done?
      ensures r.Done? ==>
              && r.report.expired == |ExpiredRefs(old(tables), now)|
              && r.report.expiredRemoved == |gone|
              && r.report.candidates == r.report.removed == |taken|
              && CandidatesOf(DropRefs(old(tables), gone), limit, taken, r.report.candidateBytes)
              && r.report.removedBytes + Total(tables) == Total(old(tables))
    {
      var expired := |ExpiredRefs(tables, now)|;
      var dropped := ExpiredReferences(tables, now, limit);
      DropRefsKeeps(tables, dropped);
      var candidates := UnreferencedCandidates(DropRefs(tables, dropped), limit);
      var candidateBytes := CandidateBytes(DropRefs(tables, dropped), candidates);
      var done, removed, bytes;
      done, removed, bytes, trace := Collect(now, dropped, candidates, limit, stuck);
      gone, taken := dropped, candidates[..done];
      PassOf(old(Image()), now, limit, dropped, candidates, done);
      r := if done < |candidates| then UnlinkFailed
           else Done(Report(expired, |dropped|, |candidates|, candidateBytes, removed, bytes));
    }

    /** One pass. A dry run changes nothing; a real one drops expired references and
        then the coldest unreferenced blobs, both up to `limit`, and commits what it
        did even when a file cannot be unlinked. */
    method GarbageCollect(now: nat, limit: nat, dryRun: bool, stuck: set<Digest>)
      returns (r: Collected, ghost gone: set<Ref>, ghost taken: seq<Digest>, ghost trace: seq<Step>)
      requires Valid() && now <= U64_MAX
      modifies this
      ensures Valid() && Phase(Idle) == Run(config, old(Phase(Idle)), trace)
      ensures dryRun ==> Image() == old(Image()) && r.Done?
      ensures Pass(old(Image()), Image(), AsI64(now), Bound(limit), gone, taken)
      ensures r.Done? && !dryRun ==> Complete(old(Image()), AsI64(now), Bound(limit), gone, taken)
      ensures stuck == {} ==> r.Done?
      ensures r.Done? ==>
              && r.report.expired == |ExpiredRefs(old(tables), AsI64(now))|
              && r.report.expiredRemoved == |gone|
              && r.report.candidates == Min(Bound(limit), |Unreferenced(DropRefs(old(tables), gone))|)
              && r.report.removed == |taken|
              && r.report.removedBytes + Total(tables) == Total(old(tables))
      ensures r.Done? ==>
              exists q :: CandidatesOf(DropRefs(old(tables), gone), Bound(limit), q, r.report.candidateBytes)
    {
      if dryRun {
        NoPass(Image(), AsI64(now), Bound(limit));
        DropNothing(tables);
        var preview := UnreferencedCandidates(tables, Bound(limit));
        var previewBytes := CandidateBytes(tables, preview);
        assert CandidatesOf(tables, Bound(limit), preview, previewBytes);
        return Done(Report(|ExpiredRefs(tables, AsI64(now))|, 0, |preview|, previewBytes, 0, 0)), {}, [], [];
      }
      r, gone, taken, trace := Sweep(AsI64(now), Bound(limit), stuck);
      InvKept(config, old(Phase(Idle)), trace);
    }
  }

  /** Opens the store on the disk its last process left, or fails and leaves the rest of
      the repair to the next attempt. It may fail before it begins, when the directory or
      the database is not available. */
  method OpenStore(c: Config, left: Disk, available: bool, stuck: Stuck, ghost s: State)
    returns (store: Store?, l: Disk, ghost trace: seq<Step>)
    requires Inv(c, s) && s.disk == left && s.work.Down? && c.quota <= U64_MAX
    ensures store != null <==> available && Openable(left, stuck)
    ensures store != null ==>
            && fresh(store) && store.Valid() && store.config == c
            && store.Image() == l == Reconciled(left) && store.Phase(Idle) == Run(c, s, trace)
    ensures store == null ==>
            && Inv(c, Run(c, s, trace)) && Run(c, s, trace).work.Down? && Run(c, s, trace).disk == l
            && Reconciled(l) == Reconciled(left)
  {
    var ok;
    store := null;
    if !available {
      return null, left, [];
    }
    ok, l, trace := Reconcile(c, left, stuck, s);
    InvKept(c, s, trace);
    if ok {
      store := new Store(c, l, Run(c, s, trace));
    }
  }
}

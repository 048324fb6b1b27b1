/** Capturing declared outputs: each file becomes a blob, then all the blobs are
    retained, then all the records are inserted. */
module ArtifactStore {
  import opened Words
  import opened BlobTables
  import opened BlobMachine
  import opened BlobSafety
  import opened BlobStore
  import opened Artifacts

  const MAX_ARTIFACT_TOTAL_BYTES: nat := 2147483648

  /** A discovered output: its artifact id, what the first read of it yields, which
      fixes digest and size, what the second read sends to the blob store, and what
      that upload meets. */
  datatype Output = Output(id: nat, first: Content, body: seq<Chunk>, part: nat, at: int, faults: Faults)

  function RefOf(c: Config, o: Output): Ref {
    Ref(Artifact, o.id, c.hash(o.first))
  }

  function RefsFor(c: Config, outputs: seq<Output>): (refs: seq<Ref>)
    ensures |refs| == |outputs| && forall i | 0 <= i < |refs| :: refs[i] == RefOf(c, outputs[i])
  {
    seq(|outputs|, i requires 0 <= i < |outputs| => RefOf(c, outputs[i]))
  }

  function TotalSize(outputs: seq<Output>): nat {
    if |outputs| == 0 then 0 else TotalSize(outputs[..|outputs| - 1]) + |outputs[|outputs| - 1].first|
  }

  lemma TotalSizeGrows(outputs: seq<Output>, i: nat)
    requires i < |outputs|
    ensures TotalSize(outputs[..i + 1]) == TotalSize(outputs[..i]) + |outputs[i].first|
  {
    assert outputs[..i + 1][..i] == outputs[..i];
  }

  function Recorded(n: nat, refs: seq<Ref>, expires: int): map<Ref, Art> {
    map r | r in refs :: Art(n, expires)
  }

  /** The primary key: no id twice. */
  predicate FreshIds(rows: map<Ref, Art>, refs: seq<Ref>) {
    && (forall i, j | 0 <= i < j < |refs| :: refs[i].owner != refs[j].owner)
    && (forall r, q | r in refs && q in rows :: r.owner != q.owner)
  }

  /** One more record: what the table then holds, and when its id is free. */
  lemma RecordedGrows(rows: map<Ref, Art>, n: nat, refs: seq<Ref>, expires: int, i: nat)
    requires i < |refs|
    ensures (rows + Recorded(n, refs[..i], expires))[refs[i] := Art(n, expires)]
         == rows + Recorded(n, refs[..i + 1], expires)
  {
    assert refs[..i + 1] == refs[..i] + [refs[i]];
    assert forall q :: q in refs[..i + 1] <==> q in refs[..i] || q == refs[i];
  }

  lemma FreshIdsShrink(rows: map<Ref, Art>, refs: seq<Ref>, i: nat)
    requires i <= |refs| && FreshIds(rows, refs)
    ensures FreshIds(rows, refs[..i])
  {
  }

  lemma FreshIdsGrow(rows: map<Ref, Art>, refs: seq<Ref>, r: Ref)
    requires FreshIds(rows, refs)
    ensures FreshIds(rows, refs + [r]) <==>
            (forall q | q in rows :: q.owner != r.owner) && (forall q | q in refs :: q.owner != r.owner)
  {
    var all := refs + [r];
    assert all[|refs|] == r;
    if FreshIds(rows, all) {
      assert r in all;
      forall q | q in refs
        ensures q.owner != r.owner
      {
        var k :| 0 <= k < |refs| && refs[k] == q;
        assert all[k].owner != all[|refs|].owner;
      }
    }
  }

  class Records {
    var rows: map<Ref, Art>

    constructor ()
      ensures rows == map[]
    {
      rows := map[];
    }

    /** Inserts all the records of a capture, or none when an id is taken or a statement
        fails: the one at index `fault`, the commit being the last. */
    method InsertMany(n: nat, refs: seq<Ref>, expires: int, fault: nat) returns (ok: bool)
      modifies this
      ensures ok <==> FreshIds(old(rows), refs) && |refs| < fault
      ensures rows == if ok then old(rows) + Recorded(n, refs, expires) else old(rows)
    {
      var tx := rows;
      for i := 0 to |refs|
        invariant rows == old(rows)
        invariant tx == rows + Recorded(n, refs[..i], expires)
        invariant FreshIds(rows, refs[..i]) && i <= fault
      {
        assert refs[..i + 1] == refs[..i] + [refs[i]];
        RecordedGrows(rows, n, refs, expires, i);
        FreshIdsGrow(rows, refs[..i], refs[i]);
        if FreshIds(rows, refs) {
          FreshIdsShrink(rows, refs, i + 1);
        }
        if i == fault || exists q | q in tx :: q.owner == refs[i].owner {
          return false;
        }
        tx := tx[refs[i] := Art(n, expires)];
      }
      assert refs[..|refs|] == refs;
      if |refs| == fault {
        return false;
      }
      rows, ok := tx, true;
    }
  }

  /** Uploads one output, read twice, if it fits in what is left. */
  method CaptureBlob(blobs: Store, o: Output, remaining: nat) returns (ok: bool, ghost trace: seq<Step>)
    requires blobs.Valid() && o.part !in blobs.parts
    modifies blobs`tables, blobs`files, blobs`parts, blobs`shards, blobs`loose
    ensures blobs.Valid() && blobs.Phase(Idle) == Run(blobs.config, old(blobs.Phase(Idle)), trace)
    ensures UploadTrace(trace) && blobs.tables.refs == old(blobs.tables.refs)
    ensures ok ==> |o.first| <= MAX_BLOB_BYTES && |o.first| <= remaining && blobs.parts == old(blobs.parts)
    ensures ok ==> blobs.config.hash(o.first) in blobs.tables.rows
  {
    if |o.first| > MAX_BLOB_BYTES || |o.first| > remaining {
      return false, [];
    }
    var r;
    r, trace := blobs.PutStream(blobs.config.hash(o.first), |o.first|, o.body, o.part, o.at, o.faults);
    ok := r.Present?;
  }

  /** Uploads the outputs one by one, within the total size a capture may have. */
  method CaptureBlobs(blobs: Store, outputs: seq<Output>) returns (ok: bool, ghost trace: seq<Step>)
    requires blobs.Valid() && forall o | o in outputs :: o.part !in blobs.parts
    modifies blobs`tables, blobs`files, blobs`parts, blobs`shards, blobs`loose
    ensures blobs.Valid() && blobs.Phase(Idle) == Run(blobs.config, old(blobs.Phase(Idle)), trace)
    ensures UploadTrace(trace) && blobs.tables.refs == old(blobs.tables.refs)
    ensures ok ==> TotalSize(outputs) <= MAX_ARTIFACT_TOTAL_BYTES && blobs.parts == old(blobs.parts)
  {
    ghost var s := blobs.Phase(Idle);
    trace := [];
    var total := 0;
    for i := 0 to |outputs|
      invariant blobs.Valid() && blobs.Phase(Idle) == Run(blobs.config, s, trace) && UploadTrace(trace)
      invariant blobs.parts == old(blobs.parts) && blobs.tables.refs == old(blobs.tables.refs)
      invariant total == TotalSize(outputs[..i]) <= MAX_ARTIFACT_TOTAL_BYTES
    {
      ghost var steps;
      ok, steps := CaptureBlob(blobs, outputs[i], SatSub(MAX_ARTIFACT_TOTAL_BYTES, total));
      RunJoins(blobs.config, s, trace, steps);
      UploadTraceJoins(trace, steps);
      trace := trace + steps;
      if !ok {
        return;
      }
      TotalSizeGrows(outputs, i);
      total := SatAdd(total, |outputs[i].first|);
    }
    assert outputs[..|outputs|] == outputs;
    ok := true;
  }

  /** What a retained reference is worth in an open store. */
  lemma RetainedIsStored(c: Config, s: State, t: Tables, refs: seq<Ref>, e: Expiry, r: Ref)
    requires Inv(c, s) && s.work.Idle? && r in refs && AllPresent(t, refs)
    requires s.disk.tables == Retained(t, refs, e)
    ensures r in s.disk.tables.refs && s.disk.tables.refs[r] == e
    ensures r.digest in s.disk.files && c.hash(s.disk.files[r.digest]) == r.digest
  {
    RetainedRefs(t, refs, e, r);
  }

  /** Retains all the blobs of a capture, or none. */
  method RetainCapture(blobs: Store, refs: seq<Ref>, expires: nat) returns (ok: bool, ghost trace: seq<Step>)
    requires blobs.Valid() && expires <= U64_MAX
    modifies blobs`tables, blobs`loose
    ensures blobs.Valid() && blobs.Phase(Idle) == Run(blobs.config, old(blobs.Phase(Idle)), trace)
    ensures trace == if ok then [Retaining(Batch(refs, AsI64(expires)))] else []
    ensures ok <==> AllPresent(old(blobs.tables), refs)
    ensures !ok ==> blobs.tables == old(blobs.tables)
    ensures ok ==> forall r | r in refs ::
              && r in blobs.tables.refs && blobs.tables.refs[r] == At(AsI64(expires))
              && r.digest in blobs.files && blobs.config.hash(blobs.files[r.digest]) == r.digest
  {
    ok, trace := blobs.RetainPerOwner(refs, Until(expires));
    if ok {
      forall r | r in refs
        ensures r in blobs.tables.refs && blobs.tables.refs[r] == At(AsI64(expires))
        ensures r.digest in blobs.files && blobs.config.hash(blobs.files[r.digest]) == r.digest
      {
        RetainedIsStored(blobs.config, blobs.Phase(Idle), old(blobs.tables), refs, At(AsI64(expires)), r);
      }
    }
  }

  /** What a capture does to the two stores once its blobs are there. */
  lemma CaptureIsTwoEvents(c: Config, w: World, n: nat, b: Batch, ok: bool)
    requires w.blobs.work.Idle? && Novel(w.catalog, n, b) && AllPresent(w.blobs.disk.tables, b.refs)
    ensures var u := Then(c, w, [RetainBatch(n, b), InsertBatch(n, ok)]);
            && u.blobs == Run(c, w.blobs, [Retaining(b)])
            && u.catalog.rows == if ok then w.catalog.rows + Recorded(n, b.refs, b.expires) else w.catalog.rows
  {
    RunsOne(c, w.blobs, Retaining(b));
    OneEventMore(c, w, [], RetainBatch(n, b));
    OneEventMore(c, w, [] + [RetainBatch(n, b)], InsertBatch(n, ok));
    assert [] + [RetainBatch(n, b)] + [InsertBatch(n, ok)] == [RetainBatch(n, b), InsertBatch(n, ok)];
  }

  lemma {:induction false} ThenJoins(c: Config, w: World, a: seq<Event>, b: seq<Event>)
    ensures Then(c, w, a + b) == Then(c, Then(c, w, a), b)
  {
    if |b| == 0 {
      assert a + b == a;
    } else {
      assert a + b == (a + b[..|b| - 1]) + [b[|b| - 1]];
      OneEventMore(c, w, a + b[..|b| - 1], b[|b| - 1]);
      ThenJoins(c, w, a, b[..|b| - 1]);
    }
  }

  /** A capture publishes all of its records, with every blob retained until they
      expire, or none; either way it is a history of the two stores. */
  method CaptureDeclared(records: Records, blobs: Store, n: nat, outputs: seq<Output>,
                         preflight: bool, validTree: bool, expires: nat, fault: nat, ghost w: World)
    returns (ok: bool, ghost events: seq<Event>)
    requires blobs.Valid() && expires <= U64_MAX && forall o | o in outputs :: o.part !in blobs.parts
    requires w.blobs == blobs.Phase(Idle) && w.catalog.rows == records.rows
    requires Novel(w.catalog, n, Batch(RefsFor(blobs.config, outputs), AsI64(expires)))
    modifies records, blobs`tables, blobs`files, blobs`parts, blobs`shards, blobs`loose
    ensures var u := Then(blobs.config, w, events);
            blobs.Valid() && u.blobs == blobs.Phase(Idle) && u.catalog.rows == records.rows
    ensures !ok ==> records.rows == old(records.rows)
    ensures ok ==>
            && records.rows == old(records.rows) + Recorded(n, RefsFor(blobs.config, outputs), AsI64(expires))
            && FreshIds(old(records.rows), RefsFor(blobs.config, outputs))
            && TotalSize(outputs) <= MAX_ARTIFACT_TOTAL_BYTES && preflight && validTree
    ensures ok ==> forall r | r in RefsFor(blobs.config, outputs) ::
              && r in blobs.tables.refs && blobs.tables.refs[r] == At(AsI64(expires))
              && r.digest in blobs.files && blobs.config.hash(blobs.files[r.digest]) == r.digest
  {
    if !preflight {
      return false, [];
    }
    ghost var trace;
    ok, trace := CaptureBlobs(blobs, outputs);
    events := AsEvents(trace);
    EventsOfSteps(blobs.config, w, trace);
    if !ok || !validTree {
      return false, events;
    }
    var refs := RefsFor(blobs.config, outputs);
    ghost var b, v := Batch(refs, AsI64(expires)), Then(blobs.config, w, events);
    ok, trace := RetainCapture(blobs, refs, expires);
    if ok {
      ok := records.InsertMany(n, refs, AsI64(expires), fault);
      CaptureIsTwoEvents(blobs.config, v, n, b, ok);
      ThenJoins(blobs.config, w, events, [RetainBatch(n, b), InsertBatch(n, ok)]);
      events := events + [RetainBatch(n, b), InsertBatch(n, ok)];
    }
  }
}

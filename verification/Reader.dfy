/** The pipe reader task (`spawn_reader`): it reads until end of file, keeps a
    bounded capture, forwards chunks without ever blocking on a full channel and
    raises the overflow signal. */
module Reader {
  import opened Words
  import opened Wrappers
  import opened Capture
  import Canonical

  const READ_BUFFER: nat := 8192

  /** One `read` of the pipe that did not report end of file. */
  datatype ReadResult = Data(bytes: seq<Byte>) | Failed

  datatype Finished = Finished(capture: Retained, dropped: nat)

  /** The reads the runtime may produce: a read fills at most the buffer and a
      read of zero bytes means end of file, so it does not occur here. */
  ghost predicate PossibleReads(results: seq<ReadResult>, chunkLimit: nat) {
    forall i | 0 <= i < |results| && results[i].Data? ::
      0 < |results[i].bytes| <= Min(READ_BUFFER, chunkLimit)
  }

  /** The data read before the first failure, one element per read. */
  function DataRead(results: seq<ReadResult>): seq<seq<Byte>> {
    if |results| == 0 || results[0].Failed? then [] else [results[0].bytes] + DataRead(results[1..])
  }

  predicate ReadsFail(results: seq<ReadResult>) {
    exists i | 0 <= i < |results| :: results[i].Failed?
  }

  /** The chunks whose `try_send` succeeds, in order; `refused` holds the numbers
      of the attempts that found the channel full or closed. */
  function Delivered(chunks: seq<seq<Byte>>, refused: set<nat>): seq<seq<Byte>> {
    if |chunks| == 0 then []
    else
      var n := |chunks| - 1;
      Delivered(chunks[..n], refused) + if n in refused then [] else [chunks[n]]
  }

  function Bytes(chunks: seq<seq<Byte>>): nat {
    |Flatten(chunks)|
  }

  function DroppedBytes(chunks: seq<seq<Byte>>, refused: set<nat>): nat {
    if |chunks| == 0 then 0
    else
      var n := |chunks| - 1;
      DroppedBytes(chunks[..n], refused) + if n in refused then |chunks[n]| else 0
  }

  /** How often the overflow signal is raised: once per push that takes the total
      from within the limit to beyond it. */
  function Signals(chunks: seq<seq<Byte>>, limit: nat, policy: Canonical.OverflowPolicy): nat {
    if |chunks| == 0 then 0
    else
      var front := chunks[..|chunks| - 1];
      Signals(front, limit, policy) +
      if policy.Terminate? && PushAll(front, Halves(limit)).total <= limit < PushAll(chunks, Halves(limit)).total
      then 1 else 0
  }

  lemma FlattenAppend(chunks: seq<seq<Byte>>, chunk: seq<Byte>)
    ensures Flatten(chunks + [chunk]) == Flatten(chunks) + chunk
  {
    assert (chunks + [chunk])[..|chunks|] == chunks;
  }

  /** Every byte read is either forwarded or counted as dropped. */
  lemma {:induction false} SentPlusDropped(chunks: seq<seq<Byte>>, refused: set<nat>)
    ensures Bytes(Delivered(chunks, refused)) + DroppedBytes(chunks, refused) == Bytes(chunks)
  {
    if |chunks| > 0 {
      var n := |chunks| - 1;
      SentPlusDropped(chunks[..n], refused);
      FlattenAppend(Delivered(chunks[..n], refused), chunks[n]);
      assert Delivered(chunks[..n], refused) + [] == Delivered(chunks[..n], refused);
    }
  }

  /** Under `Terminate` the signal fires once, and exactly when the total crosses
      the limit. */
  lemma {:induction false} SignalsOnce(chunks: seq<seq<Byte>>, limit: nat, policy: Canonical.OverflowPolicy)
    ensures Signals(chunks, limit, policy) ==
            if policy.Terminate? && limit < Min(Bytes(chunks), U64_MAX) then 1 else 0
  {
    ChunkingIsInvisible(chunks, Halves(limit));
    if |chunks| > 0 {
      ChunkingIsInvisible(chunks[..|chunks| - 1], Halves(limit));
      SignalsOnce(chunks[..|chunks| - 1], limit, policy);
    }
  }

  lemma {:induction false} DeliveredIsBounded(chunks: seq<seq<Byte>>, refused: set<nat>, limit: nat)
    requires forall c | c in chunks :: |c| <= limit
    ensures forall c | c in Delivered(chunks, refused) :: |c| <= limit
  {
    if |chunks| > 0 {
      assert forall c | c in chunks[..|chunks| - 1] :: c in chunks;
      DeliveredIsBounded(chunks[..|chunks| - 1], refused, limit);
    }
  }

  ghost predicate AllData(results: seq<ReadResult>) {
    forall j | 0 <= j < |results| :: results[j].Data?
  }

  lemma {:induction false} DataReadAppend(front: seq<ReadResult>, back: seq<ReadResult>)
    requires AllData(front)
    ensures |DataRead(front)| == |front|
    ensures DataRead(front + back) == DataRead(front) + DataRead(back)
  {
    if |front| == 0 {
      assert front + back == back;
    } else {
      DataReadAppend(front[1..], back);
      assert (front + back)[1..] == front[1..] + back;
    }
  }

  lemma DataReadStep(results: seq<ReadResult>, i: nat)
    requires i < |results| && AllData(results[..i]) && results[i].Data?
    ensures AllData(results[..i + 1])
    ensures DataRead(results[..i + 1]) == DataRead(results[..i]) + [results[i].bytes]
  {
    DataReadAppend(results[..i], [results[i]]);
    assert results[..i + 1] == results[..i] + [results[i]];
  }

  lemma DataReadStops(results: seq<ReadResult>, i: nat)
    requires i <= |results| && AllData(results[..i])
    requires i == |results| || results[i].Failed?
    ensures DataRead(results) == DataRead(results[..i])
    ensures i < |results| <==> ReadsFail(results)
  {
    DataReadAppend(results[..i], results[i..]);
    assert results == results[..i] + results[i..];
    forall j | 0 <= j < i ensures results[j].Data? { assert results[j] == results[..i][j]; }
  }

  /** `try_send` of every `chunkLimit` bytes of one read; a read never holds more
      than one chunk. */
  method Forward(bytes: seq<Byte>, chunkLimit: nat, full: bool)
    returns (sent: seq<seq<Byte>>, dropped: nat)
    requires 0 < |bytes| <= chunkLimit
    ensures sent == (if full then [] else [bytes]) && dropped == (if full then |bytes| else 0)
  {
    sent, dropped := [], 0;
    var offset := 0;
    while offset < |bytes|
      invariant offset == 0 ==> sent == [] && dropped == 0
      invariant offset != 0 ==>
        offset == |bytes| && sent == (if full then [] else [bytes]) && dropped == (if full then |bytes| else 0)
      decreases |bytes| - offset
    {
      var chunk := bytes[offset..Min(offset + chunkLimit, |bytes|)];
      assert chunk == bytes;
      if full {
        dropped := dropped + |chunk|;
      } else {
        sent := sent + [chunk];
      }
      offset := offset + |chunk|;
    }
  }

  lemma FoldsStep(seen: seq<seq<Byte>>, bytes: seq<Byte>, refused: set<nat>, limit: nat,
                  policy: Canonical.OverflowPolicy)
    ensures var next, full, half := seen + [bytes], |seen| in refused, Halves(limit);
            && PushAll(next, half) == PushBulk(PushAll(seen, half), bytes, half)
            && Delivered(next, refused) == Delivered(seen, refused) + (if full then [] else [bytes])
            && DroppedBytes(next, refused) == DroppedBytes(seen, refused) + (if full then |bytes| else 0)
            && Signals(next, limit, policy) == Signals(seen, limit, policy) +
                 if policy.Terminate? && PushAll(seen, half).total <= limit < PushAll(next, half).total
                 then 1 else 0
  {
    assert (seen + [bytes])[..|seen|] == seen;
  }

  /** The loop itself, tied to the folds above. */
  method ReadLoop(results: seq<ReadResult>, captureLimit: nat, chunkLimit: nat,
                  policy: Canonical.OverflowPolicy, refused: set<nat>)
    returns (failed: bool, capture: Retained, dropped: nat, sent: seq<seq<Byte>>, signals: nat)
    requires PossibleReads(results, chunkLimit)
    ensures failed <==> ReadsFail(results)
    ensures var data := DataRead(results);
            && capture == PushAll(data, Halves(captureLimit))
            && dropped == DroppedBytes(data, refused)
            && sent == Delivered(data, refused)
            && signals == Signals(data, captureLimit, policy)
  {
    var state := new BoundedCapture();
    dropped, sent, signals := 0, [], 0;
    ghost var seen: seq<seq<Byte>> := [];
    var i := 0;
    while i < |results| && results[i].Data?
      invariant 0 <= i <= |results| && |seen| == i
      invariant AllData(results[..i]) && seen == DataRead(results[..i])
      invariant fresh(state) && state.Value() == PushAll(seen, Halves(captureLimit))
      invariant dropped == DroppedBytes(seen, refused)
      invariant sent == Delivered(seen, refused)
      invariant signals == Signals(seen, captureLimit, policy)
    {
      var bytes := results[i].bytes;
      FoldsStep(seen, bytes, refused, captureLimit, policy);
      var before := state.totalBytes;
      state.Push(bytes, captureLimit);
      if policy.Terminate? && before <= captureLimit && state.totalBytes > captureLimit {
        signals := signals + 1;
      }
      var sentNow, droppedNow := Forward(bytes, chunkLimit, i in refused);
      sent, dropped := sent + sentNow, dropped + droppedNow;
      DataReadStep(results, i);
      seen := seen + [bytes];
      i := i + 1;
    }
    DataReadStops(results, i);
    failed := i < |results|;
    capture := Retained(state.head, state.tail, state.totalBytes, state.omittedBytes);
  }

  /** Runs the reader to its end. The capture is lost on a read error, but what
      was forwarded and signalled before it stays forwarded and signalled. */
  method ReadPipe(results: seq<ReadResult>, captureLimit: nat, chunkLimit: nat,
                  policy: Canonical.OverflowPolicy, refused: set<nat>)
    returns (result: Option<Finished>, sent: seq<seq<Byte>>, signals: nat)
    requires PossibleReads(results, chunkLimit)
    ensures result.None? <==> ReadsFail(results)
    ensures sent == Delivered(DataRead(results), refused)
    ensures forall c | c in sent :: |c| <= chunkLimit
    ensures var payload := Flatten(DataRead(results));
            && (result.Some? ==>
                  && result.value.capture == Window(payload, Halves(captureLimit))
                  && Bytes(sent) + result.value.dropped == |payload|)
            && signals == if policy.Terminate? && captureLimit < Min(|payload|, U64_MAX)
                          then 1 else 0
  {
    var failed, capture, dropped;
    failed, capture, dropped, sent, signals :=
      ReadLoop(results, captureLimit, chunkLimit, policy, refused);
    result := if failed then None else Some(Finished(capture, dropped));
    ghost var data := DataRead(results);
    ChunkingIsInvisible(data, Halves(captureLimit));
    SentPlusDropped(data, refused);
    SignalsOnce(data, captureLimit, policy);
    DataReadIsBounded(results, chunkLimit);
    DeliveredIsBounded(data, refused, chunkLimit);
  }

  lemma {:induction false} DataReadIsBounded(results: seq<ReadResult>, chunkLimit: nat)
    requires PossibleReads(results, chunkLimit)
    ensures forall c | c in DataRead(results) :: |c| <= chunkLimit
  {
    if |results| > 0 && results[0].Data? {
      DataReadIsBounded(results[1..], chunkLimit);
    }
  }
}

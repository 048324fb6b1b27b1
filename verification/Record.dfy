/** One execution record: publishers that serialise on the commit lock, the
    durable event journal behind them, process restarts, and event streams that
    subscribe, replay a page and then follow the broadcast channel. */
module Record {

  const MAX_RETAINED_EVENTS: nat := 256
  const MAX_RETAINED_EVENT_BYTES: nat := 512 * 1024
  const EVENT_CAPACITY: nat := 32

  datatype ExecutionState =
    | Accepted | Preparing | Running | Cancelling
    | Succeeded | Failed | Cancelled | TimedOut | Interrupted

  predicate Terminal(s: ExecutionState) {
    s.Succeeded? || s.Failed? || s.Cancelled? || s.TimedOut? || s.Interrupted?
  }

  /** A final result, known here by its identity only. */
  datatype FinalResult = NoResult | FinalResult(id: nat)

  datatype Snapshot = Snapshot(state: ExecutionState, result: FinalResult)

  datatype Kind = StateChange(state: ExecutionState) | Output(payload: nat)

  /** One call of `publish`; `size` is the length of the encoded event. */
  datatype Request = Request(state: ExecutionState, result: FinalResult, kind: Kind, size: nat)

  datatype Event = Event(sequence: nat, kind: Kind, size: nat)

  /** What the callers of `publish` pass: a state change announces the state it
      publishes, and output is only published with a live state. */
  predicate WellFormed(r: Request) {
    if r.kind.StateChange? then r.kind.state == r.state else !Terminal(r.state)
  }

  predicate TerminalEvent(e: Event) {
    e.kind.StateChange? && Terminal(e.kind.state)
  }

  function Propose(base: Snapshot, r: Request): Snapshot {
    Snapshot(r.state, if r.result.NoResult? then base.result else r.result)
  }

  // ----- the durable journal -----

  datatype Commit = Commit(request: Request, snapshot: Snapshot)

  /** `history` is every commit ever made, `retained` what trimming left of the
      event rows. */
  datatype Journal = Journal(initial: Snapshot, history: seq<Commit>, retained: seq<Event>)

  function Before(j: Journal, i: nat): Snapshot
    requires i <= |j.history|
  {
    if i == 0 then j.initial else j.history[i - 1].snapshot
  }

  function Row(j: Journal): Snapshot { Before(j, |j.history|) }

  function EventAt(h: seq<Commit>, i: nat): Event
    requires i < |h|
  {
    Event(i + 1, h[i].request.kind, h[i].request.size)
  }

  function Bytes(events: seq<Event>): nat {
    if |events| == 0 then 0 else Bytes(events[..|events| - 1]) + events[|events| - 1].size
  }

  predicate Fits(events: seq<Event>) {
    |events| <= MAX_RETAINED_EVENTS && Bytes(events) <= MAX_RETAINED_EVENT_BYTES
  }

  /** `trim_events`: drop the oldest row until what is left fits. */
  function Trim(events: seq<Event>): seq<Event> {
    if Fits(events) then events
    else if |events| == 0 then []
    else Trim(events[1..])
  }

  function Append(j: Journal, r: Request, snapshot: Snapshot): Journal {
    var h := j.history + [Commit(r, snapshot)];
    Journal(j.initial, h, Trim(j.retained + [EventAt(h, |j.history|)]))
  }

  datatype CommitResult = Stored | Refused | Failure

  function CommitEvent(j: Journal, r: Request, fails: bool): CommitResult {
    if fails then Failure
    else if Terminal(Row(j).state) then Refused
    else if r.size > MAX_RETAINED_EVENT_BYTES then Failure
    else Stored
  }

  datatype Page = Page(base: nat, next: nat, events: seq<Event>)

  function After(events: seq<Event>, sequence: nat): seq<Event> {
    if |events| == 0 || events[0].sequence > sequence then events else After(events[1..], sequence)
  }

  function LoadPage(j: Journal, after: nat): Page {
    var next := |j.history| + 1;
    var base := if |j.retained| == 0 then next else j.retained[0].sequence;
    Page(base, next, if after + 1 < base then [] else After(j.retained, after))
  }

  /** The event a restarted node appends for work it finds unfinished. */
  function Interruption(result: FinalResult, size: nat): Request {
    Request(Interrupted, result, StateChange(Interrupted), size)
  }

  function Recover(j: Journal, result: FinalResult, size: nat): Journal {
    if Terminal(Row(j).state) then j
    else Append(j, Interruption(result, size), Propose(Row(j), Interruption(result, size)))
  }

  // ----- the record in memory -----

  /** Where the holder of the commit lock is. */
  datatype Writer =
    | Free
    | Holding(request: Request)
    | Proposed(request: Request, proposed: Snapshot)
    | Committed(proposed: Snapshot, event: Event)
    | Assigned(event: Event)

  /** `sent` is everything broadcast since the record was created, when the
      journal held `offset` events. */
  datatype Rec = Rec(journal: Journal, snapshot: Snapshot, sent: seq<Event>, offset: nat,
                     writer: Writer, draining: bool, dropped: bool)

  function Acquire(r: Rec, request: Request): Rec {
    if r.writer.Free? && !r.dropped then r.(writer := Holding(request)) else r
  }

  function WriterMove(r: Rec, fails: bool): Rec {
    match r.writer
    case Free => r
    case Holding(request) =>
      if Terminal(r.snapshot.state) then r.(writer := Free)
      else r.(writer := Proposed(request, Propose(r.snapshot, request)))
    case Proposed(request, proposed) => DoCommit(r, request, proposed, fails)
    case Committed(proposed, event) => r.(snapshot := proposed, writer := Assigned(event))
    case Assigned(event) => r.(sent := r.sent + [event], writer := Free)
  }

  function DoCommit(r: Rec, request: Request, proposed: Snapshot, fails: bool): Rec {
    match CommitEvent(r.journal, request, fails)
    case Stored =>
      var j := Append(r.journal, request, proposed);
      r.(journal := j, writer := Committed(proposed, EventAt(j.history, |r.journal.history|)))
    case Refused => r.(writer := Free)
    case Failure => r.(writer := Free, draining := true)
  }

  /** The last handle goes away, which closes the broadcast channel. */
  function DropHandle(r: Rec): Rec {
    if r.writer.Free? then r.(dropped := true) else r
  }

  /** A crash at any point, then start-up recovery. */
  function Restart(r: Rec, result: FinalResult, size: nat): Rec {
    var j := Recover(r.journal, result, size);
    Rec(j, Row(j), [], |j.history|, Free, false, false)
  }

  // ----- invariant of the record -----

  ghost predicate Chained(j: Journal, i: nat)
    requires i < |j.history|
  {
    && WellFormed(j.history[i].request)
    && !Terminal(Before(j, i).state)
    && j.history[i].snapshot == Propose(Before(j, i), j.history[i].request)
  }

  /** `events` are the journal's events from position `from` on. */
  ghost predicate Slice(events: seq<Event>, h: seq<Commit>, from: int) {
    0 <= from && from + |events| <= |h| &&
    forall i | 0 <= i < |events| :: events[i] == EventAt(h, from + i)
  }

  ghost predicate ValidJournal(j: Journal) {
    && !Terminal(j.initial.state)
    && (forall i | 0 <= i < |j.history| :: Chained(j, i))
    && Slice(j.retained, j.history, |j.history| - |j.retained|)
    && (|j.history| > 0 ==> |j.retained| > 0)
  }

  ghost predicate WriterInv(r: Rec) {
    var n := |r.journal.history|;
    match r.writer
    case Free => r.snapshot == Row(r.journal) && r.offset + |r.sent| == n
    case Holding(request) =>
      r.snapshot == Row(r.journal) && r.offset + |r.sent| == n && WellFormed(request)
    case Proposed(request, proposed) =>
      && r.snapshot == Row(r.journal) && r.offset + |r.sent| == n && WellFormed(request)
      && !Terminal(r.snapshot.state) && proposed == Propose(r.snapshot, request)
    case Committed(proposed, event) =>
      && n > 0 && r.offset + |r.sent| == n - 1
      && r.snapshot == Before(r.journal, n - 1) && proposed == Row(r.journal)
      && event == EventAt(r.journal.history, n - 1)
    case Assigned(event) =>
      && n > 0 && r.offset + |r.sent| == n - 1
      && r.snapshot == Row(r.journal) && event == EventAt(r.journal.history, n - 1)
  }

  ghost predicate RecInv(r: Rec) {
    && ValidJournal(r.journal)
    && Slice(r.sent, r.journal.history, r.offset)
    && (r.dropped ==> r.writer.Free?)
    && WriterInv(r)
  }

  lemma SliceGrows(events: seq<Event>, h: seq<Commit>, c: Commit, from: int)
    requires Slice(events, h, from)
    ensures Slice(events, h + [c], from)
  {
  }

  lemma SliceSnoc(events: seq<Event>, h: seq<Commit>, from: int)
    requires Slice(events, h, from) && from + |events| < |h|
    ensures Slice(events + [EventAt(h, from + |events|)], h, from)
  {
  }

  lemma SliceDropsFirst(events: seq<Event>, h: seq<Commit>)
    requires |events| > 0 && Slice(events, h, |h| - |events|)
    ensures Slice(events[1..], h, |h| - |events[1..]|)
  {
    var rest := events[1..];
    assert forall i | 0 <= i < |rest| :: rest[i] == events[i + 1];
  }

  lemma {:induction false} TrimKeepsSuffix(events: seq<Event>, h: seq<Commit>)
    requires Slice(events, h, |h| - |events|)
    ensures Slice(Trim(events), h, |h| - |Trim(events)|)
  {
    if !Fits(events) && |events| > 0 {
      SliceDropsFirst(events, h);
      TrimKeepsSuffix(events[1..], h);
    }
  }

  /** Trimming drops no more than it must: it keeps the longest suffix that fits. */
  lemma {:induction false} TrimIsLongest(events: seq<Event>, k: nat)
    requires k <= |events| && Fits(events[k..])
    ensures Fits(Trim(events)) && |events| - k <= |Trim(events)| <= |events|
    ensures Trim(events) == events[|events| - |Trim(events)|..]
  {
    if Fits(events) {
      assert events[0..] == events;
    } else {
      assert events[0..] == events;
      assert k > 0 && events[1..][k - 1..] == events[k..];
      TrimIsLongest(events[1..], k - 1);
      assert Trim(events) == Trim(events[1..]);
    }
  }

  lemma {:induction false} TrimKeepsNewest(events: seq<Event>)
    requires |events| > 0 && events[|events| - 1].size <= MAX_RETAINED_EVENT_BYTES
    ensures |Trim(events)| > 0
  {
    if |events| == 1 {
      assert Bytes(events[..0]) == 0;
    } else if !Fits(events) {
      TrimKeepsNewest(events[1..]);
    }
  }

  lemma AppendKeepsChain(j: Journal, r: Request, i: nat)
    requires ValidJournal(j) && WellFormed(r) && !Terminal(Row(j).state) && i <= |j.history|
    ensures Chained(Append(j, r, Propose(Row(j), r)), i)
  {
    if i < |j.history| {
      assert Chained(j, i);
    }
  }

  lemma AppendKeepsRetained(j: Journal, r: Request, snapshot: Snapshot)
    requires Slice(j.retained, j.history, |j.history| - |j.retained|)
    requires r.size <= MAX_RETAINED_EVENT_BYTES
    ensures var next := Append(j, r, snapshot);
            Slice(next.retained, next.history, |next.history| - |next.retained|) && |next.retained| > 0
  {
    var c, n := Commit(r, snapshot), |j.history|;
    SliceGrows(j.retained, j.history, c, n - |j.retained|);
    SliceSnoc(j.retained, j.history + [c], n - |j.retained|);
    var rows := j.retained + [EventAt(j.history + [c], n)];
    TrimKeepsSuffix(rows, j.history + [c]);
    TrimKeepsNewest(rows);
  }

  lemma AppendKeepsJournal(j: Journal, r: Request)
    requires ValidJournal(j) && WellFormed(r) && !Terminal(Row(j).state)
    requires r.size <= MAX_RETAINED_EVENT_BYTES
    ensures ValidJournal(Append(j, r, Propose(Row(j), r)))
  {
    var snapshot := Propose(Row(j), r);
    var next := Append(j, r, snapshot);
    AppendKeepsRetained(j, r, snapshot);
    forall i | 0 <= i < |next.history| ensures Chained(next, i) {
      AppendKeepsChain(j, r, i);
    }
  }

  lemma CommitKeepsInv(r: Rec, fails: bool)
    requires RecInv(r) && r.writer.Proposed?
    ensures RecInv(DoCommit(r, r.writer.request, r.writer.proposed, fails))
  {
    var request := r.writer.request;
    if CommitEvent(r.journal, request, fails).Stored? {
      AppendKeepsJournal(r.journal, request);
      SliceGrows(r.sent, r.journal.history, Commit(request, r.writer.proposed), r.offset);
    }
  }

  lemma WriterKeepsInv(r: Rec, fails: bool)
    requires RecInv(r)
    ensures RecInv(WriterMove(r, fails))
  {
    if r.writer.Proposed? {
      CommitKeepsInv(r, fails);
    } else if r.writer.Assigned? {
      SliceSnoc(r.sent, r.journal.history, r.offset);
    }
  }

  lemma RestartKeepsInv(r: Rec, result: FinalResult, size: nat)
    requires RecInv(r) && size <= MAX_RETAINED_EVENT_BYTES
    ensures RecInv(Restart(r, result, size))
  {
    if !Terminal(Row(r.journal).state) {
      AppendKeepsJournal(r.journal, Interruption(result, size));
    }
  }

  // ----- an event stream -----

  datatype EndReason =
    | HistoryExpired | CursorAhead   // refused with an error status
    | AtOpen                         // nothing to replay and the record is terminal
    | AfterTerminal | Lagged | ChannelClosed

  datatype StreamPc = Unopened | Subscribed | Paged | Live | Ended(reason: EndReason)

  /** `position` is the receiver's place in `sent`, `pageEnd` the length of the
      journal when the page was loaded, `last` the cursor of the stream. */
  datatype Stream = Stream(after: nat, position: nat, pageEnd: nat, replay: seq<Event>, last: nat,
                           delivered: seq<Event>, pc: StreamPc)

  const NO_STREAM := Stream(0, 0, 0, [], 0, [], Unopened)

  function Open(s: Stream, r: Rec, after: nat): Stream {
    if s.pc.Unopened? || s.pc.Ended? then Stream(after, |r.sent|, 0, [], after, [], Subscribed) else s
  }

  function TakePage(s: Stream, r: Rec): Stream {
    var page := LoadPage(r.journal, s.after);
    if s.after + 1 < page.base then s.(pc := Ended(HistoryExpired))
    else if s.after >= page.next then s.(pc := Ended(CursorAhead))
    else s.(replay := page.events, pageEnd := |r.journal.history|, pc := Paged)
  }

  /** What one event does to the stream: skipped, or delivered. */
  function Offer(s: Stream, e: Event): Stream {
    if e.sequence <= s.last then s
    else s.(last := e.sequence, delivered := s.delivered + [e],
            pc := if TerminalEvent(e) then Ended(AfterTerminal) else Live)
  }

  function Poll(s: Stream, r: Rec): Stream {
    if s.replay != [] then Offer(s.(replay := s.replay[1..]), s.replay[0])
    else if |r.sent| > s.position + EVENT_CAPACITY then s.(pc := Ended(Lagged))
    else if |r.sent| > s.position then Offer(s.(position := s.position + 1), r.sent[s.position])
    else if r.dropped then s.(pc := Ended(ChannelClosed))
    else s
  }

  function StreamMove(s: Stream, r: Rec): Stream {
    match s.pc
    case Unopened => s
    case Subscribed => TakePage(s, r)
    case Paged =>
      s.(pc := if Terminal(r.snapshot.state) && s.replay == [] then Ended(AtOpen) else Live)
    case Live => Poll(s, r)
    case Ended(_) => s
  }

  predicate PageTaken(s: Stream) {
    || s.pc.Paged? || s.pc.Live?
    || (s.pc.Ended? && !s.pc.reason.HistoryExpired? && !s.pc.reason.CursorAhead?)
  }

  /** The stream has delivered exactly the journal from its cursor on, and between
      them the replay and the receiver still hold everything after that. */
  ghost predicate Tracks(s: Stream, r: Rec) {
    && s.last == s.after + |s.delivered|
    && Slice(s.delivered, r.journal.history, s.after)
    && Slice(s.replay, r.journal.history, s.last)
    && s.position <= |r.sent|
    && r.offset + s.position <= s.last + |s.replay|
    && s.pageEnd <= |r.journal.history|
  }

  ghost predicate EndInv(s: Stream, r: Rec) {
    match s.pc
    case Paged => s.delivered == [] && s.after + |s.replay| == s.pageEnd
    case Ended(AtOpen) => s.delivered == [] && s.after == s.pageEnd && Terminal(Row(r.journal).state)
    case Ended(AfterTerminal) => s.delivered != [] && TerminalEvent(s.delivered[|s.delivered| - 1])
    case Ended(ChannelClosed) => r.dropped && s.last == |r.journal.history|
    case _ => true
  }

  ghost predicate StreamInv(s: Stream, r: Rec) {
    if PageTaken(s) then Tracks(s, r) && EndInv(s, r)
    else s.delivered == [] && (s.pc.Subscribed? ==> s.position <= |r.sent| && s.last == s.after)
  }

  lemma {:induction false} AfterIsSuffix(events: seq<Event>, h: seq<Commit>, after: nat)
    requires Slice(events, h, |h| - |events|) && |h| - |events| <= after <= |h|
    ensures Slice(After(events, after), h, after) && after + |After(events, after)| == |h|
  {
    if |events| > 0 {
      assert events[0] == EventAt(h, |h| - |events|);
      if events[0].sequence <= after {
        var rest := events[1..];
        assert forall i | 0 <= i < |rest| :: rest[i] == events[i + 1];
        AfterIsSuffix(rest, h, after);
      }
    }
  }

  lemma TakePageKeepsInv(s: Stream, r: Rec)
    requires RecInv(r) && StreamInv(s, r) && s.pc.Subscribed?
    ensures StreamInv(TakePage(s, r), r)
  {
    var j := r.journal;
    var page := LoadPage(j, s.after);
    if s.after + 1 >= page.base && s.after < page.next {
      if |j.retained| > 0 {
        assert j.retained[0] == EventAt(j.history, |j.history| - |j.retained|);
      }
      AfterIsSuffix(j.retained, j.history, s.after);
    }
  }

  lemma OfferKeepsTracks(s: Stream, r: Rec, e: Event)
    requires s.last == s.after + |s.delivered| < |r.journal.history|
    requires Slice(s.delivered, r.journal.history, s.after)
    requires e == EventAt(r.journal.history, s.last)
    ensures Slice(Offer(s, e).delivered, r.journal.history, s.after)
    ensures Offer(s, e).last == s.after + |Offer(s, e).delivered| == s.last + 1
  {
    SliceSnoc(s.delivered, r.journal.history, s.after);
  }

  lemma ReplayKeepsInv(s: Stream, r: Rec)
    requires StreamInv(s, r) && s.pc.Live? && s.replay != []
    ensures StreamInv(Poll(s, r), r)
  {
    var rest := s.replay[1..];
    assert s.replay[0] == EventAt(r.journal.history, s.last);
    assert forall i | 0 <= i < |rest| :: rest[i] == s.replay[i + 1];
    OfferKeepsTracks(s.(replay := rest), r, s.replay[0]);
  }

  lemma ReceiveKeepsInv(s: Stream, r: Rec)
    requires RecInv(r) && StreamInv(s, r) && s.pc.Live? && s.replay == []
    ensures StreamInv(Poll(s, r), r)
  {
    if s.position < |r.sent| <= s.position + EVENT_CAPACITY {
      var e := r.sent[s.position];
      assert e == EventAt(r.journal.history, r.offset + s.position);
      if e.sequence > s.last {
        OfferKeepsTracks(s.(position := s.position + 1), r, e);
      }
    }
  }

  /** While a commit is not yet in memory, memory is live. */
  lemma CommittedIsLive(r: Rec)
    requires RecInv(r)
    ensures r.writer.Committed? ==> !Terminal(r.snapshot.state)
  {
    var n := |r.journal.history|;
    assert n > 0 ==> Chained(r.journal, n - 1);
  }

  lemma StreamKeepsInv(s: Stream, r: Rec)
    requires RecInv(r) && StreamInv(s, r)
    ensures StreamInv(StreamMove(s, r), r)
  {
    match s.pc {
      case Unopened =>
      case Subscribed => TakePageKeepsInv(s, r);
      case Paged => CommittedIsLive(r);
      case Live =>
        if s.replay != [] {
          ReplayKeepsInv(s, r);
        } else {
          ReceiveKeepsInv(s, r);
        }
      case Ended(_) =>
    }
  }

  lemma StreamSurvivesWriter(s: Stream, r: Rec, fails: bool)
    requires RecInv(r) && StreamInv(s, r)
    ensures StreamInv(s, WriterMove(r, fails))
  {
    if r.writer.Proposed? && CommitEvent(r.journal, r.writer.request, fails).Stored? && PageTaken(s) {
      var c := Commit(r.writer.request, r.writer.proposed);
      SliceGrows(s.delivered, r.journal.history, c, s.after);
      SliceGrows(s.replay, r.journal.history, c, s.last);
    }
  }

  // ----- every run -----

  datatype World = World(rec: Rec, stream: Stream)

  datatype Step =
    | Publish(request: Request) | WriterMoves(fails: bool) | HandleDropped
    | Restarts(result: FinalResult, size: nat)
    | StreamOpens(after: nat) | StreamMoves

  /** A step that is not possible changes nothing. */
  function Next(w: World, step: Step): World {
    match step
    case Publish(request) => if WellFormed(request) then w.(rec := Acquire(w.rec, request)) else w
    case WriterMoves(fails) => w.(rec := WriterMove(w.rec, fails))
    case HandleDropped => w.(rec := DropHandle(w.rec))
    case Restarts(result, size) =>
      if size <= MAX_RETAINED_EVENT_BYTES then World(Restart(w.rec, result, size), NO_STREAM) else w
    case StreamOpens(after) => w.(stream := Open(w.stream, w.rec, after))
    case StreamMoves => w.(stream := StreamMove(w.stream, w.rec))
  }

  const ACCEPTED := Snapshot(Accepted, NoResult)

  const CREATED := World(Rec(Journal(ACCEPTED, [], []), ACCEPTED, [], 0, Free, false, false), NO_STREAM)

  function Run(steps: seq<Step>): World {
    if |steps| == 0 then CREATED else Next(Run(steps[..|steps| - 1]), steps[|steps| - 1])
  }

  ghost predicate Inv(w: World) { RecInv(w.rec) && StreamInv(w.stream, w.rec) }

  lemma NextKeepsInv(w: World, step: Step)
    requires Inv(w)
    ensures Inv(Next(w, step))
  {
    match step {
      case Publish(_) =>
      case WriterMoves(fails) =>
        WriterKeepsInv(w.rec, fails);
        StreamSurvivesWriter(w.stream, w.rec, fails);
      case HandleDropped =>
      case Restarts(result, size) =>
        if size <= MAX_RETAINED_EVENT_BYTES {
          RestartKeepsInv(w.rec, result, size);
        }
      case StreamOpens(_) =>
      case StreamMoves => StreamKeepsInv(w.stream, w.rec);
    }
  }

  lemma {:induction false} InvAlways(steps: seq<Step>)
    ensures Inv(Run(steps))
  {
    if |steps| > 0 {
      InvAlways(steps[..|steps| - 1]);
      NextKeepsInv(Run(steps[..|steps| - 1]), steps[|steps| - 1]);
    }
  }

  // ----- what publishers guarantee -----

  /** Whenever the commit lock is free, memory is what was last committed. */
  lemma MemoryIsLastCommit(steps: seq<Step>)
    requires Run(steps).rec.writer.Free?
    ensures Run(steps).rec.snapshot == Row(Run(steps).rec.journal)
  {
    InvAlways(steps);
  }

  /** Every commit is built from the one just before it, and none follows a
      terminal one. */
  lemma CommitsAreChained(steps: seq<Step>, i: nat)
    requires i < |Run(steps).rec.journal.history|
    ensures var j := Run(steps).rec.journal;
            && j.history[i].snapshot == Propose(Before(j, i), j.history[i].request)
            && !Terminal(Before(j, i).state)
  {
    InvAlways(steps);
    assert Chained(Run(steps).rec.journal, i);
  }

  lemma TerminalEventIsLast(j: Journal, i: nat)
    requires ValidJournal(j) && i < |j.history| && TerminalEvent(EventAt(j.history, i))
    ensures i == |j.history| - 1
  {
    assert Chained(j, i);
    FollowedIsLive(j, i);
  }

  lemma FollowedIsLive(j: Journal, i: nat)
    requires ValidJournal(j)
    ensures i + 1 < |j.history| ==> !Terminal(j.history[i].snapshot.state)
  {
    assert i + 1 < |j.history| ==> Chained(j, i + 1);
  }

  /** A terminal event is the last one broadcast, so there is at most one. */
  lemma OneTerminalEvent(steps: seq<Step>, i: nat)
    requires i < |Run(steps).rec.sent| && TerminalEvent(Run(steps).rec.sent[i])
    ensures i == |Run(steps).rec.sent| - 1
  {
    InvAlways(steps);
    var r := Run(steps).rec;
    assert r.sent[i] == EventAt(r.journal.history, r.offset + i);
    TerminalEventIsLast(r.journal, r.offset + i);
  }

  lemma TerminalStays(w: World, step: Step)
    requires Inv(w) && Terminal(w.rec.snapshot.state)
    ensures Next(w, step).rec.snapshot == w.rec.snapshot
    ensures Next(w, step).rec.journal.history == w.rec.journal.history
  {
    CommittedIsLive(w.rec);
  }

  /** Once terminal, neither the snapshot nor the history ever changes, restarts
      included. */
  lemma {:induction false} TerminalIsFinal(steps: seq<Step>, more: seq<Step>)
    requires Terminal(Run(steps).rec.snapshot.state)
    ensures Run(steps + more).rec.snapshot == Run(steps).rec.snapshot
    ensures Run(steps + more).rec.journal.history == Run(steps).rec.journal.history
  {
    if |more| == 0 {
      assert steps + more == steps;
    } else {
      var front := more[..|more| - 1];
      TerminalIsFinal(steps, front);
      InvAlways(steps + front);
      TerminalStays(Run(steps + front), more[|more| - 1]);
      assert (steps + more)[..|steps + more| - 1] == steps + front;
    }
  }

  // ----- what a stream guarantees -----

  /** A stream delivers after + 1, after + 2, ... as they were committed: no gap,
      no duplicate, no reordering, whatever ends it. */
  lemma StreamIsContiguous(steps: seq<Step>, i: nat)
    requires i < |Run(steps).stream.delivered|
    ensures var s, h := Run(steps).stream, Run(steps).rec.journal.history;
            && s.after + i < |h|
            && s.delivered[i] == EventAt(h, s.after + i)
            && s.delivered[i].sequence == s.after + i + 1
  {
    InvAlways(steps);
  }

  /** Nothing follows a terminal event on a stream. */
  lemma NothingAfterTerminal(steps: seq<Step>, i: nat)
    requires i < |Run(steps).stream.delivered| && TerminalEvent(Run(steps).stream.delivered[i])
    ensures i == |Run(steps).stream.delivered| - 1
  {
    StreamIsContiguous(steps, i);
    InvAlways(steps);
    TerminalEventIsLast(Run(steps).rec.journal, Run(steps).stream.after + i);
  }

  /** A stream that has drained its replay and its receiver while no publisher is
      at work has delivered everything there is. */
  lemma CaughtUpMeansComplete(steps: seq<Step>)
    requires var w := Run(steps);
             && w.stream.pc.Live? && w.stream.replay == [] && w.rec.writer.Free?
             && w.stream.position == |w.rec.sent|
    ensures Run(steps).stream.last == |Run(steps).rec.journal.history|
  {
    InvAlways(steps);
  }

  /** A stream that is closed at its opening has missed nothing exactly when the
      terminal event was in the journal before its page was loaded. */
  lemma ClosedAtOpening(steps: seq<Step>)
    requires Run(steps).stream.pc == Ended(AtOpen)
    ensures var s, j := Run(steps).stream, Run(steps).rec.journal;
            && s.pageEnd <= |j.history|
            && (s.after == |j.history| <==> Terminal(Before(j, s.pageEnd).state))
  {
    InvAlways(steps);
    var s, j := Run(steps).stream, Run(steps).rec.journal;
    if s.pageEnd < |j.history| {
      assert Chained(j, s.pageEnd);
    }
  }

  /** A stream that ends without an error has delivered the whole journal, unless it was
      closed at its opening with the terminal event committed after its page. */
  lemma EndsComplete(steps: seq<Step>)
    requires var s := Run(steps).stream;
             s.pc.Ended? && (s.pc.reason.AtOpen? || s.pc.reason.AfterTerminal? || s.pc.reason.ChannelClosed?)
    ensures var s, j := Run(steps).stream, Run(steps).rec.journal;
            && s.after + |s.delivered| == s.last && s.pageEnd <= |j.history|
            && (s.last == |j.history| <==> !s.pc.reason.AtOpen? || Terminal(Before(j, s.pageEnd).state))
  {
    InvAlways(steps);
    var s, j := Run(steps).stream, Run(steps).rec.journal;
    if s.pc.reason.AtOpen? {
      ClosedAtOpening(steps);
    } else if s.pc.reason.AfterTerminal? {
      StreamIsContiguous(steps, |s.delivered| - 1);
      TerminalEventIsLast(j, s.last - 1);
    }
  }

  lemma OneMore(steps: seq<Step>, step: Step)
    ensures Run(steps + [step]) == Next(Run(steps), step)
  {
    assert (steps + [step])[..|steps|] == steps;
  }

  /** It can miss the terminal event: the flag is read after the page. */
  lemma ClosedWithoutTerminalEvent() returns (steps: seq<Step>)
    ensures var w := Run(steps);
            && w.stream.pc == Ended(AtOpen) && w.stream.delivered == []
            && w.stream.after < |w.rec.journal.history|
  {
    var final := Request(Failed, FinalResult(0), StateChange(Failed), 1);
    OneMore([], StreamOpens(0));
    var subscribed := [] + [StreamOpens(0)];
    OneMore(subscribed, StreamMoves);
    var paged := subscribed + [StreamMoves];
    var stream := Stream(0, 0, 0, [], 0, [], Paged);
    assert Run(paged) == World(CREATED.rec, stream);
    OneMore(paged, Publish(final));
    var locked := paged + [Publish(final)];
    OneMore(locked, WriterMoves(false));
    var proposed := locked + [WriterMoves(false)];
    var snapshot := Propose(ACCEPTED, final);
    assert Run(proposed) == World(CREATED.rec.(writer := Proposed(final, snapshot)), stream);
    OneMore(proposed, WriterMoves(false));
    var committed := proposed + [WriterMoves(false)];
    assert Run(committed).stream == stream && |Run(committed).rec.journal.history| == 1;
    assert Run(committed).rec.writer.Committed? && Run(committed).rec.writer.proposed == snapshot;
    OneMore(committed, WriterMoves(false));
    var inMemory := committed + [WriterMoves(false)];
    OneMore(inMemory, StreamMoves);
    steps := inMemory + [StreamMoves];
  }
}

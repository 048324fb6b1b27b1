/** Admission of executions: permits, the bounded table of recent executions with
    its eviction scan, the durable reservation of (id, generation) pairs, and the
    runs that hold permits until they have published their end. */
module Admission {
  import opened Counting

  const MAX_RECENT_EXECUTIONS: nat := 1024
  const MAX_EXECUTION_IDENTITIES: nat := 2048

  /** An execution identity: an id and a generation of it. */
  datatype Key = Key(id: nat, generation: nat)

  datatype Entry = Entry(generation: nat, terminal: bool)

  /** How far a run is on its way out. */
  datatype RunPc = Working | Committed | Published

  /** What the holder of the executions lock is doing; it holds a permit. */
  datatype Admission =
    | Idle
    | Scanning(key: Key, seen: set<nat>, victims: set<nat>)
    | Reserving(key: Key)

  /** `rows` says of every reserved identity whether its row is terminal, `recent`
      is the table in memory, `starts` the runs started so far. */
  datatype State = State(
    free: nat, rows: map<Key, bool>, recent: map<nat, Entry>, running: map<Key, RunPc>,
    starts: seq<Key>, admission: Admission, draining: bool)

  datatype Step =
    | Request(key: Key)
    | ScanNext(id: nat) | ScanDone
    | Reserve(ok: bool)
    | RunMoves(key: Key, ok: bool)
    | Drain(on: bool)

  // ----- the durable reservation -----

  /** No generation of `id` above `generation` is reserved. */
  ghost predicate Latest(rows: map<Key, bool>, id: nat, generation: nat) {
    forall k | k in rows && k.id == id :: k.generation <= generation
  }

  /** `reserve` creates the row: generation 1 of a new id, or the successor of the
      latest generation once that one is terminal. */
  ghost predicate Reservable(rows: map<Key, bool>, key: Key) {
    && key !in rows
    && |rows| < MAX_EXECUTION_IDENTITIES
    && (if key.generation == 1 then forall k | k in rows :: k.id != key.id
        else
          && key.generation > 1
          && Key(key.id, key.generation - 1) in rows && rows[Key(key.id, key.generation - 1)]
          && Latest(rows, key.id, key.generation - 1))
  }

  // ----- steps -----

  /** The lock is taken: lookup, drain check, permit. */
  function OnRequest(s: State, key: Key): State {
    if !s.admission.Idle? || key in s.rows || s.draining || s.free == 0 then s
    else s.(free := s.free - 1,
            admission := if |s.recent| >= MAX_RECENT_EXECUTIONS then Scanning(key, {}, {})
                         else Reserving(key))
  }

  predicate Enough(s: State, victims: set<nat>) {
    |s.recent| - |victims| < MAX_RECENT_EXECUTIONS
  }

  /** One round of the eviction loop. */
  function OnScan(s: State, id: nat): State {
    if !s.admission.Scanning? || id !in s.recent || id in s.admission.seen || Enough(s, s.admission.victims) then s
    else
      var a := s.admission;
      s.(admission := Scanning(a.key, a.seen + {id},
                               if s.recent[id].terminal then a.victims + {id} else a.victims))
  }

  /** The loop is over: evict, then admit or refuse. */
  function OnScanDone(s: State): State {
    if !s.admission.Scanning? || !(Enough(s, s.admission.victims) || s.recent.Keys <= s.admission.seen) then s
    else
      var left := s.recent - s.admission.victims;
      if |left| >= MAX_RECENT_EXECUTIONS then s.(recent := left, free := s.free + 1, admission := Idle)
      else s.(recent := left, admission := Reserving(s.admission.key))
  }

  ghost function OnReserve(s: State, ok: bool): State {
    if !s.admission.Reserving? then s
    else
      var key := s.admission.key;
      if !ok || !Reservable(s.rows, key) then s.(free := s.free + 1, admission := Idle)
      else s.(rows := s.rows[key := false],
              recent := s.recent[key.id := Entry(key.generation, false)],
              running := s.running[key := Working],
              starts := s.starts + [key],
              admission := Idle)
  }

  /** A run commits its terminal state, shows it in memory, and gives its permit
      back; when the commit fails it drains the node and ends without it. */
  function OnRun(s: State, key: Key, ok: bool): State {
    if key !in s.running || key !in s.rows then s
    else
      match s.running[key]
      case Working =>
        if ok then s.(rows := s.rows[key := true], running := s.running[key := Committed])
        else s.(draining := true, running := s.running[key := Published])
      case Committed =>
        var shown := if key.id in s.recent && s.recent[key.id].generation == key.generation
                     then s.recent[key.id := Entry(key.generation, true)] else s.recent;
        s.(recent := shown, running := s.running[key := Published])
      case Published => s.(running := s.running - {key}, free := s.free + 1)
  }

  /** A step that is blocked or refused changes nothing. */
  ghost function Next(s: State, step: Step): State {
    match step
    case Request(key) => OnRequest(s, key)
    case ScanNext(id) => OnScan(s, id)
    case ScanDone => OnScanDone(s)
    case Reserve(ok) => OnReserve(s, ok)
    case RunMoves(key, ok) => OnRun(s, key, ok)
    case Drain(on) => s.(draining := on)
  }

  ghost function Run(start: State, steps: seq<Step>): State {
    if |steps| == 0 then start else Next(Run(start, steps[..|steps| - 1]), steps[|steps| - 1])
  }

  // ----- invariants -----

  /** Permits held by runs and by the admission in progress. */
  function Held(s: State): nat {
    |s.running| + if s.admission.Idle? then 0 else 1
  }

  /** Generations of an id are reserved one after the other, each when the one
      before it has ended. */
  ghost predicate Fenced(rows: map<Key, bool>) {
    forall k | k in rows ::
      && k.generation >= 1
      && (k.generation > 1 ==> Key(k.id, k.generation - 1) in rows && rows[Key(k.id, k.generation - 1)])
  }

  ghost predicate StartedOnce(starts: seq<Key>, rows: map<Key, bool>, running: map<Key, RunPc>) {
    && (forall i, j | 0 <= i < j < |starts| :: starts[i] != starts[j])
    && (forall k | k in starts :: k in rows)
    && (forall k | k in running :: k in starts)
    && (forall k | k in running && running[k].Committed? :: k in rows && rows[k])
  }

  /** An entry shown as terminal is terminal in the durable store. */
  ghost predicate Truthful(recent: map<nat, Entry>, rows: map<Key, bool>) {
    forall id | id in recent && recent[id].terminal ::
      Key(id, recent[id].generation) in rows && rows[Key(id, recent[id].generation)]
  }

  ghost predicate ScanInv(a: Admission, recent: map<nat, Entry>) {
    match a
    case Idle => true
    case Scanning(key, seen, victims) =>
      && victims <= recent.Keys
      && (forall id | id in victims :: recent[id].terminal)
      && MAX_RECENT_EXECUTIONS <= |recent|
      && |victims| <= |recent| - MAX_RECENT_EXECUTIONS + 1
    case Reserving(key) => |recent| < MAX_RECENT_EXECUTIONS
  }

  ghost predicate Inv(s: State, max: nat) {
    && s.free + Held(s) == max
    && Fenced(s.rows)
    && StartedOnce(s.starts, s.rows, s.running)
    && Truthful(s.recent, s.rows)
    && ScanInv(s.admission, s.recent)
  }

  /** A node that has just started, with the rows and entries it recovered. */
  ghost predicate IsStart(s: State, max: nat) {
    && s.free == max && s.running == map[] && s.starts == [] && s.admission.Idle?
    && Fenced(s.rows) && Truthful(s.recent, s.rows)
  }

  lemma ScanKeeps(s: State, max: nat, id: nat)
    requires Inv(s, max)
    ensures Inv(OnScan(s, id), max)
  {
  }

  lemma ScanDoneKeeps(s: State, max: nat)
    requires Inv(s, max)
    ensures Inv(OnScanDone(s), max)
  {
    if s.admission.Scanning? {
      RemoveCounts(s.recent, s.admission.victims);
    }
  }

  lemma ReserveKeepsRows(rows: map<Key, bool>, key: Key)
    requires Fenced(rows) && Reservable(rows, key)
    ensures Fenced(rows[key := false])
  {
    var next := rows[key := false];
    forall k | k in next && k.generation > 1
      ensures Key(k.id, k.generation - 1) in next && next[Key(k.id, k.generation - 1)]
    {
      assert Key(k.id, k.generation - 1) != key;
    }
  }

  lemma ReserveKeepsRest(s: State, key: Key)
    requires StartedOnce(s.starts, s.rows, s.running) && Truthful(s.recent, s.rows) && key !in s.rows
    ensures StartedOnce(s.starts + [key], s.rows[key := false], s.running[key := Working])
    ensures Truthful(s.recent[key.id := Entry(key.generation, false)], s.rows[key := false])
  {
  }

  lemma ReserveKeeps(s: State, max: nat, ok: bool)
    requires Inv(s, max)
    ensures Inv(OnReserve(s, ok), max)
  {
    if s.admission.Reserving? && ok && Reservable(s.rows, s.admission.key) {
      var key := s.admission.key;
      assert key !in s.running;
      AddCounts(s.running, key, Working);
      ReserveKeepsRows(s.rows, key);
      ReserveKeepsRest(s, key);
    }
  }

  lemma CommitKeeps(rows: map<Key, bool>, starts: seq<Key>, running: map<Key, RunPc>,
                    recent: map<nat, Entry>, key: Key)
    requires Fenced(rows) && StartedOnce(starts, rows, running) && Truthful(recent, rows)
    requires key in rows && key in running
    ensures var r := rows[key := true];
            Fenced(r) && StartedOnce(starts, r, running[key := Committed]) && Truthful(recent, r)
  {
  }

  lemma PublishKeeps(rows: map<Key, bool>, starts: seq<Key>, running: map<Key, RunPc>,
                     recent: map<nat, Entry>, key: Key, a: Admission)
    requires StartedOnce(starts, rows, running) && Truthful(recent, rows) && ScanInv(a, recent)
    requires key in rows && rows[key] && key.id in recent && recent[key.id].generation == key.generation
    ensures var shown := recent[key.id := Entry(key.generation, true)];
            Truthful(shown, rows) && ScanInv(a, shown)
  {
    AddCounts(recent, key.id, Entry(key.generation, true));
  }

  lemma WorkKeeps(s: State, max: nat, key: Key, ok: bool)
    requires Inv(s, max) && key in s.running && key in s.rows && s.running[key].Working?
    ensures Inv(OnRun(s, key, ok), max)
  {
    AddCounts(s.running, key, Committed);
    AddCounts(s.running, key, Published);
    CommitKeeps(s.rows, s.starts, s.running, s.recent, key);
  }

  lemma ShowKeeps(s: State, max: nat, key: Key)
    requires Inv(s, max) && key in s.running && key in s.rows && s.running[key].Committed?
    ensures Inv(OnRun(s, key, true), max)
  {
    AddCounts(s.running, key, Published);
    if key.id in s.recent && s.recent[key.id].generation == key.generation {
      PublishKeeps(s.rows, s.starts, s.running, s.recent, key, s.admission);
    }
  }

  lemma ReturnKeeps(s: State, max: nat, key: Key)
    requires Inv(s, max) && key in s.running && key in s.rows && s.running[key].Published?
    ensures Inv(OnRun(s, key, true), max)
  {
    RemoveCounts(s.running, {key});
  }

  lemma RunKeeps(s: State, max: nat, key: Key, ok: bool)
    requires Inv(s, max)
    ensures Inv(OnRun(s, key, ok), max)
  {
    if key in s.running && key in s.rows {
      match s.running[key] {
        case Working => WorkKeeps(s, max, key, ok);
        case Committed => ShowKeeps(s, max, key);
        case Published => ReturnKeeps(s, max, key);
      }
    }
  }

  lemma NextKeeps(s: State, max: nat, step: Step)
    requires Inv(s, max)
    ensures Inv(Next(s, step), max)
  {
    match step {
      case Request(_) =>
      case ScanNext(id) => ScanKeeps(s, max, id);
      case ScanDone => ScanDoneKeeps(s, max);
      case Reserve(ok) => ReserveKeeps(s, max, ok);
      case RunMoves(key, ok) => RunKeeps(s, max, key, ok);
      case Drain(_) =>
    }
  }

  lemma {:induction false} InvAlways(start: State, max: nat, steps: seq<Step>)
    requires IsStart(start, max)
    ensures Inv(Run(start, steps), max)
  {
    if |steps| > 0 {
      InvAlways(start, max, steps[..|steps| - 1]);
      NextKeeps(Run(start, steps[..|steps| - 1]), max, steps[|steps| - 1]);
    }
  }

  // ----- what every run guarantees -----

  /** Permits are conserved, so unfinished executions never exceed the maximum. */
  lemma PermitsConserved(start: State, max: nat, steps: seq<Step>)
    requires IsStart(start, max)
    ensures var s := Run(start, steps);
            s.free + Held(s) == max && |s.running| <= max
  {
    InvAlways(start, max, steps);
  }

  lemma RunKeepsRows(s: State, key: Key, ok: bool)
    ensures OnRun(s, key, ok).rows.Keys == s.rows.Keys && OnRun(s, key, ok).starts == s.starts
  {
  }

  lemma ScanKeepsRows(s: State, id: nat)
    ensures OnScan(s, id).rows == s.rows && OnScan(s, id).starts == s.starts
  {
  }

  lemma ScanDoneKeepsRows(s: State)
    ensures OnScanDone(s).rows == s.rows && OnScanDone(s).starts == s.starts
  {
  }

  /** What a step starts was not reserved before. */
  lemma StartsAreReserved(s: State, step: Step)
    ensures s.rows.Keys <= Next(s, step).rows.Keys
    ensures forall k | k in Next(s, step).starts :: k in s.starts || k !in s.rows
  {
    match step {
      case Request(key) =>
      case ScanNext(id) => ScanKeepsRows(s, id);
      case ScanDone => ScanDoneKeepsRows(s);
      case Reserve(ok) =>
      case RunMoves(key, ok) => RunKeepsRows(s, key, ok);
      case Drain(on) =>
    }
  }

  lemma {:induction false} StartsAreNew(start: State, steps: seq<Step>)
    requires start.starts == []
    ensures start.rows.Keys <= Run(start, steps).rows.Keys
    ensures forall k | k in Run(start, steps).starts :: k !in start.rows
  {
    if |steps| > 0 {
      StartsAreNew(start, steps[..|steps| - 1]);
      StartsAreReserved(Run(start, steps[..|steps| - 1]), steps[|steps| - 1]);
    }
  }

  /** Each identity starts at most one run, and none that was reserved before the
      process started. */
  lemma StartsAreDistinct(start: State, max: nat, steps: seq<Step>)
    requires IsStart(start, max)
    ensures var starts := Run(start, steps).starts;
            forall i, j | 0 <= i < j < |starts| :: starts[i] != starts[j]
    ensures forall k | k in Run(start, steps).starts :: k !in start.rows
  {
    InvAlways(start, max, steps);
    StartsAreNew(start, steps);
  }

  /** Nor does it start another one in any later process that recovers the rows. */
  lemma StartsAreDistinctAcrossRestarts(start: State, max: nat, steps: seq<Step>,
                                        later: State, max': nat, steps': seq<Step>, key: Key)
    requires IsStart(start, max) && IsStart(later, max')
    requires Run(start, steps).rows.Keys <= later.rows.Keys && key in Run(start, steps).starts
    ensures key !in Run(later, steps').starts
  {
    InvAlways(start, max, steps);
    StartsAreNew(later, steps');
  }

  lemma {:induction false} EarlierGenerationsEnded(rows: map<Key, bool>, key: Key, generation: nat)
    requires Fenced(rows) && key in rows && 1 <= generation < key.generation
    ensures Key(key.id, generation) in rows && rows[Key(key.id, generation)]
    decreases key.generation
  {
    var before := Key(key.id, key.generation - 1);
    if generation < before.generation {
      EarlierGenerationsEnded(rows, before, generation);
    }
  }

  /** At any time at most one generation of an id is live, and all earlier ones
      exist and have ended. */
  lemma OneLiveGeneration(start: State, max: nat, steps: seq<Step>, a: Key, b: Key)
    requires IsStart(start, max)
    requires a in Run(start, steps).rows && b in Run(start, steps).rows && a.id == b.id
    requires !Run(start, steps).rows[a] && !Run(start, steps).rows[b]
    ensures a == b
  {
    InvAlways(start, max, steps);
    var rows := Run(start, steps).rows;
    if a.generation < b.generation {
      EarlierGenerationsEnded(rows, b, a.generation);
    } else if b.generation < a.generation {
      EarlierGenerationsEnded(rows, a, b.generation);
    }
  }

  lemma OnlyReserveStarts(s: State, step: Step)
    requires !step.Reserve?
    ensures Next(s, step).starts == s.starts
  {
    match step {
      case Request(key) =>
      case ScanNext(id) => ScanKeepsRows(s, id);
      case ScanDone => ScanDoneKeepsRows(s);
      case RunMoves(key, ok) => RunKeepsRows(s, key, ok);
      case Drain(on) =>
    }
  }

  lemma ReserveAddsOne(s: State, ok: bool)
    requires OnReserve(s, ok).starts != s.starts
    ensures s.admission.Reserving? && |OnReserve(s, ok).recent| <= |s.recent| + 1
  {
    assert s.admission.Reserving?;
    AddCounts(s.recent, s.admission.key.id, Entry(s.admission.key.generation, false));
  }

  /** An admission leaves at most the configured number of recent executions. */
  lemma AdmissionIsBounded(start: State, max: nat, steps: seq<Step>, step: Step)
    requires IsStart(start, max)
    requires Next(Run(start, steps), step).starts != Run(start, steps).starts
    ensures |Next(Run(start, steps), step).recent| <= MAX_RECENT_EXECUTIONS
  {
    InvAlways(start, max, steps);
    if !step.Reserve? {
      OnlyReserveStarts(Run(start, steps), step);
      assert false;
    }
    ReserveAddsOne(Run(start, steps), step.ok);
  }

  /** What the end of the scan took out of the table, and how much it left. */
  ghost predicate Minimal(s: State, t: State) {
    && (forall id | id in s.recent && id !in t.recent ::
          Key(id, s.recent[id].generation) in s.rows && s.rows[Key(id, s.recent[id].generation)])
    && (t.recent != s.recent ==> |t.recent| >= MAX_RECENT_EXECUTIONS - 1)
    && (t.admission.Reserving? ==> |t.recent| == MAX_RECENT_EXECUTIONS - 1)
  }

  lemma ScanEndsMinimal(s: State)
    requires s.admission.Scanning? && ScanInv(s.admission, s.recent) && Truthful(s.recent, s.rows)
    ensures Minimal(s, OnScanDone(s))
  {
    RemoveCounts(s.recent, s.admission.victims);
  }

  /** Eviction drops only executions that have ended, durably, and stops as soon as
      one place is free. */
  lemma EvictionIsMinimal(start: State, max: nat, steps: seq<Step>)
    requires IsStart(start, max) && Run(start, steps).admission.Scanning?
    ensures Minimal(Run(start, steps), OnScanDone(Run(start, steps)))
  {
    InvAlways(start, max, steps);
    ScanEndsMinimal(Run(start, steps));
  }
}

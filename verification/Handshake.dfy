/** The sandbox launch: `TrustedLandlockSetup::prepare`, the helper's sequence of
    effects, the runner's wait for its status bytes and the direct fallback. The
    helper and the runner are two processes, so a launch is any interleaving of
    their steps. */
module Handshake {
  import opened Wrappers

  /** `workspace_rw` is the one profile that exists. */
  datatype Profile = WorkspaceRw | Unsupported

  datatype SandboxRequest = NoSandbox | BestEffort(profile: Profile) | Required(profile: Profile)

  datatype Outcome = NotRequested | NotApplied | Applied

  datatype Setup = Setup(sandbox: Outcome, resources: Outcome)

  datatype RunnerError =
    | SetupFailed | RequiredSetupUnavailable | CancelledBeforeSpawn | SpawnFailed

  type Prepared = Result<Setup, RunnerError>

  /** A status code with which the helper refuses to go on, if it does. */
  type Refusal = Option<int>

  /** What the host will answer when asked. */
  datatype Facts = Facts(
    probeOk: bool,                 // systemd accepts the requested limits
    trustedForResources: bool,     // first trust check of the helper
    trustedForSandbox: bool,       // second trust check of the helper
    channelOk: bool,               // status channel and launch specification created
    wrapOk: bool,                  // the scope command can be built
    helperSpawns: bool,
    specFault: Refusal,        // status with which the helper refuses its specification
    limitsVerified: bool,          // the helper finds the limits installed
    restrictFault: Refusal,    // status with which Landlock could not be enforced
    targetSpawns: bool,            // the helper can start the target
    directSpawns: bool)            // the runner can start the target itself

  datatype Launch = Launch(sandbox: SandboxRequest, resourcesRequested: bool,
                           resourcesRequired: bool, facts: Facts)

  ghost predicate Possible(c: Launch) {
    && (c.resourcesRequired ==> c.resourcesRequested)
    && (c.facts.specFault.Some? ==> 4 <= c.facts.specFault.value <= 16)
    && (c.facts.restrictFault.Some? ==> c.facts.restrictFault.value in {2, 30, 31})
  }

  /** Some requested control must not be given up. */
  predicate Strict(c: Launch) {
    c.sandbox.Required? || c.resourcesRequired
  }

  // ----- preparation -----

  function Prepare(c: Launch): Prepared {
    if !c.resourcesRequested then PrepareSandbox(c, NotRequested)
    else if c.facts.probeOk && c.facts.trustedForResources then PrepareSandbox(c, Applied)
    else if c.resourcesRequired then Err(SetupFailed)
    else PrepareSandbox(c, NotApplied)
  }

  function PrepareSandbox(c: Launch, resources: Outcome): Prepared {
    match c.sandbox
    case NoSandbox => Ok(Setup(NotRequested, resources))
    case BestEffort(profile) =>
      Ok(Setup(if profile.WorkspaceRw? && c.facts.trustedForSandbox then Applied else NotApplied, resources))
    case Required(profile) =>
      if profile.WorkspaceRw? && c.facts.trustedForSandbox then Ok(Setup(Applied, resources))
      else Err(SetupFailed)
  }

  /** `SandboxChannel::new` accepts the profile of the request. */
  predicate ProfileSupported(c: Launch) {
    match c.sandbox
    case NoSandbox => c.resourcesRequested
    case BestEffort(profile) => profile.WorkspaceRw?
    case Required(profile) => profile.WorkspaceRw?
  }

  /** The launch specification asks the helper to confine itself. */
  predicate Confines(c: Launch) {
    !c.sandbox.NoSandbox?
  }

  /** What is reported once the helper is given up. */
  function GivenUp(c: Launch, report: Setup): Setup {
    Setup(if c.sandbox.NoSandbox? then report.sandbox else NotApplied,
          if report.resources.Applied? then NotApplied else report.resources)
  }

  // ----- the two processes -----

  datatype HelperPc =
    | Connecting | ReadingSpec | VerifyingLimits | Restricting | SayingReady | Spawning
    | SayingSpawned | Supervising | Gone

  datatype RunnerPc =
    | Accepting | ReadingFirst | ReadingSecond
    | FallingBack   // the helper is to be reaped and the target started directly
    | Finished(result: Prepared, session: bool)

  /** Targets started so far, by whom, and how many of them run unconfined. */
  datatype Targets = Targets(byHelper: nat, direct: nat, unconfined: nat) {
    function Count(): nat { byHelper + direct }
  }

  /** The status bytes written so far. */
  datatype Wire = Silent | One(first: int) | Two(first: int, second: int)

  function Write(wire: Wire, status: int): Wire {
    match wire case Silent => One(status) case One(first) => Two(first, status) case Two(_, _) => wire
  }

  datatype State = State(
    helper: HelperPc, connected: bool, confined: bool, wire: Wire,
    runner: RunnerPc, report: Setup, targets: Targets,
    gaveUp: bool,     // a wait before the first status timed out or failed
    disturbed: bool)  // some wait timed out, failed or was cancelled, or the helper died

  /** What may happen next: the helper performs its next effect or dies; the
      runner's blocking call completes, times out (or fails), or is cancelled. */
  datatype Step = HelperMoves | HelperDies | RunnerMoves | RunnerTimesOut | RunnerIsCancelled

  /** How the runner reads the first status byte. */
  datatype FirstStatus = Unavailable | Rejected | Ready

  function Classify(status: int): FirstStatus {
    if status in {0, 2, 3, 30, 31} then Unavailable
    else if status == 1 then Ready
    else Rejected
  }

  function SpawnDirect(c: Launch, s: State): State {
    if c.facts.directSpawns then
      s.(targets := s.targets.(direct := s.targets.direct + 1, unconfined := s.targets.unconfined + 1),
         runner := Finished(Ok(s.report), false))
    else s.(runner := Finished(Err(SpawnFailed), false))
  }

  function Idle(prepared: Setup): State {
    State(Gone, false, false, Silent, FallingBack, prepared, Targets(0, 0, 0), false, false)
  }

  /** The helper is used and can be started. */
  predicate Launches(c: Launch, prepared: Setup) {
    && (prepared.sandbox.Applied? || prepared.resources.Applied?)
    && ProfileSupported(c) && c.facts.channelOk
    && (prepared.resources.Applied? ==> c.facts.wrapOk)
    && c.facts.helperSpawns
  }

  /** The state in which the status wait begins, or the end of a launch that never
      reaches it. */
  function Start(c: Launch, prepared: Setup): State {
    var idle := Idle(prepared);
    if !(prepared.sandbox.Applied? || prepared.resources.Applied?) then
      SpawnDirect(c, idle)
    else if !(ProfileSupported(c) && c.facts.channelOk) then
      if Strict(c) then idle.(runner := Finished(Err(SetupFailed), false))
      else SpawnDirect(c, idle.(report := GivenUp(c, prepared)))
    else if prepared.resources.Applied? && !c.facts.wrapOk then
      idle.(runner := Finished(Err(SetupFailed), false))
    else if !c.facts.helperSpawns then
      idle.(runner := Finished(Err(SpawnFailed), false))
    else idle.(helper := Connecting, runner := Accepting)
  }

  function HelperMove(c: Launch, prepared: Setup, s: State): State {
    match s.helper
    case Connecting => s.(helper := ReadingSpec, connected := true)
    case ReadingSpec =>
      if c.facts.specFault.Some? then s.(wire := Write(s.wire, c.facts.specFault.value), helper := Gone)
      else s.(helper := VerifyingLimits)
    case VerifyingLimits =>
      if prepared.resources.Applied? && !c.facts.limitsVerified then
        s.(wire := Write(s.wire, 2), helper := Gone)
      else s.(helper := Restricting)
    case Restricting =>
      if !Confines(c) then s.(helper := SayingReady)
      else if c.facts.restrictFault.Some? then
        s.(wire := Write(s.wire, c.facts.restrictFault.value), helper := Gone)
      else s.(confined := true, helper := SayingReady)
    case SayingReady => s.(wire := Write(s.wire, 1), helper := Spawning)
    case Spawning =>
      if c.facts.targetSpawns then
        s.(targets := s.targets.(byHelper := s.targets.byHelper + 1,
                                 unconfined := s.targets.unconfined + if s.confined then 0 else 1),
           helper := SayingSpawned)
      else s.(wire := Write(s.wire, 0), helper := Gone)
    case SayingSpawned => s.(wire := Write(s.wire, 1), helper := Supervising)
    case Supervising => s
    case Gone => s
  }

  function HelperDie(s: State): State {
    if s.helper.Gone? then s else s.(helper := Gone, disturbed := true)
  }

  /** The wait failed before any target was announced. */
  function BeforeTarget(c: Launch, s: State, error: RunnerError): State {
    if Strict(c) || error.CancelledBeforeSpawn? then s.(helper := Gone, runner := Finished(Err(error), false))
    else s.(helper := Gone, runner := FallingBack)
  }

  /** The wait failed after the helper announced the target. */
  function AfterTarget(s: State, error: RunnerError): State {
    s.(helper := Gone, runner := Finished(Err(error), false))
  }

  function RunnerTimeout(c: Launch, s: State): State {
    match s.runner
    case Accepting => BeforeTarget(c, s.(gaveUp := true, disturbed := true), SetupFailed)
    case ReadingFirst => BeforeTarget(c, s.(gaveUp := true, disturbed := true), SetupFailed)
    case ReadingSecond => AfterTarget(s.(disturbed := true), SetupFailed)
    case FallingBack => s
    case Finished(_, _) => s
  }

  function RunnerCancel(c: Launch, s: State): State {
    match s.runner
    case Accepting => BeforeTarget(c, s.(disturbed := true), CancelledBeforeSpawn)
    case ReadingFirst => BeforeTarget(c, s.(disturbed := true), CancelledBeforeSpawn)
    case ReadingSecond => AfterTarget(s.(disturbed := true), CancelledBeforeSpawn)
    case FallingBack => s
    case Finished(_, _) => s
  }

  function ReadFirst(c: Launch, s: State): State {
    if s.wire.Silent? then
      if s.helper.Gone? then BeforeTarget(c, s, SetupFailed) else s
    else
      match Classify(s.wire.first)
      case Unavailable =>
        if Strict(c) then s.(helper := Gone, runner := Finished(Err(RequiredSetupUnavailable), false))
        else s.(runner := FallingBack)
      case Rejected => BeforeTarget(c, s, SetupFailed)
      case Ready => s.(runner := ReadingSecond)
  }

  function ReadSecond(s: State): State {
    if !s.wire.Two? then
      if s.helper.Gone? then AfterTarget(s, SetupFailed) else s
    else if s.wire.second == 1 then s.(runner := Finished(Ok(s.report), true))
    else AfterTarget(s, if s.wire.second == 0 then SpawnFailed else SetupFailed)
  }

  function RunnerMove(c: Launch, s: State): State {
    match s.runner
    case Accepting => if s.connected then s.(runner := ReadingFirst) else s
    case ReadingFirst => ReadFirst(c, s)
    case ReadingSecond => ReadSecond(s)
    case FallingBack =>
      if s.helper.Gone? then SpawnDirect(c, s.(report := GivenUp(c, s.report))) else s
    case Finished(_, _) => s
  }

  /** A move that is blocked changes nothing, so every sequence of steps is a
      schedule. */
  function Next(c: Launch, prepared: Setup, s: State, step: Step): State {
    match step
    case HelperMoves => HelperMove(c, prepared, s)
    case HelperDies => HelperDie(s)
    case RunnerMoves => RunnerMove(c, s)
    case RunnerTimesOut => RunnerTimeout(c, s)
    case RunnerIsCancelled => RunnerCancel(c, s)
  }

  function After(c: Launch, p: Setup, steps: seq<Step>): State {
    if |steps| == 0 then Start(c, p)
    else Next(c, p, After(c, p, steps[..|steps| - 1]), steps[|steps| - 1])
  }

  // ----- what every reachable state satisfies -----

  predicate SpecOk(c: Launch) { c.facts.specFault.None? }

  predicate LimitsOk(c: Launch, prepared: Setup) { prepared.resources.Applied? ==> c.facts.limitsVerified }

  predicate RestrictOk(c: Launch) { Confines(c) ==> c.facts.restrictFault.None? }

  /** Every check the helper makes succeeds. */
  predicate ChecksPass(c: Launch, prepared: Setup) {
    SpecOk(c) && LimitsOk(c, prepared) && RestrictOk(c)
  }

  /** The helper is started, passes its checks and starts the target. */
  predicate HelperDelivers(c: Launch, p: Setup) {
    Launches(c, p) && ChecksPass(c, p) && c.facts.targetSpawns
  }

  /** The helper's one target. */
  function HelpersTarget(c: Launch): Targets {
    Targets(1, 0, if Confines(c) then 0 else 1)
  }

  predicate HelperTargets(c: Launch, targets: Targets) {
    targets == Targets(0, 0, 0) || targets == HelpersTarget(c)
  }

  /** A helper that is still there: its position, the wire and the targets agree. */
  ghost predicate HelperAlive(c: Launch, p: Setup, s: State) {
    match s.helper
    case Connecting => s.wire.Silent? && s.targets == Targets(0, 0, 0) && !s.confined
    case ReadingSpec => s.wire.Silent? && s.targets == Targets(0, 0, 0) && !s.confined
    case VerifyingLimits => s.wire.Silent? && s.targets == Targets(0, 0, 0) && !s.confined && SpecOk(c)
    case Restricting => s.wire.Silent? && s.targets == Targets(0, 0, 0) && !s.confined && SpecOk(c) && LimitsOk(c, p)
    case SayingReady => s.wire.Silent? && s.targets == Targets(0, 0, 0) && s.confined == Confines(c) && ChecksPass(c, p)
    case Spawning => s.wire == One(1) && s.targets == Targets(0, 0, 0) && s.confined == Confines(c) && ChecksPass(c, p)
    case SayingSpawned => s.wire == One(1) && Delivered(c, p, s)
    case Supervising => s.wire == Two(1, 1) && Delivered(c, p, s)
    case Gone => HelperGone(c, p, s)
  }

  ghost predicate Delivered(c: Launch, p: Setup, s: State) {
    ChecksPass(c, p) && c.facts.targetSpawns && s.targets == HelpersTarget(c)
  }

  /** What a helper that is gone has left on the wire. */
  ghost predicate HelperGone(c: Launch, p: Setup, s: State) {
    match s.wire
    case Silent => s.disturbed && s.targets == Targets(0, 0, 0)
    case One(first) =>
      if first == 1 then s.disturbed && ChecksPass(c, p) && HelperTargets(c, s.targets)
      else !ChecksPass(c, p) && s.targets == Targets(0, 0, 0)
    case Two(first, second) =>
      && first == 1
      && if second == 1 then Delivered(c, p, s)
         else !c.facts.targetSpawns && ChecksPass(c, p) && s.targets == Targets(0, 0, 0)
  }

  /** The runner waits for a status. */
  ghost predicate AtWait(c: Launch, p: Setup, s: State) {
    Launches(c, p) && Honest(c, p) && s.report == p && !s.gaveUp && HelperAlive(c, p, s)
  }

  ghost predicate ToFallBack(c: Launch, p: Setup, s: State) {
    && s.helper.Gone? && !Strict(c) && Honest(c, s.report)
    && HelperTargets(c, s.targets)
    && (!s.gaveUp ==> s.targets == Targets(0, 0, 0))
    && (!s.disturbed ==> !HelperDelivers(c, p))
  }

  /** The target was started by the runner itself: nothing is reported as applied
      and nothing strict was asked for. */
  ghost predicate Direct(c: Launch, s: State, report: Setup) {
    && !report.sandbox.Applied? && !report.resources.Applied? && !Strict(c)
    && s.targets.direct == 1 && s.targets.byHelper <= 1
    && (!s.gaveUp ==> s.targets.byHelper == 0)
  }

  ghost predicate Concluded(c: Launch, p: Setup, s: State, result: Prepared, session: bool) {
    && (if session then result == Ok(p) && Honest(c, p) && Delivered(c, p, s) && s.helper in {Supervising, Gone}
        else s.helper.Gone?)
    && (result.Err? ==> HelperTargets(c, s.targets))
    && (result.Ok? && !session ==> Direct(c, s, result.value))
    && (!s.disturbed ==> (session <==> HelperDelivers(c, p)))
  }

  ghost predicate Inv(c: Launch, p: Setup, s: State) {
    match s.runner
    case Accepting => AtWait(c, p, s)
    case ReadingFirst => AtWait(c, p, s)
    case ReadingSecond => AtWait(c, p, s) && !s.wire.Silent? && s.wire.first == 1
    case FallingBack => ToFallBack(c, p, s)
    case Finished(result, session) => Concluded(c, p, s, result, session)
  }

  lemma SpawnDirectConcludes(c: Launch, p: Setup, s: State)
    requires s.helper.Gone? && !Strict(c) && HelperTargets(c, s.targets)
    requires !s.gaveUp ==> s.targets == Targets(0, 0, 0)
    requires !s.disturbed ==> !HelperDelivers(c, p)
    requires !s.report.sandbox.Applied? && !s.report.resources.Applied?
    ensures Inv(c, p, SpawnDirect(c, s))
  {
  }

  /** Only what may be given up is missing from a setup that was prepared. */
  predicate Honest(c: Launch, prepared: Setup) {
    && (c.sandbox.NoSandbox? <==> prepared.sandbox.NotRequested?)
    && (c.sandbox.Required? ==> prepared.sandbox.Applied?)
    && (c.resourcesRequired ==> prepared.resources.Applied?)
    && (prepared.resources.Applied? ==> c.resourcesRequested)
  }

  /** The host allows what the setup applies. */
  predicate Allowed(c: Launch, prepared: Setup) {
    && (prepared.sandbox.Applied? <==>
          !c.sandbox.NoSandbox? && c.sandbox.profile.WorkspaceRw? && c.facts.trustedForSandbox)
    && (prepared.resources.Applied? <==> c.resourcesRequested && c.facts.probeOk && c.facts.trustedForResources)
  }

  /** Preparation fails exactly when something strict is not allowed, and applies
      exactly what was requested and allowed. */
  lemma PrepareIsHonest(c: Launch)
    requires Possible(c)
    ensures Prepare(c).Ok? ==> Honest(c, Prepare(c).value) && Allowed(c, Prepare(c).value)
    ensures Prepare(c).Err? <==>
            || (c.resourcesRequired && !(c.facts.probeOk && c.facts.trustedForResources))
            || (c.sandbox.Required? && !(c.sandbox.profile.WorkspaceRw? && c.facts.trustedForSandbox))
  {
  }

  lemma StartHolds(c: Launch, prepared: Setup)
    requires Honest(c, prepared)
    ensures Inv(c, prepared, Start(c, prepared))
  {
    var idle := Idle(prepared);
    if !Strict(c) {
      if !(prepared.sandbox.Applied? || prepared.resources.Applied?) {
        SpawnDirectConcludes(c, prepared, idle);
      } else if !(ProfileSupported(c) && c.facts.channelOk) {
        SpawnDirectConcludes(c, prepared, idle.(report := GivenUp(c, prepared)));
      }
    }
  }

  /** The helper's effects up to its first status. */
  lemma ChecksKeepAlive(c: Launch, p: Setup, s: State)
    requires Possible(c) && HelperAlive(c, p, s)
    requires s.helper.Connecting? || s.helper.ReadingSpec? || s.helper.VerifyingLimits? || s.helper.Restricting?
    ensures HelperAlive(c, p, HelperMove(c, p, s))
  {
  }

  /** ... and from it on. */
  lemma ReportsKeepAlive(c: Launch, p: Setup, s: State)
    requires HelperAlive(c, p, s)
    requires s.helper.SayingReady? || s.helper.Spawning? || s.helper.SayingSpawned?
    ensures HelperAlive(c, p, HelperMove(c, p, s))
  {
  }

  lemma FirstStatusStays(c: Launch, p: Setup, s: State)
    requires !s.wire.Silent?
    ensures var w := HelperMove(c, p, s).wire; !w.Silent? && w.first == s.wire.first
  {
  }

  lemma HelperMoveKeepsAlive(c: Launch, p: Setup, s: State)
    requires Possible(c) && HelperAlive(c, p, s)
    ensures HelperAlive(c, p, HelperMove(c, p, s))
    ensures !s.wire.Silent? ==> !HelperMove(c, p, s).wire.Silent? && HelperMove(c, p, s).wire.first == s.wire.first
  {
    if s.helper.Connecting? || s.helper.ReadingSpec? || s.helper.VerifyingLimits? || s.helper.Restricting? {
      ChecksKeepAlive(c, p, s);
    } else if s.helper.SayingReady? || s.helper.Spawning? || s.helper.SayingSpawned? {
      ReportsKeepAlive(c, p, s);
    }
    if !s.wire.Silent? {
      FirstStatusStays(c, p, s);
    }
  }

  lemma HelperDieKeepsAlive(c: Launch, p: Setup, s: State)
    requires HelperAlive(c, p, s)
    ensures HelperAlive(c, p, HelperDie(s))
  {
  }

  predicate Waits(s: State) {
    s.runner.Accepting? || s.runner.ReadingFirst? || s.runner.ReadingSecond?
  }

  lemma HelperMoveKeepsInv(c: Launch, p: Setup, s: State)
    requires Possible(c) && Inv(c, p, s)
    ensures Inv(c, p, HelperMove(c, p, s))
  {
    if Waits(s) {
      HelperMoveKeepsAlive(c, p, s);
    } else {
      assert HelperMove(c, p, s) == s;
    }
  }

  lemma HelperDieKeepsInv(c: Launch, p: Setup, s: State)
    requires Inv(c, p, s)
    ensures Inv(c, p, HelperDie(s))
  {
    if Waits(s) {
      HelperDieKeepsAlive(c, p, s);
    }
  }

  lemma RefusedIsNotDelivered(c: Launch, p: Setup, s: State)
    requires AtWait(c, p, s) && !s.wire.Silent? && s.wire.first != 1
    ensures s.helper.Gone? && s.targets == Targets(0, 0, 0) && !HelperDelivers(c, p)
  {
  }

  lemma SilentFirstKeepsInv(c: Launch, p: Setup, s: State)
    requires s.runner.ReadingFirst? && AtWait(c, p, s) && s.wire.Silent?
    ensures Inv(c, p, ReadFirst(c, s))
  {
  }

  lemma RefusedFirstKeepsInv(c: Launch, p: Setup, s: State)
    requires s.runner.ReadingFirst? && AtWait(c, p, s) && !s.wire.Silent? && s.wire.first != 1
    ensures Inv(c, p, ReadFirst(c, s))
  {
    RefusedIsNotDelivered(c, p, s);
  }

  lemma ReadFirstKeepsInv(c: Launch, p: Setup, s: State)
    requires s.runner.ReadingFirst? && AtWait(c, p, s)
    ensures Inv(c, p, ReadFirst(c, s))
  {
    if s.wire.Silent? {
      SilentFirstKeepsInv(c, p, s);
    } else if s.wire.first == 1 {
      assert ReadFirst(c, s) == s.(runner := ReadingSecond);
    } else {
      RefusedFirstKeepsInv(c, p, s);
    }
  }

  lemma ReadSecondKeepsInv(c: Launch, p: Setup, s: State)
    requires s.runner.ReadingSecond? && Inv(c, p, s)
    ensures Inv(c, p, ReadSecond(s))
  {
  }

  lemma RunnerMoveKeepsInv(c: Launch, p: Setup, s: State)
    requires Inv(c, p, s)
    ensures Inv(c, p, RunnerMove(c, s))
  {
    match s.runner {
      case Accepting =>
      case ReadingFirst => ReadFirstKeepsInv(c, p, s);
      case ReadingSecond => ReadSecondKeepsInv(c, p, s);
      case FallingBack => SpawnDirectConcludes(c, p, s.(report := GivenUp(c, s.report)));
      case Finished(_, _) =>
    }
  }

  lemma AliveTargets(c: Launch, p: Setup, s: State)
    requires HelperAlive(c, p, s)
    ensures HelperTargets(c, s.targets)
  {
  }

  lemma DisturbedWaitKeepsInv(c: Launch, p: Setup, s: State)
    requires Inv(c, p, s)
    ensures Inv(c, p, RunnerTimeout(c, s)) && Inv(c, p, RunnerCancel(c, s))
  {
    if Waits(s) {
      AliveTargets(c, p, s);
    }
  }

  lemma NextKeepsInv(c: Launch, p: Setup, s: State, step: Step)
    requires Possible(c) && Inv(c, p, s)
    ensures Inv(c, p, Next(c, p, s, step))
  {
    match step {
      case HelperMoves => HelperMoveKeepsInv(c, p, s);
      case HelperDies => HelperDieKeepsInv(c, p, s);
      case RunnerMoves => RunnerMoveKeepsInv(c, p, s);
      case RunnerTimesOut => DisturbedWaitKeepsInv(c, p, s);
      case RunnerIsCancelled => DisturbedWaitKeepsInv(c, p, s);
    }
  }

  lemma {:induction false} InvAlways(c: Launch, p: Setup, steps: seq<Step>)
    requires Possible(c) && Prepare(c) == Ok(p)
    ensures Inv(c, p, After(c, p, steps))
  {
    if |steps| == 0 {
      PrepareIsHonest(c);
      StartHolds(c, p);
    } else {
      InvAlways(c, p, steps[..|steps| - 1]);
      NextKeepsInv(c, p, After(c, p, steps[..|steps| - 1]), steps[|steps| - 1]);
    }
  }

  // ----- what a launch guarantees -----

  /** Whatever the schedule, a required sandbox never starts an unconfined target,
      and a successful launch reports it as applied. */
  lemma RequiredIsConfined(c: Launch, p: Setup, steps: seq<Step>)
    requires Possible(c) && Prepare(c) == Ok(p) && c.sandbox.Required?
    ensures After(c, p, steps).targets.unconfined == 0
    ensures var r := After(c, p, steps).runner;
            r.Finished? && r.result.Ok? ==> r.session && r.result.value.sandbox.Applied?
  {
    InvAlways(c, p, steps);
    NoneUnconfined(c, p, After(c, p, steps));
  }

  lemma NoneUnconfined(c: Launch, p: Setup, s: State)
    requires Inv(c, p, s) && c.sandbox.Required?
    ensures s.targets.unconfined == 0
    ensures s.runner.Finished? && s.runner.result.Ok? ==>
              s.runner.session && s.runner.result.value.sandbox.Applied?
  {
    if Waits(s) {
      AliveTargets(c, p, s);
    }
  }

  /** For every request: what is reported as applied was enforced on the only
      target of that launch. */
  lemma AppliedMeansEnforced(c: Launch, p: Setup, steps: seq<Step>, report: Setup, session: bool)
    requires Possible(c) && Prepare(c) == Ok(p) && After(c, p, steps).runner == Finished(Ok(report), session)
    ensures report.sandbox.Applied? ==> After(c, p, steps).targets == Targets(1, 0, 0)
    ensures report.resources.Applied? ==> c.facts.limitsVerified && session
  {
    InvAlways(c, p, steps);
  }

  /** When no wait times out or is cancelled and the helper lives, the runner gets
      a session exactly when every check passed and the target was started. */
  lemma SessionExactlyWhenDelivered(c: Launch, p: Setup, steps: seq<Step>)
    requires Possible(c) && Prepare(c) == Ok(p) && After(c, p, steps).runner.Finished? && !After(c, p, steps).disturbed
    ensures After(c, p, steps).runner.session <==> HelperDelivers(c, p)
  {
    InvAlways(c, p, steps);
  }

  lemma TargetsBounded(c: Launch, p: Setup, s: State)
    requires Inv(c, p, s)
    ensures s.targets.Count() <= 2 && (s.targets.Count() == 2 ==> s.gaveUp && !Strict(c))
  {
  }

  /** At most one target starts, fallback included, unless the runner gave up
      waiting for the first status. */
  lemma AtMostOneTarget(c: Launch, p: Setup, steps: seq<Step>)
    requires Possible(c) && Prepare(c) == Ok(p)
    ensures After(c, p, steps).targets.Count() <= 2
    ensures After(c, p, steps).targets.Count() == 2 ==>
            After(c, p, steps).gaveUp && RunnerTimesOut in steps && !Strict(c)
  {
    InvAlways(c, p, steps);
    TargetsBounded(c, p, After(c, p, steps));
    GivingUpIsAStep(c, p, steps);
  }

  lemma OnlyTimeoutGivesUp(c: Launch, p: Setup, s: State, step: Step)
    ensures Next(c, p, s, step).gaveUp ==> s.gaveUp || step.RunnerTimesOut?
  {
  }

  lemma {:induction false} GivingUpIsAStep(c: Launch, p: Setup, steps: seq<Step>)
    ensures After(c, p, steps).gaveUp ==> RunnerTimesOut in steps
  {
    if |steps| > 0 {
      var n := |steps| - 1;
      GivingUpIsAStep(c, p, steps[..n]);
      OnlyTimeoutGivesUp(c, p, After(c, p, steps[..n]), steps[n]);
    }
  }

  lemma AfterOneMore(c: Launch, p: Setup, steps: seq<Step>, step: Step)
    ensures After(c, p, steps + [step]) == Next(c, p, After(c, p, steps), step)
  {
    assert (steps + [step])[..|steps|] == steps;
  }

  // ----- when two targets can start -----

  /** The helper route works, nothing strict was asked for, and the direct route works
      too. */
  predicate MayStartTwo(c: Launch, p: Setup) {
    HelperDelivers(c, p) && !Strict(c) && c.facts.directSpawns
  }

  ghost predicate Justified(c: Launch, p: Setup, targets: Targets) {
    (targets.byHelper > 0 ==> HelperDelivers(c, p)) && (targets.direct > 0 ==> c.facts.directSpawns)
  }

  lemma NextJustified(c: Launch, p: Setup, s: State, step: Step)
    requires Inv(c, p, s) && Justified(c, p, s.targets)
    ensures Justified(c, p, Next(c, p, s, step).targets)
  {
    match step {
      case HelperMoves => assert s.helper.Spawning? ==> Waits(s);
      case HelperDies =>
      case RunnerMoves =>
      case RunnerTimesOut =>
      case RunnerIsCancelled =>
    }
  }

  lemma {:induction false} AlwaysJustified(c: Launch, p: Setup, steps: seq<Step>)
    requires Possible(c) && Prepare(c) == Ok(p)
    ensures Justified(c, p, After(c, p, steps).targets)
  {
    if |steps| > 0 {
      AlwaysJustified(c, p, steps[..|steps| - 1]);
      InvAlways(c, p, steps[..|steps| - 1]);
      NextJustified(c, p, After(c, p, steps[..|steps| - 1]), steps[|steps| - 1]);
    }
  }

  /** The helper has started its target and not yet said so. */
  lemma HelperSpawnsUnheard(c: Launch, p: Setup) returns (steps: seq<Step>)
    requires HelperDelivers(c, p)
    ensures var s := After(c, p, steps);
            s.runner.Accepting? && s.helper.SayingSpawned? && s.targets == HelpersTarget(c)
  {
    AfterOneMore(c, p, [], HelperMoves);
    var connected := [] + [HelperMoves];
    AfterOneMore(c, p, connected, HelperMoves);
    var specRead := connected + [HelperMoves];
    var s := Start(c, p).(connected := true);
    assert After(c, p, specRead) == s.(helper := VerifyingLimits);
    AfterOneMore(c, p, specRead, HelperMoves);
    var verified := specRead + [HelperMoves];
    assert After(c, p, verified) == s.(helper := Restricting);
    AfterOneMore(c, p, verified, HelperMoves);
    var restricted := verified + [HelperMoves];
    assert After(c, p, restricted) == s.(confined := Confines(c), helper := SayingReady);
    AfterOneMore(c, p, restricted, HelperMoves);
    var ready := restricted + [HelperMoves];
    assert After(c, p, ready) == s.(confined := Confines(c), wire := One(1), helper := Spawning);
    AfterOneMore(c, p, ready, HelperMoves);
    steps := ready + [HelperMoves];
  }

  /** Then a timeout of the runner has the direct route start a second target. */
  lemma LateStatusStartsTwo(c: Launch, p: Setup) returns (steps: seq<Step>)
    requires MayStartTwo(c, p)
    ensures After(c, p, steps).targets.byHelper == 1 && After(c, p, steps).targets.direct == 1
  {
    var spawned := HelperSpawnsUnheard(c, p);
    AfterOneMore(c, p, spawned, RunnerTimesOut);
    var timedOut := spawned + [RunnerTimesOut];
    AfterOneMore(c, p, timedOut, RunnerMoves);
    steps := timedOut + [RunnerMoves];
  }

  /** A launch has a schedule that starts two targets if and only if both routes work
      and nothing strict was asked for. */
  lemma TwoTargetsExactlyWhen(c: Launch, p: Setup)
    requires Possible(c) && Prepare(c) == Ok(p)
    ensures (exists steps :: After(c, p, steps).targets.Count() == 2) <==> MayStartTwo(c, p)
  {
    if MayStartTwo(c, p) {
      var steps := LateStatusStartsTwo(c, p);
      assert After(c, p, steps).targets.Count() == 2;
    }
    forall steps | After(c, p, steps).targets.Count() == 2
      ensures MayStartTwo(c, p)
    {
      InvAlways(c, p, steps);
      AlwaysJustified(c, p, steps);
      BothRoutes(c, p, After(c, p, steps));
    }
  }

  // ----- when a failed launch has started its target -----

  /** A launch that fails undisturbed has started nothing. */
  lemma FailureStartsNothing(c: Launch, p: Setup, steps: seq<Step>)
    requires Possible(c) && Prepare(c) == Ok(p) && !After(c, p, steps).disturbed
    requires After(c, p, steps).runner.Finished? && After(c, p, steps).runner.result.Err?
    ensures After(c, p, steps).targets == Targets(0, 0, 0)
  {
    InvAlways(c, p, steps);
    AlwaysJustified(c, p, steps);
  }

  /** A launch that fails has started a target. */
  predicate FailedWithTarget(s: State) {
    s.runner.Finished? && s.runner.result.Err? && s.targets.Count() > 0
  }

  /** A cancellation can come between the start of the target and its announcement. */
  lemma CancelledAfterSpawn(c: Launch, p: Setup) returns (steps: seq<Step>)
    requires HelperDelivers(c, p)
    ensures After(c, p, steps).runner == Finished(Err(CancelledBeforeSpawn), false)
    ensures After(c, p, steps).targets == HelpersTarget(c)
  {
    var spawned := HelperSpawnsUnheard(c, p);
    AfterOneMore(c, p, spawned, RunnerIsCancelled);
    steps := spawned + [RunnerIsCancelled];
  }

  /** A launch has a schedule in which it fails although its target was started if and
      only if the helper route works. */
  lemma FailedWithTargetExactlyWhen(c: Launch, p: Setup)
    requires Possible(c) && Prepare(c) == Ok(p)
    ensures (exists steps :: FailedWithTarget(After(c, p, steps))) <==> HelperDelivers(c, p)
  {
    if HelperDelivers(c, p) {
      var steps := CancelledAfterSpawn(c, p);
      assert FailedWithTarget(After(c, p, steps));
    }
    forall steps | FailedWithTarget(After(c, p, steps))
      ensures HelperDelivers(c, p)
    {
      InvAlways(c, p, steps);
      AlwaysJustified(c, p, steps);
    }
  }

  lemma BothRoutes(c: Launch, p: Setup, s: State)
    requires Inv(c, p, s) && s.targets.Count() == 2
    ensures s.targets.byHelper > 0 && s.targets.direct > 0 && !Strict(c)
  {
  }

  /** Such launches exist: a best-effort sandbox on a host where everything works. */
  lemma TwoTargetsHappen()
    ensures var facts := Facts(true, true, true, true, true, true, None, true, None, true, true);
            var c := Launch(BestEffort(WorkspaceRw), false, false, facts);
            var p := Setup(Applied, NotRequested);
            Possible(c) && Prepare(c) == Ok(p) && MayStartTwo(c, p)
  {
  }
}

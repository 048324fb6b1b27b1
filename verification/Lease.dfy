/** An execution lease: the monitor task that sleeps towards the deadline, the
    renewals that move it, and the two clocks they use. A renewal holds the lease
    lock across its durable update, and its wake-up reaches the monitor only while
    the monitor is already waiting. */
module Lease {

  datatype Renewal = Never | Last(id: nat)

  /** Where the renewal that holds the lease lock is. */
  datatype Holder =
    | Free
    | Checked(id: nat, requested: int)   // deadline checked, durable update pending
    | Stored(expires: int)               // durable update done, deadline not yet moved

  datatype Monitor =
    | Looking | Reading
    | Preparing(deadline: int)   // deadline read, not yet waiting
    | Sleeping(deadline: int, woken: bool)
    | Due                        // the timer branch was taken, the lock is not
    | Stopped

  /** The branches of the monitor's wait; when several are ready any may be taken. */
  datatype Branch = Cancellation | WakeUp | Timer

  /** `mono` is the clock of deadlines in memory, `wall` that of the durable row. */
  datatype Clock = Clock(mono: int, wall: int)

  /** The deadline in memory, the durable one, and who is moving them. */
  datatype Terms = Terms(ttl: nat, expiresAt: int, durable: int, renewal: Renewal,
                         holder: Holder, renewals: nat)

  /** `steady` records that the wall clock has never gained on the monotonic one
      before the deadline. */
  datatype State = State(clock: Clock, steady: bool, terms: Terms, expired: bool, cancelled: bool,
                         terminal: bool, monitor: Monitor)

  datatype Step =
    | Tick(elapsed: nat, wall: int)
    | RenewStarts(id: nat) | RenewMoves(ok: bool)
    | MonitorMoves(branch: Branch) | Cancels | Finishes

  function Max(a: int, b: int): int { if a >= b then a else b }

  predicate Passed(s: State) {
    s.clock.mono >= s.terms.expiresAt
  }

  /** The wall clock does not gain on the monotonic one, or the deadline is over. */
  predicate Harmless(s: State, elapsed: nat, wall: int) {
    wall - s.clock.wall <= elapsed || s.clock.mono + elapsed >= s.terms.expiresAt
  }

  function TickTo(s: State, elapsed: nat, wall: int): State {
    s.(clock := Clock(s.clock.mono + elapsed, wall), steady := s.steady && Harmless(s, elapsed, wall))
  }

  /** The lock is taken and the deadline checked. */
  function RenewStart(s: State, id: nat): State {
    if !s.terms.holder.Free? || s.expired || Passed(s) then s
    else s.(terms := s.terms.(holder := Checked(id, s.clock.wall + s.terms.ttl)))
  }

  /** `update_lease`: a replayed renewal leaves the row alone, a new one never
      shortens it. */
  function StoreRenewal(c: Clock, t: Terms, id: nat, requested: int, ok: bool): Terms {
    if !ok || t.durable <= c.wall then t.(holder := Free)
    else if t.renewal == Last(id) then t.(holder := Stored(t.durable))
    else
      var expires := Max(t.durable, requested);
      t.(durable := expires, renewal := Last(id), holder := Stored(expires))
  }

  /** The deadline in memory that a durable one amounts to now. */
  function InMemory(c: Clock, expires: int): int {
    c.mono + Max(expires - c.wall, 0)
  }

  function MoveDeadline(c: Clock, t: Terms, expires: int): Terms {
    t.(expiresAt := InMemory(c, expires), holder := Free, renewals := t.renewals + 1)
  }

  /** The deadline moves and whoever already waits is woken. */
  function RenewMove(s: State, ok: bool): State {
    match s.terms.holder
    case Free => s
    case Checked(id, requested) =>
      s.(terms := StoreRenewal(s.clock, s.terms, id, requested, ok && !s.terminal))
    case Stored(expires) =>
      s.(terms := MoveDeadline(s.clock, s.terms, expires),
         monitor := if s.monitor.Sleeping? then s.monitor.(woken := true) else s.monitor)
  }

  /** The wait ends by one of its branches, if that one is ready. */
  function EndWait(s: State, branch: Branch): State
    requires s.monitor.Sleeping?
  {
    match branch
    case Cancellation => if s.cancelled then s.(monitor := Stopped) else s
    case WakeUp => if s.monitor.woken then s.(monitor := Looking) else s
    case Timer => if s.clock.mono >= s.monitor.deadline then s.(monitor := Due) else s
  }

  function MonitorMove(s: State, branch: Branch): State {
    match s.monitor
    case Looking => s.(monitor := if s.terminal then Stopped else Reading)
    case Reading => if s.terms.holder.Free? then s.(monitor := Preparing(s.terms.expiresAt)) else s
    case Preparing(deadline) => s.(monitor := Sleeping(deadline, false))
    case Sleeping(_, _) => EndWait(s, branch)
    case Due =>
      if !s.terms.holder.Free? then s
      else if Passed(s) then s.(expired := true, cancelled := true, monitor := Stopped)
      else s.(monitor := Looking)
    case Stopped => s
  }

  /** A step that is blocked or refused changes nothing. */
  function Next(s: State, step: Step): State {
    match step
    case Tick(elapsed, wall) => TickTo(s, elapsed, wall)
    case RenewStarts(id) => RenewStart(s, id)
    case RenewMoves(ok) => RenewMove(s, ok)
    case MonitorMoves(branch) => MonitorMove(s, branch)
    case Cancels => s.(cancelled := true)
    case Finishes => s.(terminal := true)
  }

  /** A new record: the row was reserved `delay` before the deadline was set. */
  function Created(mono: int, wall: int, ttl: nat, delay: nat): State {
    State(Clock(mono, wall), true,
          Terms(ttl, mono + ttl, wall - delay + ttl, Never, Free, 0),
          false, false, false, Looking)
  }

  function Run(start: State, steps: seq<Step>): State {
    if |steps| == 0 then start else Next(Run(start, steps[..|steps| - 1]), steps[|steps| - 1])
  }

  /** Every start of a record. */
  ghost predicate IsStart(s: State) {
    exists mono: int, wall: int, ttl: nat, delay: nat :: s == Created(mono, wall, ttl, delay)
  }

  // ----- safety, whatever the clocks do -----

  /** An expired lease has passed its current deadline and nobody is moving it. */
  ghost predicate Safe(s: State) {
    s.expired ==> Passed(s) && s.terms.holder.Free?
  }

  lemma NextSafe(s: State, step: Step)
    requires Safe(s)
    ensures Safe(Next(s, step))
  {
  }

  lemma {:induction false} SafeAlways(start: State, steps: seq<Step>)
    requires IsStart(start)
    ensures Safe(Run(start, steps))
  {
    if |steps| > 0 {
      SafeAlways(start, steps[..|steps| - 1]);
      NextSafe(Run(start, steps[..|steps| - 1]), steps[|steps| - 1]);
    }
  }

  ghost predicate SameLease(a: State, b: State) {
    b.expired == a.expired && b.terms == a.terms
  }

  lemma ExpiredStays(s: State, step: Step)
    requires Safe(s) && s.expired
    ensures SameLease(s, Next(s, step))
  {
  }

  /** Once a lease is expired no renewal succeeds: neither deadline moves again. */
  lemma {:induction false} NoRenewalAfterExpiry(start: State, steps: seq<Step>, more: seq<Step>)
    requires IsStart(start) && Run(start, steps).expired
    ensures SameLease(Run(start, steps), Run(start, steps + more))
  {
    if |more| == 0 {
      assert steps + more == steps;
    } else {
      var front := more[..|more| - 1];
      NoRenewalAfterExpiry(start, steps, front);
      SafeAlways(start, steps + front);
      ExpiredStays(Run(start, steps + front), more[|more| - 1]);
      assert (steps + more)[..|steps + more| - 1] == steps + front;
    }
  }

  lemma MarkedPastDeadline(s: State, step: Step)
    requires !s.expired && Next(s, step).expired
    ensures Passed(s) && Next(s, step).terms == s.terms
  {
  }

  /** The flag was raised at an instant at which the current, renewed deadline had
      passed, whether or not the monitor heard of the renewals. */
  lemma {:induction false} ExpiredAtItsDeadline(start: State, steps: seq<Step>) returns (k: nat)
    requires IsStart(start) && Run(start, steps).expired
    ensures k < |steps| && !Run(start, steps[..k]).expired
    ensures Passed(Run(start, steps[..k])) && Run(start, steps[..k]).terms == Run(start, steps).terms
  {
    var n := |steps| - 1;
    var before := Run(start, steps[..n]);
    if before.expired {
      SafeAlways(start, steps[..n]);
      ExpiredStays(before, steps[n]);
      k := ExpiredAtItsDeadline(start, steps[..n]);
      assert steps[..n][..k] == steps[..k];
    } else {
      MarkedPastDeadline(before, steps[n]);
      k := n;
    }
  }

  // ----- promptness, while the wall clock does not gain -----

  /** Whatever renewal is under way, or comes next, moves the deadline to no earlier
      instant. */
  ghost predicate Ahead(c: Clock, t: Terms) {
    match t.holder
    case Free =>
      t.expiresAt <= if t.renewal.Never? then c.mono + t.ttl else InMemory(c, t.durable)
    case Checked(_, requested) =>
      if t.renewal.Never?
      then t.expiresAt <= c.mono + t.ttl && t.expiresAt <= InMemory(c, Max(t.durable, requested))
      else t.expiresAt <= InMemory(c, t.durable)
    case Stored(expires) =>
      !t.renewal.Never? && expires == t.durable && t.expiresAt <= InMemory(c, expires)
  }

  /** A deadline the monitor read earlier is never later than the current one. */
  ghost predicate InTime(m: Monitor, expiresAt: int) {
    && (m.Preparing? ==> m.deadline <= expiresAt)
    && (m.Sleeping? ==> m.deadline <= expiresAt)
  }

  ghost predicate Prompt(s: State) {
    s.steady ==> Ahead(s.clock, s.terms) && InTime(s.monitor, s.terms.expiresAt)
  }

  lemma TickKeepsAhead(s: State, elapsed: nat, wall: int)
    requires Ahead(s.clock, s.terms) && Harmless(s, elapsed, wall)
    ensures Ahead(TickTo(s, elapsed, wall).clock, s.terms)
  {
  }

  lemma RenewPrompt(s: State, ok: bool)
    requires Prompt(s)
    ensures Prompt(RenewMove(s, ok))
    ensures s.steady ==> s.terms.expiresAt <= RenewMove(s, ok).terms.expiresAt
  {
  }

  lemma TickPrompt(s: State, elapsed: nat, wall: int)
    requires Prompt(s)
    ensures Prompt(TickTo(s, elapsed, wall))
  {
    if s.steady && Harmless(s, elapsed, wall) {
      TickKeepsAhead(s, elapsed, wall);
    }
  }

  lemma RenewStartPrompt(s: State, id: nat)
    requires Prompt(s)
    ensures Prompt(RenewStart(s, id))
  {
  }

  lemma MonitorOnlyLooks(s: State, branch: Branch)
    ensures var n := MonitorMove(s, branch);
            n.terms == s.terms && n.clock == s.clock && n.steady == s.steady
  {
    match s.monitor {
      case Sleeping(_, _) => match branch { case Cancellation => case WakeUp => case Timer => }
      case _ =>
    }
  }

  lemma MonitorInTime(s: State, branch: Branch)
    requires InTime(s.monitor, s.terms.expiresAt)
    ensures InTime(MonitorMove(s, branch).monitor, s.terms.expiresAt)
  {
    match s.monitor {
      case Sleeping(_, _) => match branch { case Cancellation => case WakeUp => case Timer => }
      case _ =>
    }
  }

  lemma MonitorPrompt(s: State, branch: Branch)
    requires Prompt(s)
    ensures Prompt(MonitorMove(s, branch)) && MonitorMove(s, branch).terms == s.terms
  {
    MonitorOnlyLooks(s, branch);
    if s.steady {
      MonitorInTime(s, branch);
    }
  }

  lemma NextPrompt(s: State, step: Step)
    requires Prompt(s)
    ensures Prompt(Next(s, step))
    ensures s.steady ==> s.terms.expiresAt <= Next(s, step).terms.expiresAt
  {
    match step {
      case Tick(elapsed, wall) => TickPrompt(s, elapsed, wall);
      case RenewStarts(id) => RenewStartPrompt(s, id);
      case RenewMoves(ok) => RenewPrompt(s, ok);
      case MonitorMoves(branch) => MonitorPrompt(s, branch);
      case Cancels =>
      case Finishes =>
    }
  }

  lemma {:induction false} PromptAlways(start: State, steps: seq<Step>)
    requires IsStart(start)
    ensures Prompt(Run(start, steps))
  {
    if |steps| > 0 {
      PromptAlways(start, steps[..|steps| - 1]);
      NextPrompt(Run(start, steps[..|steps| - 1]), steps[|steps| - 1]);
    }
  }

  /** The lease is over and the monitor waits on: no branch of its wait is ready. */
  ghost predicate Oversleeps(s: State) {
    && s.monitor.Sleeping? && Passed(s)
    && (forall branch :: MonitorMove(s, branch) == s)
  }

  /** Even if every wake-up is lost, a monitor that waits past the current deadline
      has a timer that is already due, provided the wall clock never gained on the
      monotonic one before the deadline. */
  lemma MonitorNeverOversleeps(start: State, steps: seq<Step>)
    requires IsStart(start) && Run(start, steps).steady
    requires Run(start, steps).monitor.Sleeping? && Passed(Run(start, steps))
    ensures MonitorMove(Run(start, steps), Timer).monitor.Due?
  {
    PromptAlways(start, steps);
  }

  /** Under the same proviso no step brings the deadline forward. */
  lemma RenewalNeverShortens(start: State, steps: seq<Step>, step: Step)
    requires IsStart(start) && Run(start, steps).steady
    ensures Run(start, steps).terms.expiresAt <= Next(Run(start, steps), step).terms.expiresAt
  {
    PromptAlways(start, steps);
    NextPrompt(Run(start, steps), step);
  }

  // ----- exactly when a clock step does harm -----

  ghost predicate Tickless(steps: seq<Step>) {
    forall i | 0 <= i < |steps| :: !steps[i].Tick?
  }

  /** The schedule has one tick, this one, at `at`. */
  ghost predicate OneTick(steps: seq<Step>, at: nat, elapsed: nat, wall: int) {
    && at < |steps| && steps[at] == Tick(elapsed, wall)
    && (forall i | 0 <= i < |steps| && i != at :: !steps[i].Tick?)
  }

  /** Some step of the run moves the deadline to an earlier instant. */
  ghost predicate BroughtForward(start: State, steps: seq<Step>) {
    exists k | 0 <= k < |steps| ::
      Run(start, steps[..k + 1]).terms.expiresAt < Run(start, steps[..k]).terms.expiresAt
  }

  /** Before any time has passed every renewal asks for the deadline there is. */
  ghost predicate Unmoved(start: State, s: State) {
    var t, wall := s.terms, start.clock.wall + start.terms.ttl;
    && s.clock == start.clock && s.steady && t.ttl == start.terms.ttl
    && t.expiresAt == start.clock.mono + t.ttl
    && t.durable <= wall && (!t.renewal.Never? ==> t.durable == wall)
    && (t.holder.Checked? ==> t.holder.requested == wall)
    && (t.holder.Stored? ==> t.holder.expires == wall)
    && (s.monitor.Preparing? ==> s.monitor.deadline == t.expiresAt)
    && (s.monitor.Sleeping? ==> s.monitor.deadline == t.expiresAt)
  }

  lemma {:induction false} TicklessIsUnmoved(start: State, steps: seq<Step>)
    requires IsStart(start) && Tickless(steps)
    ensures Unmoved(start, Run(start, steps))
  {
    if |steps| > 0 {
      TicklessIsUnmoved(start, steps[..|steps| - 1]);
      UnmovedStays(start, Run(start, steps[..|steps| - 1]), steps[|steps| - 1]);
    }
  }

  lemma UnmovedStays(start: State, s: State, step: Step)
    requires Unmoved(start, s) && !step.Tick?
    ensures Unmoved(start, Next(s, step))
  {
  }

  /** A run whose one tick is harmless from the start is steady throughout. */
  lemma {:induction false} HarmlessIsSteady(start: State, steps: seq<Step>, at: nat, elapsed: nat, wall: int, k: nat)
    requires IsStart(start) && OneTick(steps, at, elapsed, wall) && k <= |steps|
    requires Harmless(start, elapsed, wall)
    ensures Run(start, steps[..k]).steady
  {
    if k > 0 {
      HarmlessIsSteady(start, steps, at, elapsed, wall, k - 1);
      assert steps[..k][..k - 1] == steps[..k - 1];
      if k - 1 == at {
        TicklessIsUnmoved(start, steps[..at]);
      }
    }
  }

  lemma OneMore(start: State, steps: seq<Step>, step: Step)
    ensures Run(start, steps + [step]) == Next(Run(start, steps), step)
  {
    assert (steps + [step])[..|steps|] == steps;
  }

  /** The monitor has read the deadline and a renewal has updated the row. */
  function Poised(): seq<Step> {
    [MonitorMoves(Timer), MonitorMoves(Timer), RenewStarts(0), RenewMoves(true)]
  }

  /** Neither has gone on when the clocks move; then the deadline moves, and the
      monitor, whom no wake-up reaches, begins to wait. */
  function Race(elapsed: nat, wall: int): seq<Step> {
    Poised() + [Tick(elapsed, wall)] + [RenewMoves(true)] + [MonitorMoves(Timer)]
  }

  lemma PoisedRuns(mono: int, wall: int, ttl: nat, delay: nat)
    requires delay < ttl
    ensures Run(Created(mono, wall, ttl, delay), Poised())
         == State(Clock(mono, wall), true, Terms(ttl, mono + ttl, wall + ttl, Last(0), Stored(wall + ttl), 0),
                  false, false, false, Preparing(mono + ttl))
  {
    var start := Created(mono, wall, ttl, delay);
    OneMore(start, [], MonitorMoves(Timer));
    var looked := [] + [MonitorMoves(Timer)];
    OneMore(start, looked, MonitorMoves(Timer));
    var prepared := looked + [MonitorMoves(Timer)];
    assert Run(start, prepared) == start.(monitor := Preparing(mono + ttl));
    OneMore(start, prepared, RenewStarts(0));
    var checked := prepared + [RenewStarts(0)];
    OneMore(start, checked, RenewMoves(true));
    assert Poised() == checked + [RenewMoves(true)];
  }

  /** What the race comes to. */
  lemma RaceRuns(mono: int, wall: int, ttl: nat, delay: nat, elapsed: nat, wall': int)
    requires delay < ttl
    ensures var start, steps := Created(mono, wall, ttl, delay), Race(elapsed, wall');
            var s := Run(start, steps);
            && OneTick(steps, 4, elapsed, wall')
            && Run(start, steps[..5]).terms.expiresAt == mono + ttl
            && Run(start, steps[..6]).terms.expiresAt == s.terms.expiresAt
            && s.terms.expiresAt == mono + elapsed + Max(wall + ttl - wall', 0)
            && s.clock.mono == mono + elapsed && !s.cancelled
            && s.monitor == Sleeping(mono + ttl, false)
  {
    var start, steps := Created(mono, wall, ttl, delay), Race(elapsed, wall');
    PoisedRuns(mono, wall, ttl, delay);
    var ticked := Poised() + [Tick(elapsed, wall')];
    OneMore(start, Poised(), Tick(elapsed, wall'));
    OneMore(start, ticked, RenewMoves(true));
    var moved := ticked + [RenewMoves(true)];
    OneMore(start, moved, MonitorMoves(Timer));
    assert steps[..5] == ticked && steps[..6] == moved;
  }

  /** The durable deadline is over from the start: no renewal gets past it. */
  ghost predicate Hopeless(start: State, s: State) {
    && s.terms.renewal.Never? && !s.terms.holder.Stored?
    && s.terms.durable <= s.clock.wall && s.terms.expiresAt == start.terms.expiresAt
  }

  lemma HopelessStays(start: State, s: State, step: Step)
    requires Hopeless(start, s) && (step.Tick? ==> s.clock.wall <= step.wall)
    ensures Hopeless(start, Next(s, step))
  {
  }

  lemma OnlyTicksMoveClocks(s: State, step: Step)
    ensures Next(s, step).clock == if step.Tick? then Clock(s.clock.mono + step.elapsed, step.wall) else s.clock
  {
    if step.MonitorMoves? {
      MonitorOnlyLooks(s, step.branch);
    }
  }

  lemma {:induction false} HopelessThroughout(start: State, steps: seq<Step>, at: nat, elapsed: nat, wall: int,
                                              k: nat)
    requires IsStart(start) && Hopeless(start, start) && start.clock.wall <= wall
    requires OneTick(steps, at, elapsed, wall) && k <= |steps|
    ensures Hopeless(start, Run(start, steps[..k]))
    ensures Run(start, steps[..k]).clock == if k <= at then start.clock else Clock(start.clock.mono + elapsed, wall)
  {
    if k > 0 {
      HopelessThroughout(start, steps, at, elapsed, wall, k - 1);
      assert steps[..k] == steps[..k - 1] + [steps[k - 1]];
      OneMore(start, steps[..k - 1], steps[k - 1]);
      HopelessStays(start, Run(start, steps[..k - 1]), steps[k - 1]);
      OnlyTicksMoveClocks(Run(start, steps[..k - 1]), steps[k - 1]);
    }
  }

  /** With a harmless tick, or no hope of a renewal, no step brings the deadline
      forward. */
  lemma NotBroughtForward(start: State, steps: seq<Step>, at: nat, elapsed: nat, wall: int, k: nat)
    requires IsStart(start) && OneTick(steps, at, elapsed, wall) && k < |steps|
    requires Harmless(start, elapsed, wall) || (Hopeless(start, start) && start.clock.wall <= wall)
    ensures Run(start, steps[..k]).terms.expiresAt <= Run(start, steps[..k + 1]).terms.expiresAt
  {
    if Harmless(start, elapsed, wall) {
      assert steps[..k + 1] == steps[..k] + [steps[k]];
      OneMore(start, steps[..k], steps[k]);
      HarmlessIsSteady(start, steps, at, elapsed, wall, k);
      RenewalNeverShortens(start, steps[..k], steps[k]);
    } else {
      HopelessThroughout(start, steps, at, elapsed, wall, k);
      HopelessThroughout(start, steps, at, elapsed, wall, k + 1);
    }
  }

  /** A tick can bring the deadline forward, in some schedule with no other tick, if
      and only if the wall clock gains on the monotonic one before the deadline (and
      the row was not overdue from the start). */
  lemma BroughtForwardExactlyWhen(mono: int, wall: int, ttl: nat, delay: nat, elapsed: nat, wall': int)
    ensures (exists steps, at :: OneTick(steps, at, elapsed, wall')
                                 && BroughtForward(Created(mono, wall, ttl, delay), steps))
       <==> delay < ttl && elapsed < ttl && wall' - wall > elapsed
  {
    var start := Created(mono, wall, ttl, delay);
    if delay < ttl && elapsed < ttl && wall' - wall > elapsed {
      var steps := Race(elapsed, wall');
      RaceRuns(mono, wall, ttl, delay, elapsed, wall');
      assert Run(start, steps[..5 + 1]).terms.expiresAt < Run(start, steps[..5]).terms.expiresAt;
      assert BroughtForward(start, steps) && OneTick(steps, 4, elapsed, wall');
    } else {
      forall steps, at, k | OneTick(steps, at, elapsed, wall') && 0 <= k < |steps|
        ensures Run(start, steps[..k]).terms.expiresAt <= Run(start, steps[..k + 1]).terms.expiresAt
      {
        NotBroughtForward(start, steps, at, elapsed, wall', k);
      }
    }
  }

  // ----- exactly when it makes the monitor oversleep -----

  /** From the tick on: the deadline is ahead, and so is every durable one that can
      still become it. */
  ghost predicate StillAhead(c: Clock, ttl: nat, s: State) {
    var t := s.terms;
    && s.clock == c && t.ttl == ttl && t.expiresAt > c.mono
    && (!t.renewal.Never? ==> t.durable > c.wall)
    && (t.holder.Checked? ==> t.holder.requested > c.wall)
    && (t.holder.Stored? ==> t.holder.expires > c.wall)
  }

  lemma StillAheadStays(c: Clock, ttl: nat, s: State, step: Step)
    requires StillAhead(c, ttl, s) && !step.Tick? && ttl > 0
    ensures StillAhead(c, ttl, Next(s, step))
  {
  }

  lemma {:induction false} SmallGainStaysAhead(start: State, steps: seq<Step>, at: nat, elapsed: nat, wall: int,
                                               k: nat)
    requires IsStart(start) && OneTick(steps, at, elapsed, wall) && at < k <= |steps|
    requires elapsed < start.terms.ttl && wall - start.clock.wall < start.terms.ttl
    ensures StillAhead(Clock(start.clock.mono + elapsed, wall), start.terms.ttl, Run(start, steps[..k]))
  {
    var c := Clock(start.clock.mono + elapsed, wall);
    assert steps[..k][..k - 1] == steps[..k - 1];
    if k == at + 1 {
      TicklessIsUnmoved(start, steps[..at]);
    } else {
      SmallGainStaysAhead(start, steps, at, elapsed, wall, k - 1);
      StillAheadStays(c, start.terms.ttl, Run(start, steps[..k - 1]), steps[k - 1]);
    }
  }

  lemma NoOversleeping(start: State, steps: seq<Step>, at: nat, elapsed: nat, wall: int)
    requires IsStart(start) && OneTick(steps, at, elapsed, wall)
    requires elapsed < start.terms.ttl <= wall - start.clock.wall ==> Hopeless(start, start)
    ensures !Oversleeps(Run(start, steps))
  {
    assert steps[..|steps|] == steps;
    var s := Run(start, steps);
    if elapsed >= start.terms.ttl {
      HarmlessIsSteady(start, steps, at, elapsed, wall, |steps|);
      if s.monitor.Sleeping? && Passed(s) {
        MonitorNeverOversleeps(start, steps);
        assert MonitorMove(s, Timer) != s;
      }
    } else if wall - start.clock.wall < start.terms.ttl {
      SmallGainStaysAhead(start, steps, at, elapsed, wall, |steps|);
    } else {
      HopelessThroughout(start, steps, at, elapsed, wall, |steps|);
    }
  }

  /** A tick can leave the monitor waiting on past the deadline, in some schedule with
      no other tick, if and only if it takes the wall clock, and not the monotonic
      one, across the whole lease (and the row was not overdue from the start). */
  lemma OversleepsExactlyWhen(mono: int, wall: int, ttl: nat, delay: nat, elapsed: nat, wall': int)
    ensures (exists steps, at :: OneTick(steps, at, elapsed, wall')
                                 && Oversleeps(Run(Created(mono, wall, ttl, delay), steps)))
       <==> delay < ttl && elapsed < ttl <= wall' - wall
  {
    var start := Created(mono, wall, ttl, delay);
    if delay < ttl && elapsed < ttl <= wall' - wall {
      var steps := Race(elapsed, wall');
      RaceRuns(mono, wall, ttl, delay, elapsed, wall');
      assert Oversleeps(Run(start, steps)) && OneTick(steps, 4, elapsed, wall');
    } else {
      forall steps, at | OneTick(steps, at, elapsed, wall')
        ensures !Oversleeps(Run(start, steps))
      {
        NoOversleeping(start, steps, at, elapsed, wall');
      }
    }
  }

  /** One such run: a lease of 100, a millisecond in which the wall clock jumps by a
      second, and a monitor that no branch of its wait lets go. */
  lemma WallClockJumpOversleeps()
    ensures Oversleeps(Run(Created(0, 0, 100, 0), Race(1, 1000)))
  {
    RaceRuns(0, 0, 100, 0, 1, 1000);
  }
}

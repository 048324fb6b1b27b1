/** Which histories of the two clocks can bring the deadline of a lease forward. */
module LeaseTicks {
  import opened Lease

  /** A tick: how far the monotonic clock goes, and what the wall clock then shows. */
  datatype Beat = Beat(elapsed: nat, wall: int)

  /** The ticks of a schedule, in order. */
  function Beats(steps: seq<Step>): seq<Beat> {
    if |steps| == 0 then []
    else
      var last := steps[|steps| - 1];
      Beats(steps[..|steps| - 1]) + if last.Tick? then [Beat(last.elapsed, last.wall)] else []
  }

  /** The clocks, and the latest durable deadline any schedule can have by then. */
  datatype Reach = Reach(mono: int, wall: int, latest: int)

  /** A renewal can still be had after the tick if the wall clock is short of the latest
      durable deadline. */
  function Extend(r: Reach, ttl: nat, beat: Beat): Reach {
    Reach(r.mono + beat.elapsed, beat.wall,
          if r.latest > beat.wall then Max(r.latest, beat.wall + ttl) else r.latest)
  }

  function ReachOf(mono: int, wall: int, ttl: nat, beats: seq<Beat>): Reach {
    if |beats| == 0 then Reach(mono, wall, wall + ttl)
    else Extend(ReachOf(mono, wall, ttl, beats[..|beats| - 1]), ttl, beats[|beats| - 1])
  }

  /** The wall clock gains on the monotonic one, within what is left of the lease. */
  predicate Hurts(r: Reach, beat: Beat) {
    beat.elapsed < r.latest - r.wall && beat.wall - r.wall > beat.elapsed
  }

  /** Some tick of the history does. */
  predicate Harmful(mono: int, wall: int, ttl: nat, beats: seq<Beat>) {
    |beats| > 0 &&
    var front := beats[..|beats| - 1];
    Harmful(mono, wall, ttl, front) || Hurts(ReachOf(mono, wall, ttl, front), beats[|beats| - 1])
  }

  lemma BeatsGrow(steps: seq<Step>, step: Step)
    ensures Beats(steps + [step]) == Beats(steps) + if step.Tick? then [Beat(step.elapsed, step.wall)] else []
  {
    assert (steps + [step])[..|steps|] == steps;
  }

  lemma ReachGrows(mono: int, wall: int, ttl: nat, beats: seq<Beat>, beat: Beat)
    ensures var r := ReachOf(mono, wall, ttl, beats);
            && ReachOf(mono, wall, ttl, beats + [beat]) == Extend(r, ttl, beat)
            && (Harmful(mono, wall, ttl, beats + [beat]) <==> Harmful(mono, wall, ttl, beats) || Hurts(r, beat))
  {
    assert (beats + [beat])[..|beats|] == beats;
  }

  // ----- a harmless history brings nothing forward -----

  /** Nothing in the state goes beyond what the history allows. */
  ghost predicate Within(r: Reach, ttl: nat, s: State) {
    var t := s.terms;
    && s.clock == Clock(r.mono, r.wall) && t.ttl == ttl && ttl > 0
    && (r.latest > r.wall ==> r.latest >= r.wall + ttl)
    && t.durable <= r.latest
    && (t.holder.Checked? ==> t.holder.requested <= r.latest)
    && (t.holder.Stored? ==> t.holder.expires <= r.latest)
    && (t.expiresAt > r.mono ==> t.expiresAt <= r.latest + r.mono - r.wall)
  }

  lemma WithinStays(r: Reach, ttl: nat, s: State, step: Step)
    requires Within(r, ttl, s) && !step.Tick?
    ensures Within(r, ttl, Next(s, step)) && Next(s, step).steady == s.steady
  {
    match step {
      case RenewStarts(id) =>
      case RenewMoves(ok) =>
      case MonitorMoves(branch) => MonitorOnlyLooks(s, branch);
      case Cancels =>
      case Finishes =>
    }
  }

  lemma WithinExtends(r: Reach, ttl: nat, s: State, beat: Beat)
    requires Within(r, ttl, s) && !Hurts(r, beat)
    ensures Harmless(s, beat.elapsed, beat.wall)
    ensures Within(Extend(r, ttl, beat), ttl, TickTo(s, beat.elapsed, beat.wall))
  {
  }

  lemma {:induction false} HarmlessHistory(mono: int, wall: int, ttl: nat, delay: nat, steps: seq<Step>)
    requires delay < ttl && !Harmful(mono, wall, ttl, Beats(steps))
    ensures var s := Run(Created(mono, wall, ttl, delay), steps);
            s.steady && Within(ReachOf(mono, wall, ttl, Beats(steps)), ttl, s)
  {
    if |steps| > 0 {
      var front, last := steps[..|steps| - 1], steps[|steps| - 1];
      var s, r := Run(Created(mono, wall, ttl, delay), front), ReachOf(mono, wall, ttl, Beats(front));
      assert steps == front + [last];
      BeatsGrow(front, last);
      if last.Tick? {
        var beat := Beat(last.elapsed, last.wall);
        ReachGrows(mono, wall, ttl, Beats(front), beat);
        HarmlessHistory(mono, wall, ttl, delay, front);
        WithinExtends(r, ttl, s, beat);
      } else {
        assert Beats(steps) == Beats(front);
        HarmlessHistory(mono, wall, ttl, delay, front);
        WithinStays(r, ttl, s, last);
      }
    }
  }

  /** A part of a harmless history is harmless. */
  lemma {:induction false} HarmlessPrefix(mono: int, wall: int, ttl: nat, steps: seq<Step>, k: nat)
    requires k <= |steps| && !Harmful(mono, wall, ttl, Beats(steps))
    ensures !Harmful(mono, wall, ttl, Beats(steps[..k]))
    decreases |steps|
  {
    if k == |steps| {
      assert steps[..k] == steps;
    } else {
      var front, last := steps[..|steps| - 1], steps[|steps| - 1];
      assert steps == front + [last] && front[..k] == steps[..k];
      BeatsGrow(front, last);
      if last.Tick? {
        ReachGrows(mono, wall, ttl, Beats(front), Beat(last.elapsed, last.wall));
      } else {
        assert Beats(steps) == Beats(front);
      }
      HarmlessPrefix(mono, wall, ttl, front, k);
    }
  }

  lemma NothingForward(mono: int, wall: int, ttl: nat, delay: nat, steps: seq<Step>, k: nat)
    requires delay < ttl && !Harmful(mono, wall, ttl, Beats(steps)) && k < |steps|
    ensures var start := Created(mono, wall, ttl, delay);
            Run(start, steps[..k]).terms.expiresAt <= Run(start, steps[..k + 1]).terms.expiresAt
  {
    var start := Created(mono, wall, ttl, delay);
    HarmlessPrefix(mono, wall, ttl, steps, k);
    HarmlessHistory(mono, wall, ttl, delay, steps[..k]);
    RenewalNeverShortens(start, steps[..k], steps[k]);
    assert steps[..k + 1] == steps[..k] + [steps[k]];
    OneMore(start, steps[..k], steps[k]);
  }

  // ----- a harmful one does in some schedule -----

  /** The row has the latest deadline there can be, and a renewal that found it so has
      not gone on. */
  ghost predicate Primed(r: Reach, ttl: nat, s: State) {
    var t := s.terms;
    && s.clock == Clock(r.mono, r.wall) && t.ttl == ttl && !s.expired && !s.terminal
    && !t.renewal.Never? && t.durable == r.latest && t.holder == Stored(r.latest)
    && (r.latest > r.wall ==> t.expiresAt == r.latest + r.mono - r.wall)
  }

  /** The renewal goes on, another one follows, and its repetition is left waiting. */
  function Renewals(id: nat): seq<Step> {
    [RenewMoves(true), RenewStarts(id), RenewMoves(true), RenewMoves(true), RenewStarts(id), RenewMoves(true)]
  }

  lemma {:induction false} RunJoins(start: State, a: seq<Step>, b: seq<Step>)
    ensures Run(start, a + b) == Run(Run(start, a), b)
  {
    if |b| == 0 {
      assert a + b == a;
    } else {
      assert a + b == (a + b[..|b| - 1]) + [b[|b| - 1]];
      OneMore(start, a + b[..|b| - 1], b[|b| - 1]);
      RunJoins(start, a, b[..|b| - 1]);
    }
  }

  lemma {:induction false} BeatsJoin(a: seq<Step>, b: seq<Step>)
    ensures Beats(a + b) == Beats(a) + Beats(b)
  {
    if |b| == 0 {
      assert a + b == a;
    } else {
      assert a + b == (a + b[..|b| - 1]) + [b[|b| - 1]];
      BeatsGrow(a + b[..|b| - 1], b[|b| - 1]);
      BeatsJoin(a, b[..|b| - 1]);
    }
  }

  /** A renewal that waits goes on, and a new one is carried through. */
  function RenewedOnce(s: State, id: nat): State {
    RenewMove(RenewMove(RenewStart(RenewMove(s, true), id), true), true)
  }

  lemma RenewedOnceReaches(s: State, r: Reach, ttl: nat, id: nat)
    requires s.clock == Clock(r.mono, r.wall) && s.terms.ttl == ttl > 0 && !s.expired && !s.terminal
    requires s.terms.holder == Stored(s.terms.durable) && s.terms.renewal != Last(id)
    requires s.terms.durable > r.wall && r.latest == Max(s.terms.durable, r.wall + ttl)
    ensures var n := RenewedOnce(s, id);
            && n.clock == s.clock && !n.expired && !n.terminal
            && n.terms == Terms(ttl, r.latest + r.mono - r.wall, r.latest, Last(id), Free, s.terms.renewals + 2)
  {
    var moved := RenewMove(s, true);
    assert moved.terms.expiresAt == r.mono + s.terms.durable - r.wall && moved.terms.holder.Free?;
    var checked := RenewStart(moved, id);
    assert checked.terms == moved.terms.(holder := Checked(id, r.wall + ttl));
    var stored := RenewMove(checked, true);
    assert stored.terms == checked.terms.(durable := r.latest, renewal := Last(id), holder := Stored(r.latest));
  }

  /** Its repetition finds the row as it left it. */
  lemma RepetitionPrimes(s: State, r: Reach, ttl: nat, id: nat)
    requires s.clock == Clock(r.mono, r.wall) && !s.expired && !s.terminal && ttl > 0 && r.latest > r.wall
    requires var t := s.terms;
             && t.ttl == ttl && t.holder.Free? && t.renewal == Last(id) && t.durable == r.latest
             && t.expiresAt == r.latest + r.mono - r.wall
    ensures Primed(r, ttl, RenewMove(RenewStart(s, id), true))
    ensures RenewMove(RenewStart(s, id), true).terms.renewal == Last(id)
  {
    assert RenewStart(s, id).terms == s.terms.(holder := Checked(id, r.wall + ttl));
  }

  lemma RenewalsRun(s: State, id: nat)
    ensures Run(s, Renewals(id)) == RenewMove(RenewStart(RenewedOnce(s, id), id), true)
  {
    Sixth(s, Renewals(id));
  }

  /** While the row is not overdue, renewals prime the lease. */
  lemma RenewalsPrime(s: State, r: Reach, ttl: nat, id: nat)
    requires s.clock == Clock(r.mono, r.wall) && s.terms.ttl == ttl > 0 && !s.expired && !s.terminal
    requires s.terms.holder == Stored(s.terms.durable) && s.terms.renewal != Last(id)
    requires s.terms.durable > r.wall && r.latest == Max(s.terms.durable, r.wall + ttl)
    ensures Primed(r, ttl, Run(s, Renewals(id)))
    ensures Beats(Renewals(id)) == []
  {
    RenewedOnceReaches(s, r, ttl, id);
    RepetitionPrimes(RenewedOnce(s, id), r, ttl, id);
    RenewalsRun(s, id);
    NoBeats(Renewals(id));
  }

  /** Six steps, one by one. */
  lemma Sixth(s: State, steps: seq<Step>)
    requires |steps| == 6
    ensures Run(s, steps)
         == Next(Next(Next(Next(Next(Next(s, steps[0]), steps[1]), steps[2]), steps[3]), steps[4]), steps[5])
  {
    assert steps[..5][..4] == steps[..4] && steps[..4][..3] == steps[..3];
    assert steps[..3][..2] == steps[..2] && steps[..2][..1] == steps[..1] && steps[..1][..0] == [];
    assert Run(s, steps[..1]) == Next(s, steps[0]);
    assert Run(s, steps[..2]) == Next(Run(s, steps[..1]), steps[1]);
    assert Run(s, steps[..3]) == Next(Run(s, steps[..2]), steps[2]);
    assert Run(s, steps[..4]) == Next(Run(s, steps[..3]), steps[3]);
    assert Run(s, steps[..5]) == Next(Run(s, steps[..4]), steps[4]);
  }

  lemma {:induction false} NoBeats(steps: seq<Step>)
    requires Tickless(steps)
    ensures Beats(steps) == []
  {
    if |steps| > 0 {
      NoBeats(steps[..|steps| - 1]);
    }
  }

  /** Over every history some schedule has the lease primed. */
  lemma {:induction false} PrimedBy(mono: int, wall: int, ttl: nat, delay: nat, beats: seq<Beat>)
    returns (steps: seq<Step>)
    requires delay < ttl
    ensures Beats(steps) == beats
    ensures Primed(ReachOf(mono, wall, ttl, beats), ttl, Run(Created(mono, wall, ttl, delay), steps))
  {
    var start := Created(mono, wall, ttl, delay);
    if |beats| == 0 {
      OneMore(start, [], RenewStarts(0));
      var checked := [] + [RenewStarts(0)];
      OneMore(start, checked, RenewMoves(true));
      steps := checked + [RenewMoves(true)];
      NoBeats(steps);
    } else {
      var front, beat := beats[..|beats| - 1], beats[|beats| - 1];
      var before := PrimedBy(mono, wall, ttl, delay, front);
      steps := PrimedNext(start, before, ReachOf(mono, wall, ttl, front), ttl, beat);
      assert beats == front + [beat];
    }
  }

  lemma PrimedNext(start: State, before: seq<Step>, r: Reach, ttl: nat, beat: Beat) returns (steps: seq<Step>)
    requires Primed(r, ttl, Run(start, before)) && ttl > 0
    ensures Beats(steps) == Beats(before) + [beat]
    ensures Primed(Extend(r, ttl, beat), ttl, Run(start, steps))
  {
    var tick := Tick(beat.elapsed, beat.wall);
    OneMore(start, before, tick);
    BeatsGrow(before, tick);
    steps := before + [tick];
    if r.latest > beat.wall {
      var s := Run(start, steps);
      var id := s.terms.renewal.id + 1;
      RenewalsPrime(s, Extend(r, ttl, beat), ttl, id);
      RunJoins(start, steps, Renewals(id));
      BeatsJoin(steps, Renewals(id));
      steps := steps + Renewals(id);
    }
  }

  /** A primed lease is hurt by a harmful tick. */
  lemma HurtIsFelt(start: State, before: seq<Step>, r: Reach, ttl: nat, beat: Beat) returns (steps: seq<Step>)
    requires Primed(r, ttl, Run(start, before)) && Hurts(r, beat)
    ensures Beats(steps) == Beats(before) + [beat] && BroughtForward(start, steps)
  {
    var tick := Tick(beat.elapsed, beat.wall);
    OneMore(start, before, tick);
    BeatsGrow(before, tick);
    var ticked := before + [tick];
    OneMore(start, ticked, RenewMoves(true));
    BeatsGrow(ticked, RenewMoves(true));
    steps := ticked + [RenewMoves(true)];
    var k := |ticked|;
    assert steps[..k] == ticked && steps[..k + 1] == steps;
    assert Run(start, steps[..k + 1]).terms.expiresAt < Run(start, steps[..k]).terms.expiresAt;
  }

  lemma StaysForward(start: State, steps: seq<Step>, step: Step)
    requires BroughtForward(start, steps)
    ensures BroughtForward(start, steps + [step])
  {
    var k :| 0 <= k < |steps| && Run(start, steps[..k + 1]).terms.expiresAt < Run(start, steps[..k]).terms.expiresAt;
    var all := steps + [step];
    assert all[..k] == steps[..k] && all[..k + 1] == steps[..k + 1];
    assert Run(start, all[..k + 1]).terms.expiresAt < Run(start, all[..k]).terms.expiresAt;
  }

  lemma {:induction false} HarmIsFelt(mono: int, wall: int, ttl: nat, delay: nat, beats: seq<Beat>)
    returns (steps: seq<Step>)
    requires delay < ttl && Harmful(mono, wall, ttl, beats)
    ensures Beats(steps) == beats && BroughtForward(Created(mono, wall, ttl, delay), steps)
  {
    var front, beat := beats[..|beats| - 1], beats[|beats| - 1];
    var start := Created(mono, wall, ttl, delay);
    assert beats == front + [beat];
    if Harmful(mono, wall, ttl, front) {
      var before := HarmIsFelt(mono, wall, ttl, delay, front);
      BeatsGrow(before, Tick(beat.elapsed, beat.wall));
      StaysForward(start, before, Tick(beat.elapsed, beat.wall));
      steps := before + [Tick(beat.elapsed, beat.wall)];
    } else {
      var before := PrimedBy(mono, wall, ttl, delay, front);
      steps := HurtIsFelt(start, before, ReachOf(mono, wall, ttl, front), ttl, beat);
    }
  }

  /** For every lease whose row was not overdue from the start and every history of the
      clocks: some schedule with these ticks brings the deadline forward if and only if
      some tick lets the wall clock gain on the monotonic one within the time that the
      latest renewal possible by then leaves. */
  lemma BroughtForwardByTicksExactlyWhen(mono: int, wall: int, ttl: nat, delay: nat, beats: seq<Beat>)
    requires delay < ttl
    ensures (exists steps :: Beats(steps) == beats && BroughtForward(Created(mono, wall, ttl, delay), steps))
       <==> Harmful(mono, wall, ttl, beats)
  {
    var start := Created(mono, wall, ttl, delay);
    if Harmful(mono, wall, ttl, beats) {
      var steps := HarmIsFelt(mono, wall, ttl, delay, beats);
    } else {
      forall steps, k | Beats(steps) == beats && 0 <= k < |steps|
        ensures Run(start, steps[..k]).terms.expiresAt <= Run(start, steps[..k + 1]).terms.expiresAt
      {
        NothingForward(mono, wall, ttl, delay, steps, k);
      }
    }
  }

  /** Over a harmless history of any length no schedule lets the monitor oversleep. */
  lemma NoOversleepingOverHarmlessHistory(mono: int, wall: int, ttl: nat, delay: nat, steps: seq<Step>)
    requires delay < ttl && !Harmful(mono, wall, ttl, Beats(steps))
    ensures !Oversleeps(Run(Created(mono, wall, ttl, delay), steps))
  {
    var s := Run(Created(mono, wall, ttl, delay), steps);
    HarmlessHistory(mono, wall, ttl, delay, steps);
    if s.monitor.Sleeping? && Passed(s) {
      MonitorNeverOversleeps(Created(mono, wall, ttl, delay), steps);
      assert MonitorMove(s, Timer) != s;
    }
  }
}

/**
 * A session described by its history: which requests a client may make, told from the requests that succeeded before.
 */
module SessionHistory {
  import opened Basics
  import opened Session

  predicate Configured(o: Option<Oscillation>) {
    o.Some? ==> Valid(o.value)
  }

  lemma {:induction false} RunConcat(s: MassSession, o: Option<Oscillation>, a: seq<Request>, b: seq<Request>)
    requires Configured(o)
    ensures Run(s, o, a + b) == Run(Run(s, o, a), o, b)
    decreases |a|
  {
    hide Handle;
    if a == [] {
      assert a + b == b;
    } else {
      assert (a + b)[0] == a[0] && (a + b)[1..] == a[1..] + b;
      RunConcat(Handle(s, o, a[0]).0, o, a[1..], b);
    }
  }

  lemma RunSnoc(s: MassSession, o: Option<Oscillation>, run: seq<Request>)
    requires Configured(o) && run != []
    ensures Run(s, o, run) == Handle(Run(s, o, run[..|run| - 1]), o, run[|run| - 1]).0
  {
    hide Handle;
    var last := [run[|run| - 1]];
    assert run == run[..|run| - 1] + last && last[1..] == [];
    RunConcat(s, o, run[..|run| - 1], last);
    assert Run(Run(s, o, run[..|run| - 1]), o, last) == Handle(Run(s, o, run[..|run| - 1]), o, last[0]).0;
  }

  // ---------------------------------------------------------------------------
  // Acceptance
  // ---------------------------------------------------------------------------

  /** The perturbations and inferences that succeeded since the last successful optimization. */
  function SinceCycleBegan(s: MassSession, o: Option<Oscillation>, run: seq<Request>): seq<Request>
    requires Configured(o)
  {
    if run == [] then []
    else
      var front, last := run[..|run| - 1], run[|run| - 1];
      var history := SinceCycleBegan(s, o, front);
      if !Handle(Run(s, o, front), o, last).1 then history
      else match last
        case PerturbUp(_) => history + [last]
        case Infer(_) => history + [last]
        case PerturbDown(_) => history + [last]
        case Optimize(_, _) => []
        case _ => history
  }

  predicate Perturbed(history: seq<Request>) {
    exists i :: 0 <= i < |history| && history[i].PerturbUp?
  }

  predicate Reversed(history: seq<Request>) {
    exists i :: 0 <= i < |history| && history[i].PerturbDown?
  }

  predicate JustInferred(history: seq<Request>) {
    history != [] && history[|history| - 1].Infer?
  }

  /**
   * A perturbation starts a cycle; it is reversed after an inference and once; a cycle is optimized after an inference,
   * perturbed weights only once they are back; weights are captured between cycles.
   */
  predicate Admissible(history: seq<Request>, request: Request) {
    match request
    case PerturbUp(_) => history == []
    case Infer(_) => true
    case PerturbDown(_) => JustInferred(history) && Perturbed(history) && !Reversed(history)
    case Optimize(_, _) => JustInferred(history) && (Perturbed(history) ==> Reversed(history))
    case Fuse(_, _) => history == []
    case _ => true
  }

  /** Everything outside the session that a request needs goes well; a frozen session leaves its engine alone. */
  predicate GoesWell(request: Request, frozen: bool) {
    match request
    case PerturbUp(ok) => frozen || ok
    case PerturbDown(ok) => frozen || ok
    case Optimize(resetOk, ok) => resetOk && (frozen || ok)
    case Fuse(captured, ok) => captured && ok
    case _ => request.ok
  }

  predicate ShutDown(run: seq<Request>) {
    exists i :: 0 <= i < |run| && run[i].Shutdown?
  }

  /** The state is what the history says. */
  predicate Tracks(s: MassSession, history: seq<Request>) {
    && (Reversed(history) ==> Perturbed(history))
    && (s.state == Idle <==> history == [])
    && (s.state == AwaitingPerturbDown <==> JustInferred(history) && Perturbed(history) && !Reversed(history))
    && (s.state == AwaitingOptimize <==> JustInferred(history) && (Perturbed(history) ==> Reversed(history)))
    && (s.state == PostPerturbUp ==> Perturbed(history) && !Reversed(history))
    && (s.state == PostPerturbDown ==> Reversed(history))
  }

  lemma HistoryExtends(history: seq<Request>, request: Request)
    ensures Perturbed(history + [request]) <==> Perturbed(history) || request.PerturbUp?
    ensures Reversed(history + [request]) <==> Reversed(history) || request.PerturbDown?
    ensures JustInferred(history + [request]) <==> request.Infer?
  {
    var all := history + [request];
    assert all[|history|] == request;
    if Perturbed(history) {
      var i :| 0 <= i < |history| && history[i].PerturbUp?;
      assert all[i].PerturbUp?;
    }
    if Reversed(history) {
      var i :| 0 <= i < |history| && history[i].PerturbDown?;
      assert all[i].PerturbDown?;
    }
  }

  /** One request against a tracked state. */
  lemma StepTracks(s: MassSession, o: Option<Oscillation>, history: seq<Request>, request: Request)
    requires Configured(o) && Tracks(s, history)
    ensures Handle(s, o, request).1 <==> s.running && Admissible(history, request) && GoesWell(request, s.frozen)
    ensures Handle(s, o, request).0.running <==> s.running && !request.Shutdown?
    ensures var (s', ok) := Handle(s, o, request);
      Tracks(s',
        if !ok then history
        else if request.PerturbUp? || request.Infer? || request.PerturbDown? then history + [request]
        else if request.Optimize? then [] else history)
  {
    hide Perturbed, Reversed, JustInferred, FrozenAt;
    HistoryExtends(history, request);
    EmptyHistory();
  }

  lemma EmptyHistory()
    ensures !Perturbed([]) && !Reversed([]) && !JustInferred([])
  {
  }

  lemma {:induction false} RunTracks(s: MassSession, o: Option<Oscillation>, run: seq<Request>)
    requires Configured(o) && s.running && s.state == Idle
    ensures Tracks(Run(s, o, run), SinceCycleBegan(s, o, run))
    ensures Run(s, o, run).running <==> !ShutDown(run)
    decreases |run|
  {
    hide Handle, Tracks, ShutDown;
    if run == [] {
      assert Tracks(s, []) by { IdleTracks(s); }
      assert !ShutDown([]) by { NeverShutDown(); }
    } else {
      var front, last := run[..|run| - 1], run[|run| - 1];
      RunTracks(s, o, front);
      RunSnoc(s, o, run);
      StepTracks(Run(s, o, front), o, SinceCycleBegan(s, o, front), last);
      ShutDownLast(run);
    }
  }

  lemma IdleTracks(s: MassSession)
    requires s.state == Idle
    ensures Tracks(s, [])
  {
  }

  lemma NeverShutDown()
    ensures !ShutDown([])
  {
  }

  lemma ShutDownLast(run: seq<Request>)
    requires run != []
    ensures ShutDown(run) <==> ShutDown(run[..|run| - 1]) || run[|run| - 1].Shutdown?
  {
    var front := run[..|run| - 1];
    if ShutDown(front) {
      var i :| 0 <= i < |front| && front[i].Shutdown?;
      assert run[i].Shutdown?;
    }
    if ShutDown(run) && !run[|run| - 1].Shutdown? {
      var i :| 0 <= i < |run| && run[i].Shutdown?;
      assert front[i].Shutdown?;
    }
  }

  /**
   * Over every run of a started session: a request succeeds if and only if the session has not been shut down, what
   * succeeded since the cycle began admits it, and everything outside the session goes well.
   */
  lemma AcceptedExactly(frozen: bool, o: Option<Oscillation>, run: seq<Request>, request: Request)
    requires Configured(o)
    ensures var s := Run(Started(frozen, o), o, run);
      Handle(s, o, request).1 <==>
        && !ShutDown(run)
        && Admissible(SinceCycleBegan(Started(frozen, o), o, run), request)
        && GoesWell(request, s.frozen)
  {
    hide Handle, Admissible, GoesWell;
    RunTracks(Started(frozen, o), o, run);
    StepTracks(Run(Started(frozen, o), o, run), o, SinceCycleBegan(Started(frozen, o), o, run), request);
  }

  // ---------------------------------------------------------------------------
  // Whole cycles
  // ---------------------------------------------------------------------------

  /** Every request of the run succeeds. */
  predicate AllSucceed(s: MassSession, o: Option<Oscillation>, run: seq<Request>)
    requires Configured(o)
    decreases |run|
  {
    run != [] ==> Handle(s, o, run[0]).1 && AllSucceed(Handle(s, o, run[0]).0, o, run[1..])
  }

  lemma {:induction false} SucceedConcat(s: MassSession, o: Option<Oscillation>, a: seq<Request>, b: seq<Request>)
    requires Configured(o) && AllSucceed(s, o, a) && AllSucceed(Run(s, o, a), o, b)
    ensures AllSucceed(s, o, a + b)
    decreases |a|
  {
    hide Handle;
    if a == [] {
      assert a + b == b;
    } else {
      assert (a + b)[0] == a[0] && (a + b)[1..] == a[1..] + b;
      SucceedConcat(Handle(s, o, a[0]).0, o, a[1..], b);
    }
  }

  function Inferences(n: nat): seq<Request> {
    if n == 0 then [] else [Infer(true)] + Inferences(n - 1)
  }

  /** Inferences alone never fail, and only the first of them moves the session. */
  lemma {:induction false} InferencesSucceed(s: MassSession, o: Option<Oscillation>, n: nat)
    requires Configured(o) && s.running
    ensures AllSucceed(s, o, Inferences(n))
    ensures n > 0 ==> Run(s, o, Inferences(n)) == Handle(s, o, Infer(true)).0
    decreases n
  {
    if n > 0 {
      var next := Handle(s, o, Infer(true)).0;
      InferencesSucceed(next, o, n - 1);
      assert Inferences(n)[1..] == Inferences(n - 1);
      assert Handle(next, o, Infer(true)).0 == next;
    }
  }

  function PerturbationCycle(ups: nat, downs: nat): seq<Request> {
    [PerturbUp(true)] + Inferences(ups) + ([PerturbDown(true)] + Inferences(downs)) + [Optimize(true, true)]
  }

  lemma OneSucceeds(s: MassSession, o: Option<Oscillation>, request: Request)
    requires Configured(o) && Handle(s, o, request).1
    ensures AllSucceed(s, o, [request]) && Run(s, o, [request]) == Handle(s, o, request).0
  {
    var run := [request];
    assert run[1..] == [];
  }

  /** A perturbation of either kind and the inferences under it. */
  lemma PerturbAndInfer(s: MassSession, o: Option<Oscillation>, perturb: Request, n: nat)
    requires Configured(o) && s.running && n > 0
    requires if s.state == Idle then perturb == PerturbUp(true)
      else s.state == AwaitingPerturbDown && perturb == PerturbDown(true)
    ensures AllSucceed(s, o, [perturb] + Inferences(n))
    ensures var call := if perturb.PerturbUp? then Up else Down;
      Run(s, o, [perturb] + Inferences(n)) == s.(
        state := if perturb.PerturbUp? then AwaitingPerturbDown else AwaitingOptimize,
        calls := if s.frozen then s.calls else s.calls + [call])
  {
    OneSucceeds(s, o, perturb);
    InferencesSucceed(Run(s, o, [perturb]), o, n);
    SucceedConcat(s, o, [perturb], Inferences(n));
    RunConcat(s, o, [perturb], Inferences(n));
  }

  /**
   * From every idle session that runs, a whole perturbation cycle succeeds at every request, with any number of
   * inferences from one on at each place. It ends idle, one optimization on, having called exactly up, down and update;
   * a frozen session calls nothing.
   */
  lemma PerturbationCycleCompletes(s: MassSession, o: Option<Oscillation>, ups: nat, downs: nat)
    requires Configured(o) && s.running && s.state == Idle && ups > 0 && downs > 0
    ensures AllSucceed(s, o, PerturbationCycle(ups, downs))
    ensures var last := Run(s, o, PerturbationCycle(ups, downs));
      && last.running && last.state == Idle
      && last.calls == s.calls + (if s.frozen then [] else [Up, Down, Update])
      && (o.Some? ==> last.optimizeSteps == SaturatingInc32(s.optimizeSteps))
  {
    hide Handle, AllSucceed, Run;
    var up, down := [PerturbUp(true)] + Inferences(ups), [PerturbDown(true)] + Inferences(downs);
    var optimize := [Optimize(true, true)];
    PerturbAndInfer(s, o, PerturbUp(true), ups);
    var s1 := Run(s, o, up);
    PerturbAndInfer(s1, o, PerturbDown(true), downs);
    var s2 := Run(s1, o, down);
    SucceedConcat(s, o, up, down);
    RunConcat(s, o, up, down);
    OptimizeSucceeds(s2, o);
    SucceedConcat(s, o, up + down, optimize);
    RunConcat(s, o, up + down, optimize);
    assert PerturbationCycle(ups, downs) == up + down + optimize;
    assert s.calls + [Up] + [Down] + [Update] == s.calls + [Up, Down, Update];
  }

  lemma OptimizeSucceeds(s: MassSession, o: Option<Oscillation>)
    requires Configured(o) && s.running && s.state == AwaitingOptimize
    ensures var optimize := [Optimize(true, true)];
      var last := Run(s, o, optimize);
      && AllSucceed(s, o, optimize)
      && last.running && last.state == Idle
      && last.calls == (if s.frozen then s.calls else s.calls + [Update])
      && (o.Some? ==> last.optimizeSteps == SaturatingInc32(s.optimizeSteps))
  {
    OneSucceeds(s, o, Optimize(true, true));
  }

  /** Without a perturbation inferences and an optimization are a cycle too. */
  lemma PlainCycleCompletes(s: MassSession, o: Option<Oscillation>, n: nat)
    requires Configured(o) && s.running && s.state == Idle && n > 0
    ensures var run := Inferences(n) + [Optimize(true, true)];
      var last := Run(s, o, run);
      && AllSucceed(s, o, run) && last.running && last.state == Idle
      && last.calls == s.calls + if s.frozen then [] else [Update]
  {
    var optimize := [Optimize(true, true)];
    InferencesSucceed(s, o, n);
    var s1 := Run(s, o, Inferences(n));
    OptimizeSucceeds(s1, o);
    SucceedConcat(s, o, Inferences(n), optimize);
    RunConcat(s, o, Inferences(n), optimize);
  }

  // ---------------------------------------------------------------------------
  // The schedule
  // ---------------------------------------------------------------------------

  /**
   * The schedule itself, while the `u32` addition does not wrap: nothing up to the end of warmup; then, without a phase,
   * a window of `train` unfrozen steps and frozen ones up to the end of the period.
   */
  lemma ScheduleOfFirstPeriod(o: Oscillation, step: U32)
    requires Valid(o) && o.phase == 0 && step <= o.warmup + o.period
    ensures FrozenAt(step, o) ==
      if step <= o.warmup then None else if step <= o.warmup + o.train then Some(false) else Some(true)
  {
    if step > o.warmup {
      var k := step - o.warmup - 1;
      ModUnique(k, o.period, 0, k);
      assert k % U32_LIMIT == k;
    }
  }

  /** The schedule repeats after every period. */
  lemma ScheduleRepeats(o: Oscillation, step: U32)
    requires Valid(o) && InRange(o, step, o.period + 1)
    ensures FrozenAt(step + o.period, o) == FrozenAt(step, o)
  {
    var x := step - o.warmup - 1 + o.phase % o.period;
    assert x % U32_LIMIT == x && (x + o.period) % U32_LIMIT == x + o.period;
    ModShift(x, o.period);
  }

  /** A phase is the same schedule started that many steps earlier. */
  lemma PhaseIsHeadStart(o: Oscillation, step: U32)
    requires Valid(o) && o.phase < o.period && InRange(o, step, o.phase + 1)
    ensures FrozenAt(step, o) == FrozenAt(step + o.phase, o.(phase := 0))
  {
    ModUnique(o.phase, o.period, 0, o.phase);
    ModUnique(0, o.period, 0, 0);
    var x := step - o.warmup - 1 + o.phase;
    assert x % U32_LIMIT == x;
  }

  /** A phase of a period or more counts only by what it leaves of the last period. */
  lemma PhaseWrapsAround(o: Oscillation, step: U32)
    requires Valid(o)
    ensures FrozenAt(step, o) == FrozenAt(step, o.(phase := o.phase % o.period))
  {
    ModUnique(o.phase % o.period, o.period, 0, o.phase % o.period);
  }

  /** The flag at a step whose place before wrapping is `x`. */
  lemma FlagAt(o: Oscillation, step: U32, x: nat)
    requires Valid(o) && step > o.warmup && x == step - o.warmup - 1 + o.phase % o.period
    ensures FrozenAt(step, o) == Some(!((x % U32_LIMIT) % o.period < o.train))
  {
  }

  lemma BelowPeriod(o: Oscillation)
    requires Valid(o)
    ensures o.phase % o.period < o.period && 0 % o.period == 0
  {
  }

  /** Where the `u32` addition wraps, the schedule starts over as after warmup, whatever its phase. */
  lemma ScheduleWraps(o: Oscillation, step: U32)
    requires Valid(o) && step > o.warmup && step - o.warmup - 1 + o.phase % o.period >= U32_LIMIT
    ensures var again := step - o.warmup - 1 + o.phase % o.period - U32_LIMIT;
      again + o.warmup + 1 < U32_LIMIT && FrozenAt(step, o) == FrozenAt(again + o.warmup + 1, o.(phase := 0))
  {
    hide FrozenAt;
    BelowPeriod(o);
    var x := step - o.warmup - 1 + o.phase % o.period;
    FlagAt(o, step, x);
    ModUnique(x, U32_LIMIT, 1, x - U32_LIMIT);
    BelowPeriod(o.(phase := 0));
    FlagAt(o.(phase := 0), x - U32_LIMIT + o.warmup + 1, x - U32_LIMIT);
    ModUnique(x - U32_LIMIT, U32_LIMIT, 0, x - U32_LIMIT);
  }
}

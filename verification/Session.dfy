/**
 * The per-instance QuZO session: perturb up, infer, perturb down, infer, optimize, with an oscillation
 * schedule that freezes and unfreezes the instance between optimizations.
 */
module Session {
  import opened Basics

  datatype MassState = Idle | PostPerturbUp | AwaitingPerturbDown | PostPerturbDown | AwaitingOptimize

  /** Engine calls that succeeded; `Capture` is the weight snapshot a fusion takes. */
  datatype EngineCall = Up | Down | Update | Capture

  datatype Oscillation = Oscillation(period: U32, train: U32, phase: U32, warmup: U32)

  datatype MassSession = MassSession(
    state: MassState,
    running: bool,
    frozen: bool,
    optimizeSteps: U32,
    calls: seq<EngineCall>)

  /**
   * `ok` is whether the engine (or, for inference, the whole inference) succeeds. A fusion has captured the weights
   * before the rest of it, off the session, succeeds or fails.
   */
  datatype Request =
    | PerturbUp(ok: bool)
    | Infer(ok: bool)
    | PerturbDown(ok: bool)
    | Fuse(captured: bool, ok: bool)
    | Optimize(resetOk: bool, ok: bool)
    | Reset(ok: bool)
    | Checkpoint(ok: bool)
    | Shutdown(ok: bool)

  // ---------------------------------------------------------------------------
  // Oscillation
  // ---------------------------------------------------------------------------

  /** `resolve_model_oscillation` accepts only these. */
  predicate Valid(o: Oscillation) {
    0 < o.period && o.train <= o.period
  }

  /** The step's place in the schedule; the `u32` addition is taken modulo 2^32. */
  function CyclePosition(step: U32, o: Oscillation): nat
    requires Valid(o) && step > o.warmup
  {
    ((step - o.warmup - 1 + o.phase % o.period) % U32_LIMIT) % o.period
  }

  /** `frozen_state_for_optimize_step`. */
  function FrozenAt(step: U32, o: Oscillation): Option<bool>
    requires Valid(o)
  {
    if step <= o.warmup then None else Some(!(CyclePosition(step, o) < o.train))
  }

  // ---------------------------------------------------------------------------
  // Handlers
  // ---------------------------------------------------------------------------

  /** A started session, after `apply_initial_frozen_oscillation`. */
  function Started(frozen: bool, o: Option<Oscillation>): MassSession
    requires o.Some? ==> Valid(o.value)
  {
    var initial := if o.Some? && FrozenAt(1, o.value).Some? then FrozenAt(1, o.value).value else frozen;
    MassSession(Idle, true, initial, 0, [])
  }

  /** `apply_frozen_oscillation`, at the end of a successful optimization. */
  function Oscillate(s: MassSession, o: Option<Oscillation>): MassSession
    requires o.Some? ==> Valid(o.value)
  {
    if o.None? then s
    else
      var steps := SaturatingInc32(s.optimizeSteps);
      var frozen := FrozenAt(steps, o.value);
      s.(optimizeSteps := steps, frozen := if frozen.Some? then frozen.value else s.frozen)
  }

  /** The engine is skipped while frozen; a failing call leaves the session as it was. */
  function CallUnlessFrozen(s: MassSession, call: EngineCall, ok: bool, next: MassState): Option<MassSession> {
    if s.frozen then Some(s.(state := next))
    else if ok then Some(s.(state := next, calls := s.calls + [call]))
    else None
  }

  /** The session after a request, and whether the request succeeded. */
  function Handle(s: MassSession, o: Option<Oscillation>, request: Request): (MassSession, bool)
    requires o.Some? ==> Valid(o.value)
  {
    if !s.running then (s, false)
    else match request
      case PerturbUp(ok) =>
        if s.state != Idle then (s, false)
        else
          var next := CallUnlessFrozen(s, Up, ok, PostPerturbUp);
          if next.None? then (s, false) else (next.value, true)
      case Infer(ok) =>
        if !ok then (s, false)
        else if s.state == PostPerturbUp || s.state == AwaitingPerturbDown then (s.(state := AwaitingPerturbDown), true)
        else (s.(state := AwaitingOptimize), true)
      case PerturbDown(ok) =>
        if s.state != AwaitingPerturbDown then (s, false)
        else
          var next := CallUnlessFrozen(s, Down, ok, PostPerturbDown);
          if next.None? then (s, false) else (next.value, true)
      case Fuse(captured, ok) =>
        if s.state != Idle || !captured then (s, false) else (s.(calls := s.calls + [Capture]), ok)
      case Optimize(resetOk, ok) =>
        if s.state != AwaitingOptimize || !resetOk then (s, false)
        else
          var next := CallUnlessFrozen(s, Update, ok, Idle);
          if next.None? then (s, false) else (Oscillate(next.value, o), true)
      case Reset(ok) => (s, ok)
      case Checkpoint(ok) => (s, ok)
      case Shutdown(ok) => (s.(running := false), ok)
  }

  function Run(s: MassSession, o: Option<Oscillation>, run: seq<Request>): MassSession
    requires o.Some? ==> Valid(o.value)
    decreases |run|
  {
    if run == [] then s else Run(Handle(s, o, run[0]).0, o, run[1..])
  }

  /** The session as the source keeps it behind its lock. */
  class Instance {
    const oscillation: Option<Oscillation>
    var state: MassState
    var running: bool
    var frozen: bool
    var optimizeSteps: U32
    var calls: seq<EngineCall>

    predicate WellConfigured() {
      oscillation.Some? ==> Valid(oscillation.value)
    }

    function View(): MassSession
      reads this
    {
      MassSession(state, running, frozen, optimizeSteps, calls)
    }

    constructor (serverFrozen: bool, o: Option<Oscillation>)
      requires o.Some? ==> Valid(o.value)
      ensures oscillation == o && WellConfigured() && View() == Started(serverFrozen, o)
    {
      oscillation := o;
      state, running, frozen, optimizeSteps, calls := Idle, true, serverFrozen, 0, [];
      new;
      if o.Some? {
        var initial := FrozenAt(1, o.value);
        if initial.Some? { frozen := initial.value; }
      }
    }

    method HandlePerturbUp(ok: bool) returns (done: bool)
      requires WellConfigured()
      modifies this
      ensures (View(), done) == Handle(old(View()), oscillation, PerturbUp(ok))
      ensures frozen == old(frozen) && optimizeSteps == old(optimizeSteps) && (!done ==> View() == old(View()))
      ensures old(frozen) ==> calls == old(calls)
    {
      if !running || state != Idle { return false; }
      if !frozen {
        if !ok { return false; }
        calls := calls + [Up];
      }
      state := PostPerturbUp;
      return true;
    }

    method HandleInfer(ok: bool) returns (done: bool)
      requires WellConfigured()
      modifies this
      ensures (View(), done) == Handle(old(View()), oscillation, Infer(ok))
      ensures frozen == old(frozen) && optimizeSteps == old(optimizeSteps) && (!done ==> View() == old(View()))
      ensures calls == old(calls)
    {
      if !running || !ok { return false; }
      match state {
        case PostPerturbUp | AwaitingPerturbDown => state := AwaitingPerturbDown;
        case Idle | PostPerturbDown | AwaitingOptimize => state := AwaitingOptimize;
      }
      return true;
    }

    method HandlePerturbDown(ok: bool) returns (done: bool)
      requires WellConfigured()
      modifies this
      ensures (View(), done) == Handle(old(View()), oscillation, PerturbDown(ok))
      ensures frozen == old(frozen) && optimizeSteps == old(optimizeSteps) && (!done ==> View() == old(View()))
      ensures old(frozen) ==> calls == old(calls)
    {
      if !running || state != AwaitingPerturbDown { return false; }
      if !frozen {
        if !ok { return false; }
        calls := calls + [Down];
      }
      state := PostPerturbDown;
      return true;
    }

    method HandleFuse(captured: bool, ok: bool) returns (done: bool)
      requires WellConfigured()
      modifies this`calls
      ensures (View(), done) == Handle(old(View()), oscillation, Fuse(captured, ok))
      ensures !done ==> calls == old(calls) || calls == old(calls) + [Capture]
    {
      if !running || state != Idle || !captured { return false; }
      calls := calls + [Capture];
      return ok;
    }

    /** The session ends whether or not the engine can be unloaded. */
    method HandleShutdown(ok: bool) returns (done: bool)
      requires WellConfigured()
      modifies this`running
      ensures (View(), done) == Handle(old(View()), oscillation, Shutdown(ok))
      ensures !running
    {
      if !running { return false; }
      running := false;
      return ok;
    }

    method HandleOptimize(resetOk: bool, ok: bool) returns (done: bool)
      requires WellConfigured()
      modifies this
      ensures (View(), done) == Handle(old(View()), oscillation, Optimize(resetOk, ok))
      ensures !done ==> View() == old(View())
      ensures done ==> state == Idle && Updates(calls) == Updates(old(calls)) + (if old(frozen) then 0 else 1)
      ensures done && oscillation.Some? ==> Scheduled(View(), oscillation.value)
    {
      UpdatesAppend(calls, Update);
      if !running || state != AwaitingOptimize || !resetOk { return false; }
      if !frozen {
        if !ok { return false; }
        calls := calls + [Update];
      }
      state := Idle;
      if oscillation.Some? {
        optimizeSteps := SaturatingInc32(optimizeSteps);
        var next := FrozenAt(optimizeSteps, oscillation.value);
        if next.Some? { frozen := next.value; }
      }
      return true;
    }
  }

  // ---------------------------------------------------------------------------
  // The engine-call grammar
  // ---------------------------------------------------------------------------

  /** The training calls of a trace, without weight captures. */
  function Training(calls: seq<EngineCall>): seq<EngineCall> {
    if calls == [] then []
    else
      var rest, last := Training(calls[..|calls| - 1]), calls[|calls| - 1];
      if last == Capture then rest else rest + [last]
  }

  /** Words of ((up down)? update)*. */
  predicate Complete(w: seq<EngineCall>)
    decreases |w|
  {
    || w == []
    || (w[0] == Update && Complete(w[1..]))
    || (|w| >= 3 && w[..3] == [Up, Down, Update] && Complete(w[3..]))
  }

  /** Prefixes of ((up down)? update)*. */
  ghost predicate CompletePrefix(w: seq<EngineCall>) {
    exists rest :: Complete(w + rest)
  }

  lemma {:induction false} CompleteConcat(a: seq<EngineCall>, b: seq<EngineCall>)
    requires Complete(a) && Complete(b)
    ensures Complete(a + b)
    decreases |a|
  {
    if a == [] {
      assert a + b == b;
    } else if a[0] == Update && Complete(a[1..]) {
      CompleteConcat(a[1..], b);
      assert (a + b)[1..] == a[1..] + b;
    } else {
      CompleteConcat(a[3..], b);
      assert (a + b)[3..] == a[3..] + b && (a + b)[..3] == a[..3];
    }
  }

  /** The calls of the cycle in progress. */
  predicate Pending(state: MassState, frozen: bool, w: seq<EngineCall>) {
    if frozen then w == []
    else match state
      case Idle => w == []
      case PostPerturbUp | AwaitingPerturbDown => w == [Up]
      case PostPerturbDown => w == [Up, Down]
      case AwaitingOptimize => w == [] || w == [Up, Down]
  }

  /** Completed cycles, then the cycle in progress; weights were captured between cycles only. */
  ghost predicate Lawful(s: MassSession, finished: seq<EngineCall>, pending: seq<EngineCall>) {
    && Training(s.calls) == finished + pending
    && Complete(finished)
    && Pending(s.state, s.frozen, pending)
    && forall k :: 0 <= k < |s.calls| && s.calls[k] == Capture ==> Complete(Training(s.calls[..k]))
  }

  lemma TrainingAppend(calls: seq<EngineCall>, call: EngineCall)
    ensures Training(calls + [call]) == if call == Capture then Training(calls) else Training(calls) + [call]
  {
    assert (calls + [call])[..|calls|] == calls;
  }

  /** Captures stay lawful when a call is appended. */
  lemma CapturesKept(calls: seq<EngineCall>, call: EngineCall)
    requires forall k :: 0 <= k < |calls| && calls[k] == Capture ==> Complete(Training(calls[..k]))
    requires call == Capture ==> Complete(Training(calls))
    ensures var all := calls + [call];
      forall k :: 0 <= k < |all| && all[k] == Capture ==> Complete(Training(all[..k]))
  {
    var all := calls + [call];
    forall k | 0 <= k < |all| && all[k] == Capture ensures Complete(Training(all[..k])) {
      assert all[..k] == calls[..k];
      assert calls[..|calls|] == calls;
    }
  }

  lemma StepLawful(s: MassSession, o: Option<Oscillation>, request: Request, finished: seq<EngineCall>, pending: seq<EngineCall>)
    returns (finished': seq<EngineCall>, pending': seq<EngineCall>)
    requires o.Some? ==> Valid(o.value)
    requires Lawful(s, finished, pending)
    ensures Lawful(Handle(s, o, request).0, finished', pending')
  {
    hide Training, FrozenAt, Complete;
    var s' := Handle(s, o, request).0;
    finished', pending' := finished, pending;
    if |s'.calls| > |s.calls| {
      var call := s'.calls[|s.calls|];
      assert s'.calls == s.calls + [call];
      TrainingAppend(s.calls, call);
      if call == Capture { assert finished + [] == finished; }
      CapturesKept(s.calls, call);
      match call
      case Capture =>
      case Up => pending' := [Up]; assert finished + [] + [Up] == finished + [Up];
      case Down => pending' := [Up, Down]; assert finished + [Up] + [Down] == finished + [Up, Down];
      case Update =>
        CycleComplete(pending);
        CompleteConcat(finished, pending + [Update]);
        finished', pending' := finished + (pending + [Update]), [];
    }
  }

  lemma CycleComplete(pending: seq<EngineCall>)
    requires pending == [] || pending == [Up, Down]
    ensures Complete(pending + [Update])
  {
    assert Complete([]);
    var w := pending + [Update];
    if pending == [] {
      assert w[1..] == [];
    } else {
      assert w == [Up, Down, Update] && w[3..] == [];
    }
  }

  lemma {:induction false} RunLawful(
    s: MassSession, o: Option<Oscillation>, run: seq<Request>, finished: seq<EngineCall>, pending: seq<EngineCall>)
    returns (finished': seq<EngineCall>, pending': seq<EngineCall>)
    requires o.Some? ==> Valid(o.value)
    requires Lawful(s, finished, pending)
    ensures Lawful(Run(s, o, run), finished', pending')
    decreases |run|
  {
    if run == [] {
      return finished, pending;
    } else {
      var f, p := StepLawful(s, o, run[0], finished, pending);
      finished', pending' := RunLawful(Handle(s, o, run[0]).0, o, run[1..], f, p);
    }
  }

  /**
   * On every run from a started session, with any pattern of engine failures and frozen cycles, the successful
   * training calls are a prefix of ((up down)? update)*, and every weight capture follows a whole number of cycles.
   */
  lemma EngineCallsFollowGrammar(frozen: bool, o: Option<Oscillation>, run: seq<Request>)
    requires o.Some? ==> Valid(o.value)
    ensures var calls := Run(Started(frozen, o), o, run).calls;
      && CompletePrefix(Training(calls))
      && (forall k :: 0 <= k < |calls| && calls[k] == Capture ==> Complete(Training(calls[..k])))
  {
    var f, p := RunLawful(Started(frozen, o), o, run, [], []);
    var s := Run(Started(frozen, o), o, run);
    var rest := if p == [] then [] else if p == [Up] then [Down, Update] else [Update];
    CycleComplete([]);
    CycleComplete([Up, Down]);
    assert p != [] ==> p + rest == [Up, Down] + [Update];
    assert p == [] ==> p + rest == [];
    CompleteConcat(f, p + rest);
    assert Training(s.calls) + rest == f + (p + rest);
    assert Complete(Training(s.calls) + rest);
  }

  /** The frozen flag only changes where a successful optimization ends a cycle. */
  lemma FlagChangesAtCycleEnd(s: MassSession, o: Option<Oscillation>, request: Request)
    requires o.Some? ==> Valid(o.value)
    requires Handle(s, o, request).0.frozen != s.frozen
    ensures request.Optimize? && Handle(s, o, request).1
    ensures s.state == AwaitingOptimize && Handle(s, o, request).0.state == Idle
  {
  }

  /** So within a cycle, however many requests succeed or fail, the flag is constant. */
  lemma {:induction false} FrozenConstantWithinCycle(s: MassSession, o: Option<Oscillation>, run: seq<Request>)
    requires o.Some? ==> Valid(o.value)
    requires Optimizes(s, o, run) == 0
    ensures Run(s, o, run).frozen == s.frozen
    decreases |run|
  {
    hide Handle;
    if run != [] {
      var next := Handle(s, o, run[0]).0;
      if next.frozen != s.frozen { FlagChangesAtCycleEnd(s, o, run[0]); }
      FrozenConstantWithinCycle(next, o, run[1..]);
    }
  }

  // ---------------------------------------------------------------------------
  // Training windows
  // ---------------------------------------------------------------------------

  lemma MulGe(k: nat, p: nat)
    requires k >= 1
    ensures k * p >= p
  {
    assert k * p == (k - 1) * p + p;
  }

  lemma ModUnique(x: nat, p: nat, q: nat, r: nat)
    requires r < p && x == q * p + r
    ensures x % p == r
  {
    var q', r' := x / p, x % p;
    assert x == p * q' + r' && p * q' == q' * p;
    if q > q' {
      assert (q - q') * p == q * p - q' * p;
      MulGe(q - q', p);
    } else if q < q' {
      assert (q' - q) * p == q' * p - q * p;
      MulGe(q' - q, p);
    }
  }

  lemma ModShift(x: nat, p: nat)
    requires p > 0
    ensures (x + p) % p == x % p
  {
    var q, r := x / p, x % p;
    assert x == p * q + r && (q + 1) * p == p * q + p;
    ModUnique(x + p, p, q + 1, r);
  }

  /** How many of `x .. x + n` fall into the first `t` places of a cycle of length `p`. */
  function Hits(x: nat, n: nat, p: nat, t: nat): nat
    requires p > 0
  {
    if n == 0 then 0 else Hits(x, n - 1, p, t) + (if (x + n - 1) % p < t then 1 else 0)
  }

  lemma {:induction false} HitsShift(x: nat, n: nat, p: nat, t: nat)
    requires p > 0
    ensures Hits(x, n + 1, p, t) == (if x % p < t then 1 else 0) + Hits(x + 1, n, p, t)
  {
    if n > 0 { HitsShift(x, n - 1, p, t); }
  }

  lemma {:induction false} HitsFromZero(n: nat, p: nat, t: nat)
    requires 0 < p && n <= p
    ensures Hits(0, n, p, t) == if n <= t then n else t
  {
    if n > 0 {
      HitsFromZero(n - 1, p, t);
      ModUnique(n - 1, p, 0, n - 1);
    }
  }

  /** A window of one whole period hits every place once, wherever it starts. */
  lemma {:induction false} HitsWholePeriod(x: nat, p: nat, t: nat)
    requires 0 < p && t <= p
    ensures Hits(x, p, p, t) == t
  {
    if x == 0 {
      HitsFromZero(p, p, t);
    } else {
      HitsWholePeriod(x - 1, p, t);
      HitsShift(x - 1, p - 1, p, t);
      ModShift(x - 1, p);
    }
  }

  /** Unfrozen steps among the `n` steps from `step`, per the schedule. */
  function TrainCount(o: Oscillation, step: nat, n: nat): nat
    requires Valid(o) && step > o.warmup && step + n <= U32_LIMIT
  {
    if n == 0 then 0
    else TrainCount(o, step, n - 1) + (if FrozenAt(step + n - 1, o) == Some(false) then 1 else 0)
  }

  /** The steps stay where the schedule's `u32` addition does not wrap. */
  predicate InRange(o: Oscillation, step: nat, n: nat)
    requires Valid(o)
  {
    o.warmup < step && step + n <= U32_LIMIT && step + n - o.warmup - 1 + o.phase % o.period <= U32_LIMIT
  }

  lemma {:induction false} CountIsHits(o: Oscillation, step: nat, n: nat)
    requires Valid(o) && InRange(o, step, n)
    ensures TrainCount(o, step, n) == Hits(step - o.warmup - 1 + o.phase % o.period, n, o.period, o.train)
  {
    if n > 0 {
      hide FrozenAt, InRange;
      InRangeLess(o, step, n);
      CountIsHits(o, step, n - 1);
      TrainsAtHit(o, step, n);
    }
  }

  lemma InRangeLess(o: Oscillation, step: nat, n: nat)
    requires Valid(o) && InRange(o, step, n) && n > 0
    ensures InRange(o, step, n - 1) && step > o.warmup && step + n <= U32_LIMIT
  {
  }

  lemma TrainsAtHit(o: Oscillation, step: nat, n: nat)
    requires Valid(o) && InRange(o, step, n) && n > 0
    ensures FrozenAt(step + n - 1, o) == Some(false)
      <==> (step - o.warmup - 1 + o.phase % o.period + n - 1) % o.period < o.train
  {
    var sum := step + n - 1 - o.warmup - 1 + o.phase % o.period;
    assert sum % U32_LIMIT == sum;
  }

  /** Any `period` consecutive post-warmup steps contain exactly `train` unfrozen ones. */
  lemma WindowTrainsExactly(o: Oscillation, step: nat)
    requires Valid(o) && InRange(o, step, o.period)
    ensures TrainCount(o, step, o.period) == o.train
  {
    CountIsHits(o, step, o.period);
    HitsWholePeriod(step - o.warmup - 1 + o.phase % o.period, o.period, o.train);
  }

  /** Successful optimizations in a run. */
  function Optimizes(s: MassSession, o: Option<Oscillation>, run: seq<Request>): nat
    requires o.Some? ==> Valid(o.value)
    decreases |run|
  {
    if run == [] then 0
    else
      var (next, ok) := Handle(s, o, run[0]);
      (if run[0].Optimize? && ok then 1 else 0) + Optimizes(next, o, run[1..])
  }

  function Updates(calls: seq<EngineCall>): nat {
    if calls == [] then 0 else Updates(calls[..|calls| - 1]) + (if calls[|calls| - 1] == Update then 1 else 0)
  }

  lemma {:induction false} CountShift(o: Oscillation, step: nat, n: nat)
    requires Valid(o) && step > o.warmup && step + n + 1 <= U32_LIMIT
    ensures TrainCount(o, step, n + 1) == (if FrozenAt(step, o) == Some(false) then 1 else 0) + TrainCount(o, step + 1, n)
  {
    if n > 0 { CountShift(o, step, n - 1); }
  }

  lemma UpdatesAppend(calls: seq<EngineCall>, call: EngineCall)
    ensures Updates(calls + [call]) == Updates(calls) + (if call == Update then 1 else 0)
  {
    assert (calls + [call])[..|calls|] == calls;
  }

  /** One request, by its effect on the step counter and the number of engine updates. */
  lemma StepUpdates(s: MassSession, o: Oscillation, request: Request)
    requires Valid(o)
    ensures var (s', ok) := Handle(s, Some(o), request);
      if request.Optimize? && ok then
        && Updates(s'.calls) == Updates(s.calls) + (if s.frozen then 0 else 1)
        && s' == Oscillate(s.(state := Idle, calls := s'.calls), Some(o))
      else
        Updates(s'.calls) == Updates(s.calls) && s'.optimizeSteps == s.optimizeSteps && s'.frozen == s.frozen
  {
    hide Updates, FrozenAt;
    var s' := Handle(s, Some(o), request).0;
    if |s'.calls| > |s.calls| {
      assert s'.calls == s.calls + [s'.calls[|s.calls|]];
      UpdatesAppend(s.calls, s'.calls[|s.calls|]);
    }
  }

  /** Past warmup the flag follows the schedule, so the engine updates of a run are the schedule's training steps. */
  lemma {:induction false} RunUpdates(s: MassSession, o: Oscillation, run: seq<Request>)
    requires Valid(o) && s.optimizeSteps > o.warmup && FrozenAt(s.optimizeSteps, o) == Some(s.frozen)
    requires s.optimizeSteps + Optimizes(s, Some(o), run) < U32_LIMIT
    ensures Updates(Run(s, Some(o), run).calls)
      == Updates(s.calls) + TrainCount(o, s.optimizeSteps, Optimizes(s, Some(o), run))
    decreases |run|
  {
    hide Handle, FrozenAt, Updates;
    if run != [] {
      var (next, ok) := Handle(s, Some(o), run[0]);
      StepUpdates(s, o, run[0]);
      if run[0].Optimize? && ok {
        assert next.optimizeSteps == s.optimizeSteps + 1;
        PastWarmup(o, next.optimizeSteps);
        RunUpdates(next, o, run[1..]);
        CountShift(o, s.optimizeSteps, Optimizes(next, Some(o), run[1..]));
      } else {
        RunUpdates(next, o, run[1..]);
      }
    }
  }

  lemma PastWarmup(o: Oscillation, step: U32)
    requires Valid(o) && step > o.warmup
    ensures FrozenAt(step, o).Some?
  {
  }

  /** A run of exactly `period` successful optimizations past warmup calls the engine update `train` times. */
  lemma WindowOfOptimizes(s: MassSession, o: Oscillation, run: seq<Request>)
    requires Valid(o) && s.optimizeSteps > o.warmup && FrozenAt(s.optimizeSteps, o) == Some(s.frozen)
    requires InRange(o, s.optimizeSteps, o.period) && s.optimizeSteps + o.period < U32_LIMIT
    requires Optimizes(s, Some(o), run) == o.period
    ensures Updates(Run(s, Some(o), run).calls) == Updates(s.calls) + o.train
  {
    RunUpdates(s, o, run);
    WindowTrainsExactly(o, s.optimizeSteps);
  }

  /** The flag equals the schedule's value for the last counted step once warmup is over. */
  ghost predicate Scheduled(s: MassSession, o: Oscillation)
    requires Valid(o)
  {
    s.optimizeSteps > o.warmup ==> FrozenAt(s.optimizeSteps, o) == Some(s.frozen)
  }

  /** Every session reached from a start satisfies the premise of the window theorem as soon as warmup is over. */
  lemma {:induction false} RunScheduled(s: MassSession, o: Oscillation, run: seq<Request>)
    requires Valid(o) && Scheduled(s, o)
    ensures Scheduled(Run(s, Some(o), run), o)
    decreases |run|
  {
    if run != [] {
      StepUpdates(s, o, run[0]);
      RunScheduled(Handle(s, Some(o), run[0]).0, o, run[1..]);
    }
  }

  /**
   * Up to the end of warmup the flag stays as it is, and the flag in force when the counter stands at `warmup` still
   * governs the next optimization. Only then do the schedule's own steps begin.
   */
  lemma {:induction false} RunUpdatesFromWarmup(s: MassSession, o: Oscillation, run: seq<Request>)
    requires Valid(o) && s.optimizeSteps <= o.warmup && s.optimizeSteps + Optimizes(s, Some(o), run) < U32_LIMIT
    ensures var (n, kept) := (Optimizes(s, Some(o), run), o.warmup - s.optimizeSteps + 1);
      Updates(Run(s, Some(o), run).calls) == Updates(s.calls)
      + (if s.frozen then 0 else if n <= kept then n else kept)
      + (if n <= kept then 0 else TrainCount(o, o.warmup + 1, n - kept))
    decreases |run|
  {
    hide Handle, FrozenAt, Updates;
    if run != [] {
      var (next, ok) := Handle(s, Some(o), run[0]);
      StepUpdates(s, o, run[0]);
      if run[0].Optimize? && ok && s.optimizeSteps == o.warmup {
        PastWarmup(o, next.optimizeSteps);
        RunUpdates(next, o, run[1..]);
      } else {
        if run[0].Optimize? && ok { WithinWarmup(o, next.optimizeSteps); }
        RunUpdatesFromWarmup(next, o, run[1..]);
      }
    }
  }

  lemma WithinWarmup(o: Oscillation, step: U32)
    requires Valid(o) && step <= o.warmup
    ensures FrozenAt(step, o).None?
  {
  }

  /**
   * The first window past warmup is different: the flag that the session has when its counter stands at `warmup`
   * governs the first of its optimizations, and the schedule's steps `warmup + 1`, ..., `warmup + period - 1` the
   * others. So it trains `train` times if and only if that flag is the schedule's for step `warmup + period`.
   */
  lemma FirstWindowExactly(s: MassSession, o: Oscillation, run: seq<Request>)
    requires Valid(o) && s.optimizeSteps == o.warmup && InRange(o, o.warmup + 1, o.period)
    requires o.warmup + o.period + 1 < U32_LIMIT && Optimizes(s, Some(o), run) == o.period
    ensures Updates(Run(s, Some(o), run).calls) == Updates(s.calls) + o.train
      <==> FrozenAt(o.warmup + o.period, o) == Some(s.frozen)
  {
    RunUpdatesFromWarmup(s, o, run);
    WindowTrainsExactly(o, o.warmup + 1);
    PastWarmup(o, o.warmup + o.period);
    var before := TrainCount(o, o.warmup + 1, o.period - 1);
    assert TrainCount(o, o.warmup + 1, o.period)
      == before + (if FrozenAt(o.warmup + o.period, o) == Some(false) then 1 else 0);
    assert o.period == 1 ==> before == 0;
  }

  /**
   * Without warmup this is the very first window: its first optimization follows the initial flag, which is that of
   * step 1, so it is exact if and only if steps 1 and `period` of the schedule agree.
   */
  lemma FirstWindowRepeatsStepOne(frozen: bool, o: Oscillation, run: seq<Request>)
    requires Valid(o) && o.warmup == 0 && InRange(o, 1, o.period) && o.period + 1 < U32_LIMIT
    requires Optimizes(Started(frozen, Some(o)), Some(o), run) == o.period
    ensures Updates(Run(Started(frozen, Some(o)), Some(o), run).calls) == o.train
      <==> FrozenAt(1, o) == FrozenAt(o.period, o)
  {
    FirstWindowExactly(Started(frozen, Some(o)), o, run);
    PastWarmup(o, 1);
  }

  /**
   * A schedule that trains every other step, and the first two optimizations of a session under it: the engine is
   * updated twice, not once.
   */
  lemma FirstWindowTrainsTwice()
    ensures var o := Oscillation(2, 1, 0, 0);
      var run := [Infer(true), Optimize(true, true), Infer(true), Optimize(true, true)];
      && Valid(o) && InRange(o, 1, o.period)
      && Optimizes(Started(false, Some(o)), Some(o), run) == o.period
      && Updates(Run(Started(false, Some(o)), Some(o), run).calls) == 2 != o.train
  {
    var o := Oscillation(2, 1, 0, 0);
    var run := [Infer(true), Optimize(true, true), Infer(true), Optimize(true, true)];
    var rest := [Optimize(true, true), Infer(true), Optimize(true, true)];
    var last := [Infer(true), Optimize(true, true)];
    assert run[1..] == rest && rest[1..] == last && last[1..] == [Optimize(true, true)] && [Optimize(true, true)][1..] == [];
    assert FrozenAt(1, o) == Some(false) && FrozenAt(2, o) == Some(true);
    var s0 := Started(false, Some(o));
    var s1 := s0.(state := AwaitingOptimize);
    var s2 := MassSession(Idle, true, false, 1, [Update]);
    var s3 := s2.(state := AwaitingOptimize);
    var s4 := MassSession(Idle, true, true, 2, [Update] + [Update]);
    assert s1.calls == [] && [] + [Update] == [Update];
    assert Handle(s0, Some(o), run[0]) == (s1, true) && Handle(s1, Some(o), rest[0]) == (s2, true);
    assert FrozenAt(SaturatingInc32(s3.optimizeSteps), o) == Some(true);
    assert Handle(s2, Some(o), last[0]) == (s3, true) && Handle(s3, Some(o), Optimize(true, true)) == (s4, true);
    UpdatesAppend([Update], Update);
    UpdatesAppend([], Update);
    assert [] + [Update] == [Update];
  }

  /** The same schedule after a warmup of one step: the first two optimizations past it train twice, not once. */
  lemma WindowAfterWarmupTrainsTwice()
    ensures var o := Oscillation(2, 1, 0, 1);
      var turn := [Infer(true), Optimize(true, true)];
      var s := Run(Started(false, Some(o)), Some(o), turn);
      && Valid(o) && InRange(o, o.warmup + 1, o.period) && s.optimizeSteps == o.warmup
      && Optimizes(s, Some(o), turn + turn) == o.period
      && Updates(Run(s, Some(o), turn + turn).calls) == Updates(s.calls) + 2 != Updates(s.calls) + o.train
  {
    var o := Oscillation(2, 1, 0, 1);
    var turn := [Infer(true), Optimize(true, true)];
    var s := Run(Started(false, Some(o)), Some(o), turn);
    WithinWarmup(o, 1);
    OneTurn(Started(false, Some(o)), o, []);
    assert turn + [] == turn;
    assert FrozenAt(2, o) == Some(false);
    OneTurn(s, o, turn);
    var s' := Run(s, Some(o), turn);
    OneTurn(s', o, []);
    assert Optimizes(s, Some(o), turn + turn) == 2;
    RunUpdatesFromWarmup(s, o, turn + turn);
    assert TrainCount(o, 2, 1) == TrainCount(o, 2, 0) + 1;
  }

  /** An inference and an optimization of an idle session, both successful, at the head of a run. */
  lemma OneTurn(s: MassSession, o: Oscillation, rest: seq<Request>)
    requires Valid(o) && s.running && s.state == Idle
    ensures var turn := [Infer(true), Optimize(true, true)];
      var next := Run(s, Some(o), turn);
      && Run(s, Some(o), turn + rest) == Run(next, Some(o), rest)
      && Optimizes(s, Some(o), turn + rest) == 1 + Optimizes(next, Some(o), rest)
      && next.running && next.state == Idle && next.optimizeSteps == SaturatingInc32(s.optimizeSteps)
      && next.frozen == (if FrozenAt(next.optimizeSteps, o).Some? then FrozenAt(next.optimizeSteps, o).value else s.frozen)
  {
    hide FrozenAt;
    var turn, last := [Infer(true), Optimize(true, true)], [Optimize(true, true)];
    assert turn[1..] == last && last[1..] == [];
    assert (turn + rest)[1..] == last + rest && (last + rest)[1..] == rest;
  }
}

/**
 * The phase replay of a displayed cell: steps that polling missed are reconstructed, queued, and shown one at a time.
 */
module Phases {
  import opened Basics

  datatype Phase = Idle | Propagation1 | Propagation2 | Optimization

  datatype Progress = Progress(state: Phase, gradStep: nat)

  const MAX_PENDING := 4
  /** One second, in milliseconds. */
  const MIN_SHOWN := 1000

  // ---------------------------------------------------------------------------
  // Phases
  // ---------------------------------------------------------------------------

  function NextPhase(phase: Phase): Phase {
    match phase
    case Idle => Propagation1
    case Optimization => Propagation1
    case Propagation1 => Propagation2
    case Propagation2 => Optimization
  }

  function Iterate(phase: Phase, n: nat): Phase {
    if n == 0 then phase else NextPhase(Iterate(phase, n - 1))
  }

  /** The phases entered by `count` steps. */
  function Steps(phase: Phase, count: nat): (r: seq<Phase>)
    ensures |r| == count
  {
    seq(count, i requires 0 <= i < count => Iterate(phase, i + 1))
  }

  /** The last `min(count, 4)` of them. */
  function RecentSteps(phase: Phase, count: nat): seq<Phase> {
    Steps(phase, count)[if count > MAX_PENDING then count - MAX_PENDING else 0..]
  }

  lemma {:induction false} IterateAgain(phase: Phase, a: nat, b: nat)
    ensures Iterate(Iterate(phase, a), b) == Iterate(phase, a + b)
    decreases b
  {
    if b > 0 { IterateAgain(phase, a, b - 1); }
  }

  /** Outside Idle the phases repeat every three steps. */
  lemma {:induction false} Cycle(phase: Phase, n: nat)
    requires phase != Idle
    ensures Iterate(phase, n) == Iterate(phase, n % 3) && Iterate(phase, n) != Idle
    decreases n
  {
    if n >= 3 {
      Cycle(phase, n - 3);
      IterateAgain(phase, n - 3, 3);
      assert Iterate(phase, n) == NextPhase(NextPhase(NextPhase(Iterate(phase, n - 3))));
    } else {
      assert Iterate(phase, 1) == NextPhase(phase) && Iterate(phase, 2) == NextPhase(NextPhase(phase));
    }
  }

  /** One round of phases as it is entered from each of them; after it the round starts over. */
  function Round(from: Phase): (r: seq<Phase>)
    ensures |r| == 3
  {
    match from
    case Idle => [Propagation1, Propagation2, Optimization]
    case Propagation1 => [Propagation2, Optimization, Propagation1]
    case Propagation2 => [Optimization, Propagation1, Propagation2]
    case Optimization => [Propagation1, Propagation2, Optimization]
  }

  /** The cycle, written out: the n-th phase after each of the four. */
  lemma {:induction false} RoundExactly(n: nat)
    requires n > 0
    ensures Iterate(Idle, n) == [Propagation1, Propagation2, Optimization][(n - 1) % 3]
    ensures Iterate(Propagation1, n) == [Propagation2, Optimization, Propagation1][(n - 1) % 3]
    ensures Iterate(Propagation2, n) == [Optimization, Propagation1, Propagation2][(n - 1) % 3]
    ensures Iterate(Optimization, n) == [Propagation1, Propagation2, Optimization][(n - 1) % 3]
    decreases n
  {
    if n > 1 { RoundExactly(n - 1); }
  }

  lemma IterateRound(from: Phase, n: nat)
    requires n > 0
    ensures Iterate(from, n) == Round(from)[(n - 1) % 3]
  {
    RoundExactly(n);
  }

  lemma IterateNext(phase: Phase, n: nat)
    ensures Iterate(phase, 0) == phase && Iterate(phase, n + 1) == NextPhase(Iterate(phase, n))
  {
  }

  /** Whole turns can be left out, once Idle is behind. */
  lemma SkipTurns(from: Phase, first: nat, start: Phase, skipped: nat)
    requires skipped <= first && start == Iterate(from, first - skipped)
    requires start != Idle || skipped == 0
    ensures Iterate(start, skipped % 3) == Iterate(from, first)
  {
    if start != Idle { Cycle(start, skipped); }
    IterateAgain(from, first - skipped, skipped);
  }

  lemma RecentPointwise(from: Phase, count: nat, path: seq<Phase>)
    requires |path| == if count < MAX_PENDING then count else MAX_PENDING
    requires forall j :: 0 <= j < |path| ==> path[j] == Iterate(from, count - |path| + j + 1)
    ensures path == RecentSteps(from, count)
  {
  }

  /** The last `min(count, 4)` of the first `count` steps round the cycle. */
  predicate EndOfRun(from: Phase, count: nat, path: seq<Phase>) {
    && |path| == (if count < MAX_PENDING then count else MAX_PENDING)
    && forall j :: 0 <= j < |path| ==> path[j] == Round(from)[(count - |path| + j) % 3]
  }

  lemma RecentInRound(from: Phase, count: nat)
    ensures EndOfRun(from, count, RecentSteps(from, count))
  {
    var path := RecentSteps(from, count);
    forall j | 0 <= j < |path| ensures path[j] == Round(from)[(count - |path| + j) % 3] {
      IterateRound(from, count - |path| + j + 1);
    }
  }

  /** `recent_phase_steps`: whole turns are skipped, yet the result is the true end of the run, for every count. */
  method RecentPhaseSteps(from: Phase, count: nat) returns (path: seq<Phase>)
    ensures EndOfRun(from, count, path)
    ensures path == RecentSteps(from, count)
  {
    hide Iterate, RecentSteps, EndOfRun;
    var phase := from;
    var retained := if count < MAX_PENDING then count else MAX_PENDING;
    var skipped := count - retained;
    ghost var first := skipped;
    IterateNext(from, 0);
    if skipped > 0 && phase == Idle {
      phase := NextPhase(phase);
      skipped := skipped - 1;
    }
    ghost var start := phase;
    SkipTurns(from, first, start, skipped);
    IterateNext(start, 0);
    for i := 0 to skipped % 3
      invariant phase == Iterate(start, i)
    {
      IterateNext(start, i);
      phase := NextPhase(phase);
    }
    path := [];
    for i := 0 to retained
      invariant phase == Iterate(from, first + i)
      invariant |path| == i && forall j :: 0 <= j < i ==> path[j] == Iterate(from, first + j + 1)
    {
      IterateNext(from, first + i);
      phase := NextPhase(phase);
      path := path + [phase];
    }
    RecentPointwise(from, count, path);
    RecentInRound(from, count);
  }

  /** The stretch of the round up to a phase's first occurrence; nothing to stay, and Idle is one step away. */
  predicate LeadsTo(from: Phase, to: Phase, path: seq<Phase>) {
    if from == to then path == []
    else if to == Idle then path == [Idle]
    else
      && 1 <= |path| <= 3
      && path == Round(from)[..|path|]
      && path[|path| - 1] == to
      && to !in path[..|path| - 1]
  }

  lemma PathInRound(from: Phase, to: Phase)
    ensures LeadsTo(from, to, PathBetween(from, to))
  {
    if from != to && to != Idle {
      var path := PathBetween(from, to);
      AlwaysArrives(from, to);
      forall j | 0 <= j < |path| ensures path[j] == Round(from)[j] {
        IterateRound(from, j + 1);
      }
      assert path == Round(from)[..|path|];
    }
  }

  /** `phase_path`: the steps that lead from one phase to another. */
  method PhasePath(from: Phase, to: Phase) returns (path: seq<Phase>)
    ensures LeadsTo(from, to, path)
    ensures path == PathBetween(from, to)
  {
    hide Iterate, Distance, LeadsTo;
    PathInRound(from, to);
    if from == to { return []; }
    if to == Idle { return [Idle]; }
    path := [];
    var phase := from;
    IterateNext(from, 0);
    for i := 0 to 4
      invariant phase == Iterate(from, i) && path == Steps(from, i)
      invariant forall j :: 0 < j <= i ==> Iterate(from, j) != to
    {
      IterateNext(from, i);
      phase := NextPhase(phase);
      path := path + [phase];
      if phase == to {
        FirstArrival(from, to, i + 1);
        assert path == PathBetween(from, to);
        return path;
      }
    }
    AlwaysArrives(from, to);
  }

  /** The number of steps to a phase that is not Idle: at least one, at most three. */
  function Distance(from: Phase, to: Phase): (n: nat)
    ensures 1 <= n <= 3
  {
    if NextPhase(from) == to then 1 else if NextPhase(NextPhase(from)) == to then 2 else 3
  }

  function PathBetween(from: Phase, to: Phase): seq<Phase> {
    if from == to then [] else if to == Idle then [Idle] else Steps(from, Distance(from, to))
  }

  lemma AlwaysArrives(from: Phase, to: Phase)
    requires to != Idle && from != to
    ensures Iterate(from, Distance(from, to)) == to
  {
    assert Iterate(from, 1) == NextPhase(from);
    assert Iterate(from, 2) == NextPhase(NextPhase(from));
    assert Iterate(from, 3) == NextPhase(NextPhase(NextPhase(from)));
  }

  lemma FirstArrival(from: Phase, to: Phase, n: nat)
    requires to != Idle && from != to && 1 <= n <= 4 && Iterate(from, n) == to
    requires forall j :: 0 < j < n ==> Iterate(from, j) != to
    ensures n == Distance(from, to)
  {
    AlwaysArrives(from, to);
    assert Iterate(from, 1) == NextPhase(from) && Iterate(from, 2) == NextPhase(NextPhase(from));
  }

  // ---------------------------------------------------------------------------
  // The displayed cell
  // ---------------------------------------------------------------------------

  datatype View = View(
    previous: Progress,
    current: Progress,
    started: Option<nat>,
    pending: seq<Progress>,
    observed: nat,
    latestFrozen: Option<bool>,
    optimizationFrozen: Option<bool>)

  const INITIAL := View(Progress(Idle, 1), Progress(Idle, 1), None, [], 0, None, None)

  function Max1(n: nat): nat {
    if n > 1 then n else 1
  }

  function DefaultGradStep(state: Phase, gradSteps: nat): nat {
    if state == Optimization then Max1(gradSteps) else 1
  }

  function Clamp(n: nat, limit: nat): (r: nat)
    requires limit >= 1
    ensures 1 <= r <= limit && (1 <= n <= limit ==> r == n) && (n > limit ==> r == limit)
  {
    if n < 1 then 1 else if n > limit then limit else n
  }

  /** The last thing that is, or will be, shown. */
  function Latest(v: View): Progress {
    if v.pending == [] then v.current else v.pending[|v.pending| - 1]
  }

  /** What is seen: the step as polled where it fits, and the nearest end otherwise. */
  function Observed(activity: Phase, gradStep: nat, gradSteps: nat): (r: Progress)
    ensures r.state == activity
    ensures 1 <= gradStep <= gradSteps ==> r.gradStep == gradStep
    ensures gradStep == 0 ==> r.gradStep == 1
    ensures gradStep > gradSteps ==> r.gradStep == (if gradSteps == 0 then 1 else gradSteps)
  {
    Progress(activity, Clamp(gradStep, Max1(gradSteps)))
  }

  /** The steps that an observation adds. */
  function Path(latest: Phase, activity: Phase, observed: nat, sequence: nat): seq<Phase> {
    if sequence > observed && Iterate(latest, sequence - observed) == activity
    then RecentSteps(latest, sequence - observed)
    else PathBetween(latest, activity)
  }

  /** The entries for the steps of a path: the last one is what was observed. */
  function Entries(path: seq<Phase>, gradSteps: nat, observed: Progress): (r: seq<Progress>)
    ensures |r| == |path|
  {
    seq(|path|, i requires 0 <= i < |path| =>
      if i + 1 == |path| then observed else Progress(path[i], DefaultGradStep(path[i], Max1(gradSteps))))
  }

  function Added(v: View, path: seq<Phase>, gradSteps: nat, observed: Progress): seq<Progress> {
    if path != [] then Entries(path, gradSteps, observed) else if Latest(v) != observed then [observed] else []
  }

  function KeepLast(s: seq<Progress>): (r: seq<Progress>)
    ensures |r| <= MAX_PENDING
  {
    if |s| > MAX_PENDING then s[|s| - MAX_PENDING..] else s
  }

  function SinceStart(started: nat, now: nat): nat {
    if now > started then now - started else 0
  }

  predicate CanTransition(v: View, now: nat) {
    v.started.Some? ==> SinceStart(v.started.value, now) >= MIN_SHOWN
  }

  /** `begin_next_transition`: skips entries that are already shown. */
  function Begin(v: View, now: nat): (View, bool)
    decreases |v.pending|
  {
    if v.pending == [] then (v, false)
    else
      var next, rest := v.pending[0], v.pending[1..];
      if next == v.current then Begin(v.(pending := rest), now)
      else
        var frozen :=
          if v.current.state == Propagation1 && next.state == Propagation2 then v.latestFrozen else v.optimizationFrozen;
        (v.(previous := v.current, current := next, started := Some(now), pending := rest, optimizationFrozen := frozen), true)
  }

  function Advance(v: View, now: nat): (View, bool) {
    if CanTransition(v, now) then Begin(v, now) else (v, false)
  }

  function Observe(
    v: View, activity: Phase, gradStep: nat, gradSteps: nat, sequence: nat, frozen: Option<bool>, now: nat): (View, bool)
  {
    if sequence < v.observed then (v, false)
    else
      var seen := Observed(activity, gradStep, gradSteps);
      var path := Path(Latest(v).state, activity, v.observed, sequence);
      var noted := v.(latestFrozen := frozen, observed := sequence);
      var added := Added(v, path, gradSteps, seen);
      if added == [] then (noted, false)
      else Advance(noted.(pending := KeepLast(v.pending + added)), now)
  }

  class CellVisualState {
    var previous: Progress
    var current: Progress
    var started: Option<nat>
    var pending: seq<Progress>
    var observed: nat
    var latestFrozen: Option<bool>
    var optimizationFrozen: Option<bool>

    ghost function State(): View
      reads this
    {
      View(previous, current, started, pending, observed, latestFrozen, optimizationFrozen)
    }

    constructor ()
      ensures State() == INITIAL
    {
      previous, current := Progress(Idle, 1), Progress(Idle, 1);
      started, pending, observed := None, [], 0;
      latestFrozen, optimizationFrozen := None, None;
    }

    method CheckTransition(now: nat) returns (can: bool)
      ensures can == CanTransition(State(), now)
    {
      match started
      case None => can := true;
      case Some(at) => can := SinceStart(at, now) >= MIN_SHOWN;
    }

    method BeginNextTransition(now: nat) returns (changed: bool)
      modifies this
      ensures (State(), changed) == Begin(old(State()), now)
      decreases |pending|
    {
      if pending == [] { return false; }
      var activity := pending[0];
      pending := pending[1..];
      if activity == current {
        changed := BeginNextTransition(now);
        return;
      }
      if current.state == Propagation1 && activity.state == Propagation2 { optimizationFrozen := latestFrozen; }
      previous := current;
      current := activity;
      started := Some(now);
      changed := true;
    }

    method AdvanceOne(now: nat) returns (changed: bool)
      modifies this
      ensures (State(), changed) == Advance(old(State()), now)
    {
      var can := CheckTransition(now);
      if !can { return false; }
      changed := BeginNextTransition(now);
    }

    /** The phases to replay: the exact recent steps when they end at the activity, else the shortest way there. */
    method ReplayPath(latest: Phase, activity: Phase, sequence: nat) returns (path: seq<Phase>)
      requires sequence >= observed
      ensures path == Path(latest, activity, observed, sequence)
    {
      hide Iterate, RecentSteps, PathBetween;
      if sequence > observed {
        path := RecentPhaseSteps(latest, sequence - observed);
        RecentEnd(latest, sequence - observed);
        if path[|path| - 1] == activity { return; }
      }
      path := PhasePath(latest, activity);
    }

    /** Appends the entries of a path and drops the oldest ones past the limit. */
    method Enqueue(path: seq<Phase>, seen: Progress, gradSteps: nat)
      modifies this`pending
      ensures pending == KeepLast(old(pending) + Entries(path, gradSteps, seen))
    {
      hide DefaultGradStep, Max1;
      for i := 0 to |path|
        invariant pending == old(pending) + Entries(path, gradSteps, seen)[..i]
      {
        pending := pending
          + [if i + 1 == |path| then seen else Progress(path[i], DefaultGradStep(path[i], Max1(gradSteps)))];
      }
      ghost var all := old(pending) + Entries(path, gradSteps, seen);
      assert pending == all;
      while |pending| > MAX_PENDING
        invariant |pending| <= |all| && pending == all[|all| - |pending|..]
        invariant |pending| >= MAX_PENDING || pending == all
      {
        pending := pending[1..];
      }
    }

    method ObserveNode(activity: Phase, gradStep: nat, gradSteps: nat, sequence: nat, frozen: Option<bool>, now: nat)
      returns (changed: bool)
      modifies this
      ensures (State(), changed) == Observe(old(State()), activity, gradStep, gradSteps, sequence, frozen, now)
    {
      hide Path, Begin, Advance;
      var latest := if pending == [] then current else pending[|pending| - 1];
      var seen := Progress(activity, Clamp(gradStep, Max1(gradSteps)));
      if sequence < observed { return false; }
      latestFrozen := frozen;
      var path := ReplayPath(latest.state, activity, sequence);
      observed := sequence;
      if path == [] {
        if latest == seen { return false; }
        assert Entries([activity], gradSteps, seen) == [seen];
        Enqueue([activity], seen, gradSteps);
      } else {
        Enqueue(path, seen, gradSteps);
      }
      changed := AdvanceOne(now);
    }
  }

  lemma RecentEnd(phase: Phase, count: nat)
    requires count > 0
    ensures |RecentSteps(phase, count)| > 0
    ensures RecentSteps(phase, count)[|RecentSteps(phase, count)| - 1] == Iterate(phase, count)
  {
  }

  // ---------------------------------------------------------------------------
  // What every observation keeps
  // ---------------------------------------------------------------------------

  /** One phase may follow another: the next one, Idle at any time, or the same one with other progress. */
  predicate Follows(a: Progress, b: Progress) {
    b.state == NextPhase(a.state) || b.state == Idle || (b.state == a.state && b != a)
  }

  predicate Chain(s: seq<Progress>) {
    forall i :: 0 <= i < |s| - 1 ==> Follows(s[i], s[i + 1])
  }

  /** The queue is short and a chain of legal steps. */
  predicate QueueOk(v: View) {
    |v.pending| <= MAX_PENDING && Chain(v.pending)
  }

  /** A path starts next to where it continues from, unless it fills the queue by itself. */
  predicate Continues(from: Phase, path: seq<Phase>) {
    path != [] ==> |path| == MAX_PENDING || path[0] == NextPhase(from) || path == [Idle]
  }

  predicate PhaseChain(path: seq<Phase>) {
    forall i :: 0 <= i < |path| - 1 ==> path[i + 1] == NextPhase(path[i])
  }

  lemma RecentFacts(latest: Phase, count: nat)
    requires count > 0
    ensures var path := RecentSteps(latest, count);
            && path != [] && |path| <= MAX_PENDING && PhaseChain(path) && path[|path| - 1] == Iterate(latest, count)
            && (|path| == MAX_PENDING || path[0] == NextPhase(latest))
  {
    hide Iterate;
    StepsFacts(latest, count);
    SuffixChain(Steps(latest, count), count - |RecentSteps(latest, count)|);
  }

  lemma SuffixChain(path: seq<Phase>, first: nat)
    requires PhaseChain(path) && first <= |path|
    ensures PhaseChain(path[first..])
  {
    forall i | 0 <= i < |path| - first - 1 ensures path[first..][i + 1] == NextPhase(path[first..][i]) {
      assert path[first + i + 1] == NextPhase(path[first + i]);
    }
  }

  lemma StepsFacts(latest: Phase, n: nat)
    requires n > 0
    ensures var path := Steps(latest, n);
            PhaseChain(path) && path[0] == NextPhase(latest) && path[n - 1] == Iterate(latest, n)
  {
    IterateNext(latest, 0);
    forall i | 0 <= i < n - 1 ensures Steps(latest, n)[i + 1] == NextPhase(Steps(latest, n)[i]) {
      IterateNext(latest, i + 1);
    }
  }

  lemma PathFacts(latest: Phase, activity: Phase, observed: nat, sequence: nat)
    ensures var path := Path(latest, activity, observed, sequence);
            && |path| <= MAX_PENDING && PhaseChain(path) && Continues(latest, path)
            && (path == [] ==> latest == activity) && (path != [] ==> path[|path| - 1] == activity)
  {
    hide RecentSteps, Steps, Iterate;
    if sequence > observed && Iterate(latest, sequence - observed) == activity {
      RecentFacts(latest, sequence - observed);
    } else if latest != activity && activity != Idle {
      AlwaysArrives(latest, activity);
      StepsFacts(latest, Distance(latest, activity));
    }
  }

  lemma EntriesChain(latest: Progress, path: seq<Phase>, gradSteps: nat, seen: Progress)
    requires PhaseChain(path) && path != [] && path[|path| - 1] == seen.state && Continues(latest.state, path)
    ensures Chain(Entries(path, gradSteps, seen))
    ensures |path| == MAX_PENDING || Follows(latest, Entries(path, gradSteps, seen)[0])
  {
    var entries := Entries(path, gradSteps, seen);
    assert forall i :: 0 <= i < |path| ==> entries[i].state == path[i];
  }

  /** Keeping the last entries keeps the chain, and the old ones matter only while they join. */
  lemma KeepLastChain(pending: seq<Progress>, added: seq<Progress>)
    requires Chain(pending) && Chain(added) && added != []
    requires |added| >= MAX_PENDING || pending == [] || Follows(pending[|pending| - 1], added[0])
    ensures Chain(KeepLast(pending + added))
    ensures var s := KeepLast(pending + added); s != [] && s[|s| - 1] == added[|added| - 1]
  {
    var all := pending + added;
    var cut := if |all| > MAX_PENDING then |all| - MAX_PENDING else 0;
    forall i | cut <= i < |all| - 1 ensures Follows(all[i], all[i + 1]) {
      if i < |pending| - 1 {
        assert Follows(pending[i], pending[i + 1]);
      } else if i >= |pending| {
        assert Follows(added[i - |pending|], added[i - |pending| + 1]);
      }
    }
  }

  lemma {:induction false} BeginKeeps(v: View, now: nat)
    requires QueueOk(v)
    ensures QueueOk(Begin(v, now).0) && Latest(Begin(v, now).0) == Latest(v)
    ensures Begin(v, now).0.observed == v.observed
    ensures Begin(v, now).1 ==> Begin(v, now).0.current != v.current == Begin(v, now).0.previous
    decreases |v.pending|
  {
    if v.pending != [] {
      var rest := v.pending[1..];
      assert forall i :: 0 <= i < |rest| - 1 ==> rest[i] == v.pending[i + 1] && Follows(v.pending[i + 1], v.pending[i + 2]);
      if v.pending[0] == v.current { BeginKeeps(v.(pending := rest), now); }
    }
  }

  lemma AdvanceKeeps(v: View, now: nat)
    requires QueueOk(v)
    ensures QueueOk(Advance(v, now).0) && Latest(Advance(v, now).0) == Latest(v)
    ensures Advance(v, now).0.observed == v.observed
  {
    BeginKeeps(v, now);
  }

  /**
   * After every accepted observation the queue holds at most four entries, is a chain of legal steps, and ends, or the
   * display stands, at what was observed. A late observation changes nothing.
   */
  lemma ObserveKeeps(v: View, activity: Phase, gradStep: nat, gradSteps: nat, sequence: nat, frozen: Option<bool>, now: nat)
    requires QueueOk(v)
    ensures var r := Observe(v, activity, gradStep, gradSteps, sequence, frozen, now).0;
            && QueueOk(r)
            && (sequence >= v.observed ==> Latest(r) == Observed(activity, gradStep, gradSteps) && r.observed == sequence)
            && (sequence < v.observed ==> r == v)
  {
    hide Path;
    if sequence >= v.observed {
      var seen := Observed(activity, gradStep, gradSteps);
      var path := Path(Latest(v).state, activity, v.observed, sequence);
      var noted := v.(latestFrozen := frozen, observed := sequence);
      var added := Added(v, path, gradSteps, seen);
      PathFacts(Latest(v).state, activity, v.observed, sequence);
      if path != [] { EntriesChain(Latest(v), path, gradSteps, seen); }
      if added != [] {
        KeepLastChain(v.pending, added);
        AdvanceKeeps(noted.(pending := KeepLast(v.pending + added)), now);
      }
    }
  }

  datatype Input =
    | Poll(activity: Phase, gradStep: nat, gradSteps: nat, sequence: nat, frozen: Option<bool>, now: nat)
    | Tick(now: nat)

  function React(v: View, input: Input): View {
    match input
    case Poll(activity, gradStep, gradSteps, sequence, frozen, now) =>
      Observe(v, activity, gradStep, gradSteps, sequence, frozen, now).0
    case Tick(now) => Advance(v, now).0
  }

  function Run(inputs: seq<Input>): View {
    if inputs == [] then INITIAL else React(Run(inputs[..|inputs| - 1]), inputs[|inputs| - 1])
  }

  /** The last poll that was not late. */
  function LastAccepted(inputs: seq<Input>): Progress {
    if inputs == [] then INITIAL.current
    else
      var last := inputs[|inputs| - 1];
      if last.Poll? && last.sequence >= Run(inputs[..|inputs| - 1]).observed
      then Observed(last.activity, last.gradStep, last.gradSteps)
      else LastAccepted(inputs[..|inputs| - 1])
  }

  /** Over every run of polls and ticks the display heads for the last accepted observation and nowhere else. */
  lemma {:induction false} RunShowsLastAccepted(inputs: seq<Input>)
    ensures QueueOk(Run(inputs)) && Latest(Run(inputs)) == LastAccepted(inputs)
    decreases |inputs|
  {
    if inputs != [] {
      var front, last := inputs[..|inputs| - 1], inputs[|inputs| - 1];
      RunShowsLastAccepted(front);
      match last
      case Poll(activity, gradStep, gradSteps, sequence, frozen, now) =>
        ObserveKeeps(Run(front), activity, gradStep, gradSteps, sequence, frozen, now);
      case Tick(now) => AdvanceKeeps(Run(front), now);
    }
  }

  /** `n` ticks, as far apart as a shown phase must last. */
  function Ticks(v: View, now: nat, n: nat): View
    decreases n
  {
    if n == 0 then v else Ticks(Advance(v, now).0, now + MIN_SHOWN, n - 1)
  }

  lemma {:induction false} BeginShrinks(v: View, now: nat)
    requires v.pending != []
    ensures |Begin(v, now).0.pending| < |v.pending|
    ensures Begin(v, now).0.started == v.started || Begin(v, now).0.started == Some(now)
    decreases |v.pending|
  {
    if v.pending[0] == v.current && v.pending[1..] != [] { BeginShrinks(v.(pending := v.pending[1..]), now); }
  }

  /** As many ticks as there are queued entries show them all; the display then rests at the last observation. */
  lemma {:induction false} TicksDrain(v: View, now: nat, n: nat)
    requires QueueOk(v) && CanTransition(v, now) && n >= |v.pending|
    ensures Ticks(v, now, n).pending == [] && Ticks(v, now, n).current == Latest(v)
    decreases n
  {
    if n > 0 {
      var next := Advance(v, now).0;
      AdvanceKeeps(v, now);
      if v.pending != [] { BeginShrinks(v, now); }
      TicksDrain(next, now + MIN_SHOWN, n - 1);
    }
  }

  // ---------------------------------------------------------------------------
  // What is shown
  // ---------------------------------------------------------------------------

  /** The replayed steps: the end of the exact run when that leads to the activity, else the shortest way there. */
  lemma PathExactly(latest: Phase, activity: Phase, observed: nat, sequence: nat)
    ensures var path, missed := Path(latest, activity, observed, sequence), sequence - observed;
      if missed > 0 && Round(latest)[(missed - 1) % 3] == activity then EndOfRun(latest, missed, path)
      else LeadsTo(latest, activity, path)
  {
    hide Iterate, RecentSteps, PathBetween, LeadsTo, EndOfRun;
    if sequence > observed {
      IterateRound(latest, sequence - observed);
      RecentInRound(latest, sequence - observed);
    }
    PathInRound(latest, activity);
  }

  lemma ShortRun(from: Phase, count: nat, path: seq<Phase>)
    requires EndOfRun(from, count, path) && 0 < count <= 4
    ensures |path| == count && forall j :: 0 <= j < count ==> path[j] == Round(from)[j % 3]
    ensures path[0] != from && path[count - 1] == Round(from)[(count - 1) % 3]
    ensures forall j :: 0 <= j < count - 1 ==> path[j] != path[j + 1]
  {
  }

  /** A transition shows the first queued entry that is not shown yet, keeps the later ones, and drops the others. */
  lemma {:induction false} BeginExactly(v: View, now: nat)
    ensures var (r, changed) := Begin(v, now);
      var k := |v.pending| - |r.pending|;
      && k >= 0 && r.pending == v.pending[k..] && r.observed == v.observed && r.latestFrozen == v.latestFrozen
      && (changed ==>
        && k > 0 && r.current == v.pending[k - 1] != v.current && r.previous == v.current && r.started == Some(now)
        && forall j :: 0 <= j < k - 1 ==> v.pending[j] == v.current)
      && (!changed ==> r == v.(pending := []) && forall j :: 0 <= j < |v.pending| ==> v.pending[j] == v.current)
    decreases |v.pending|
  {
    if v.pending != [] {
      var rest := v.pending[1..];
      assert forall j :: 1 <= j < |v.pending| ==> v.pending[j] == rest[j - 1];
      if v.pending[0] == v.current { BeginExactly(v.(pending := rest), now); }
    }
  }

  /**
   * The frozen flag shown while a cell optimizes is the one last polled when its second propagation came up, and it
   * changes at no other time.
   */
  lemma {:induction false} BeginFrozen(v: View, now: nat)
    ensures var (r, changed) := Begin(v, now);
      r.optimizationFrozen ==
        if changed && r.previous.state == Propagation1 && r.current.state == Propagation2 then v.latestFrozen
        else v.optimizationFrozen
    decreases |v.pending|
  {
    if v.pending != [] && v.pending[0] == v.current { BeginFrozen(v.(pending := v.pending[1..]), now); }
  }

  /** Whatever comes in, what is shown stays for at least a second, and a change takes the flag along as it should. */
  lemma ShownForASecond(v: View, input: Input)
    requires React(v, input).current != v.current
    ensures v.started.Some? ==> input.now >= v.started.value + 1000
    ensures React(v, input).started == Some(input.now) && React(v, input).previous == v.current
    ensures React(v, input).optimizationFrozen ==
      if v.current.state == Propagation1 && React(v, input).current.state == Propagation2
      then (if input.Poll? then input.frozen else v.latestFrozen) else v.optimizationFrozen
  {
    hide Path, Begin;
    match input
    case Tick(now) =>
      BeginExactly(v, now);
      BeginFrozen(v, now);
    case Poll(activity, gradStep, gradSteps, sequence, frozen, now) =>
      var seen := Observed(activity, gradStep, gradSteps);
      var added := Added(v, Path(Latest(v).state, activity, v.observed, sequence), gradSteps, seen);
      var queued := v.(latestFrozen := frozen, observed := sequence, pending := KeepLast(v.pending + added));
      BeginExactly(queued, now);
      BeginFrozen(queued, now);
  }

  /** Consecutive queued entries of different phases are shown one per tick. */
  lemma {:induction false} TicksShow(v: View, now: nat, n: nat)
    requires CanTransition(v, now) && n <= |v.pending|
    requires v.pending != [] ==> v.current.state != v.pending[0].state
    requires forall i :: 0 <= i < |v.pending| - 1 ==> v.pending[i].state != v.pending[i + 1].state
    ensures Ticks(v, now, n).current == if n == 0 then v.current else v.pending[n - 1]
    decreases n
  {
    if n > 0 {
      var next := Advance(v, now).0;
      assert next.current == v.pending[0] && next.pending == v.pending[1..] && next.started == Some(now);
      assert forall i :: 0 <= i < |v.pending| - 1 ==> next.pending[i] == v.pending[i + 1];
      TicksShow(next, now + MIN_SHOWN, n - 1);
    }
  }

  /** With nothing queued, up to four missed steps are queued in order and the first of them is shown at once. */
  lemma MissedStepsQueued(
    v: View, activity: Phase, gradStep: nat, gradSteps: nat, missed: nat, frozen: Option<bool>, now: nat, path: seq<Phase>)
    requires v.pending == [] && CanTransition(v, now)
    requires path == Path(v.current.state, activity, v.observed, v.observed + missed)
    requires 0 < |path| <= MAX_PENDING && path[0] != v.current.state
    ensures var r := Observe(v, activity, gradStep, gradSteps, v.observed + missed, frozen, now).0;
      var entries := Entries(path, gradSteps, Observed(activity, gradStep, gradSteps));
      path[|path| - 1] == activity ==>
        r.current == entries[0] && r.pending == entries[1..] && r.started == Some(now)
  {
    hide Path, Observed;
    var seen := Observed(activity, gradStep, gradSteps);
    assert v.pending + Entries(path, gradSteps, seen) == Entries(path, gradSteps, seen);
    assert seen.state == activity by { ObservedState(activity, gradStep, gradSteps); }
  }

  lemma ObservedState(activity: Phase, gradStep: nat, gradSteps: nat)
    ensures Observed(activity, gradStep, gradSteps).state == activity
  {
  }

  /**
   * Up to four steps missed by polling are all shown, in the order they were made, a second apart: the first at once,
   * the last with the progress that was polled, and an optimization before it as complete.
   */
  lemma MissedStepsAreShown(
    v: View, activity: Phase, gradStep: nat, gradSteps: nat, missed: nat, frozen: Option<bool>, now: nat, j: nat)
    requires v.pending == [] && CanTransition(v, now)
    requires j < missed <= 4 && activity == Round(v.current.state)[(missed - 1) % 3]
    ensures var r := Observe(v, activity, gradStep, gradSteps, v.observed + missed, frozen, now).0;
      var phase := Round(v.current.state)[j % 3];
      Ticks(r, now + 1000, j).current ==
        if j == missed - 1 then Observed(activity, gradStep, gradSteps)
        else Progress(phase, if phase == Optimization && gradSteps > 1 then gradSteps else 1)
  {
    hide Path, Ticks, Observe, Observed, EndOfRun, Round;
    var from := v.current.state;
    PathExactly(from, activity, v.observed, v.observed + missed);
    var path := Path(from, activity, v.observed, v.observed + missed);
    ShortRun(from, missed, path);
    MissedStepsQueued(v, activity, gradStep, gradSteps, missed, frozen, now, path);
    ObservedState(activity, gradStep, gradSteps);
    var entries := Entries(path, gradSteps, Observed(activity, gradStep, gradSteps));
    var r := Observe(v, activity, gradStep, gradSteps, v.observed + missed, frozen, now).0;
    assert forall i :: 0 <= i < missed - 1 ==> r.pending[i] == entries[i + 1];
    TicksShow(r, now + MIN_SHOWN, j);
  }
}

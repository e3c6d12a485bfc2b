/** The touch-boost protocol of the power HAL (power/power_dragonboard.c): any number of hint callers
    and one de-boost thread that share a mutex, a counting semaphore, a deadline and a sysfs value.

    Every shared-memory access and every blocking call is a step of its own, so a run is an arbitrary
    interleaving of the callers, the de-boost thread and the clock. */
module TouchBoost {
  import opened Options

  /** The value last written to the schedtune.boost file. */
  datatype Level = Normal | Interactive

  datatype HintKind = Interaction | OtherHint

  /** Where a hint caller stands inside dragonboard_power_hint. */
  datatype CallerPc =
    | Outside
    | Entered(kind: HintKind)  // holds the mutex, has not looked at the hint yet
    | Sampled(at: int)         // has read the clock
    | Raised(at: int)          // has written the interactive value
    | Posted(at: int)          // has posted the semaphore
    | Stored                   // has stored the new deadline

  /** Where the de-boost thread stands inside schedtune_deboost_thread. */
  datatype DeboostPc =
    | Waiting                // in sem_wait
    | Contending             // past sem_wait, not yet holding the mutex
    | Holding                // holds the mutex
    | Read(now: int)         // has read the clock
    | Releasing(sleep: int)  // has decided to sleep, still holds the mutex
    | Dozing(sleep: int)     // has released the mutex, not yet in nanosleep
    | Sleeping(until: int)   // in nanosleep
    | Lowered                // has written the normal value
    | Cleared                // has cleared the deadline, still holds the mutex

  datatype Owner = Nobody | Caller(id: nat) | Deboost

  /** The shared state, the program counters, and three history variables that no step reads:
      all sysfs writes so far, the hints stored since the deadline was last zero, and the sleeps of
      the current inner loop. `redundant` is the position of a "normal" write made with no boost
      pending. */
  datatype State = State(
    clock: int,
    owner: Owner,
    semaphore: nat,
    deadline: int,
    sysfs: Level,
    deboost: DeboostPc,
    callers: map<nat, CallerPc>,
    writes: seq<Level>,
    redundant: Option<nat>,
    episodeHints: nat,
    loopSleeps: nat)

  datatype Action =
    | Tick(ns: nat)
    | Enter(id: nat, kind: HintKind)
    | Sample(id: nat)
    | Raise(id: nat)
    | Post(id: nat)
    | Store(id: nat)
    | Leave(id: nat)
    | TakeToken
    | Acquire
    | ReadClock
    | ChooseSleep
    | ReleaseToSleep
    | FallAsleep
    | Wake
    | Lower
    | Clear
    | Release

  function Pc(s: State, id: nat): CallerPc {
    if id in s.callers then s.callers[id] else Outside
  }

  /** The program counter of the caller that holds the mutex. */
  function Active(s: State): CallerPc {
    if s.owner.Caller? then Pc(s, s.owner.id) else Outside
  }

  /** The state dragonboard_schedtune_power_init leaves behind, at clock reading `clock`: the
      semaphore starts at 1 and no boost is pending. */
  function Initial(clock: int): State {
    State(clock, Nobody, 1, 0, Normal, Waiting, map[], [], None, 0, 0)
  }

  predicate Enabled(s: State, a: Action) {
    match a
    case Tick(_) => true
    case Enter(id, _) => Pc(s, id) == Outside && s.owner == Nobody
    case Sample(id) => Pc(s, id) == Entered(Interaction)
    case Raise(id) => Pc(s, id).Sampled? && s.deadline == 0
    case Post(id) => Pc(s, id).Raised?
    case Store(id) => (Pc(s, id).Sampled? && s.deadline != 0) || Pc(s, id).Posted?
    case Leave(id) => Pc(s, id) == Stored || Pc(s, id) == Entered(OtherHint)
    case TakeToken => s.deboost == Waiting && s.semaphore > 0
    case Acquire => s.deboost == Contending && s.owner == Nobody
    case ReadClock => s.deboost == Holding
    case ChooseSleep => s.deboost.Read? && s.deadline > s.deboost.now
    case ReleaseToSleep => s.deboost.Releasing?
    case FallAsleep => s.deboost.Dozing?
    case Wake => s.deboost.Sleeping?
    case Lower => s.deboost.Read? && s.deadline <= s.deboost.now
    case Clear => s.deboost == Lowered
    case Release => s.deboost == Cleared
  }

  /** One step. `boost` is schedtune_boost_time_ns. */
  function Apply(s: State, a: Action, boost: int): State
    requires Enabled(s, a)
  {
    match a
    case Tick(ns) => s.(clock := s.clock + ns)
    case Enter(id, kind) => s.(owner := Caller(id), callers := s.callers[id := Entered(kind)])
    case Sample(id) => s.(callers := s.callers[id := Sampled(s.clock)])
    case Raise(id) =>
      s.(sysfs := Interactive, writes := s.writes + [Interactive],
         callers := s.callers[id := Raised(Pc(s, id).at)])
    case Post(id) =>
      s.(semaphore := s.semaphore + 1, callers := s.callers[id := Posted(Pc(s, id).at)])
    case Store(id) =>
      s.(deadline := Pc(s, id).at + boost, callers := s.callers[id := Stored],
         episodeHints := s.episodeHints + 1)
    case Leave(id) => s.(owner := Nobody, callers := s.callers[id := Outside])
    case TakeToken => s.(semaphore := s.semaphore - 1, deboost := Contending)
    case Acquire => s.(owner := Deboost, deboost := Holding)
    case ReadClock => s.(deboost := Read(s.clock))
    case ChooseSleep =>
      s.(deboost := Releasing(s.deadline - s.deboost.now), loopSleeps := s.loopSleeps + 1)
    case ReleaseToSleep => s.(owner := Nobody, deboost := Dozing(s.deboost.sleep))
    case FallAsleep => s.(deboost := Sleeping(s.clock + s.deboost.sleep))
    case Wake => s.(deboost := Contending)
    case Lower =>
      s.(sysfs := Normal, writes := s.writes + [Normal], deboost := Lowered,
         redundant := if s.deadline == 0 then Some(|s.writes|) else s.redundant)
    case Clear => s.(deadline := 0, deboost := Cleared, episodeHints := 0, loopSleeps := 0)
    case Release => s.(owner := Nobody, deboost := Waiting)
  }

  /** Every step of `acts` is enabled when its turn comes. */
  predicate Runs(s: State, acts: seq<Action>, boost: int)
    decreases |acts|
  {
    acts == [] || (Enabled(s, acts[0]) && Runs(Apply(s, acts[0], boost), acts[1..], boost))
  }

  function Run(s: State, acts: seq<Action>, boost: int): State
    requires Runs(s, acts, boost)
    decreases |acts|
  {
    if acts == [] then s else Run(Apply(s, acts[0], boost), acts[1..], boost)
  }

  /** `s` is reached from the state the initialiser leaves behind by some interleaving. The initialiser
      runs at a non-negative clock reading at which a boost deadline would already be positive. */
  ghost predicate Reachable(s: State, boost: int) {
    exists clock: int, acts: seq<Action> ::
      clock >= 0 && clock + boost > 0 && Runs(Initial(clock), acts, boost) && s == Run(Initial(clock), acts, boost)
  }

  // ---------------------------------------------------------------- counting

  predicate HoldsToken(pc: DeboostPc) {
    !pc.Waiting? && !pc.Cleared?
  }

  predicate InCritical(pc: DeboostPc) {
    pc.Holding? || pc.Read? || pc.Releasing? || pc.Lowered? || pc.Cleared?
  }

  /** Wake-ups available: posted and not yet taken, or taken and not yet used up by a reset. */
  function Tokens(s: State): nat {
    s.semaphore + (if HoldsToken(s.deboost) then 1 else 0)
  }

  /** A reset is owed while a deadline is set, or a caller has posted and is about to set it. */
  predicate ResetOwed(s: State) {
    s.deadline != 0 || Active(s).Posted?
  }

  function Surplus(s: State): int {
    Tokens(s) - (if ResetOwed(s) then 1 else 0)
  }

  /** The sysfs value a consistent state must have: interactive from the moment a caller raises it
      until the de-boost thread lowers it. */
  predicate ShouldBeInteractive(s: State) {
    match Active(s)
    case Raised(_) => true
    case Posted(_) => true
    case _ => s.deadline != 0 && !s.deboost.Lowered?
  }

  // ---------------------------------------------------------------- trace shape

  /** interactive, normal, interactive, normal, ... */
  predicate Alternating(w: seq<Level>) {
    forall i :: 0 <= i < |w| ==> w[i] == (if i % 2 == 0 then Interactive else Normal)
  }

  function Without<T>(w: seq<T>, k: nat): seq<T>
    requires k < |w|
  {
    w[..k] + w[k + 1..]
  }

  /** The writes that remain once the redundant one, if any, is deleted. */
  function Core(s: State): seq<Level>
    requires s.redundant.Some? ==> s.redundant.value < |s.writes|
  {
    if s.redundant.Some? then Without(s.writes, s.redundant.value) else s.writes
  }

  predicate TraceInv(s: State) {
    && (s.redundant.Some? ==> s.redundant.value < |s.writes| && s.writes[s.redundant.value] == Normal)
    && (s.redundant.Some? <==> Surplus(s) == 0 || (s.deboost == Lowered && s.deadline == 0))
    && Alternating(Core(s))
    && (|Core(s)| % 2 == 1 <==> s.sysfs == Interactive)
  }

  // ---------------------------------------------------------------- the invariant

  predicate MutexInv(s: State) {
    && (forall id :: id in s.callers && s.callers[id] != Outside ==> s.owner == Caller(id))
    && (s.owner.Caller? ==> Active(s) != Outside)
    && (InCritical(s.deboost) <==> s.owner == Deboost)
  }

  predicate TimeInv(s: State, boost: int) {
    && s.clock >= 0 && s.clock + boost > 0
    && (s.deadline == 0 || 0 < s.deadline <= s.clock + boost)
    && (match Active(s)
        case Sampled(at) => 0 < at + boost && at <= s.clock && s.deadline <= at + boost
        case Raised(at) => 0 < at + boost && at <= s.clock && s.deadline == 0
        case Posted(at) => 0 < at + boost && at <= s.clock && s.deadline == 0
        case Stored => s.deadline != 0
        case _ => true)
    && (match s.deboost
        case Read(now) => 0 <= now <= s.clock
        case Releasing(sleep) => sleep > 0 && s.deadline <= s.clock + sleep && s.deadline != 0
        case Dozing(sleep) => sleep > 0 && s.deadline != 0
        case Sleeping(_) => s.deadline != 0
        case Lowered => s.deadline <= s.clock
        case Cleared => s.deadline == 0
        case _ => true)
  }

  predicate CountInv(s: State) {
    && 0 <= Surplus(s) <= 1
    && (s.sysfs == Interactive <==> ShouldBeInteractive(s))
  }

  predicate Inv(s: State, boost: int) {
    MutexInv(s) && TimeInv(s, boost) && CountInv(s) && TraceInv(s)
  }
}

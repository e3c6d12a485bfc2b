/** Progress of the de-boost thread when nanosleep sleeps its full time. */
module TouchBoostProgress {
  import opened TouchBoost
  import opened TouchBoostSafety

  /** No early wake-up: nanosleep returns only once the clock has reached its target. */
  predicate SleptInFull(s: State, a: Action) {
    a == Wake && s.deboost.Sleeping? ==> s.clock >= s.deboost.until
  }

  predicate RunsSleepingInFull(s: State, acts: seq<Action>, boost: int)
    decreases |acts|
  {
    acts == [] ||
    (Enabled(s, acts[0]) && SleptInFull(s, acts[0]) && RunsSleepingInFull(Apply(s, acts[0], boost), acts[1..], boost))
  }

  /** The clock reading that the next check of the deadline is sure to have reached. */
  function Horizon(s: State): int {
    match s.deboost
    case Read(now) => now
    case Releasing(sleep) => s.clock + sleep
    case Dozing(sleep) => s.clock + sleep
    case Sleeping(until) => if until > s.clock then until else s.clock
    case _ => s.clock
  }

  /** The next check may find the deadline still ahead. */
  predicate Unsettled(s: State) {
    s.deadline > Horizon(s)
  }

  // ---------------------------------------------------------------- sleeps against hints

  predicate SleepInv(s: State, boost: int) {
    && Inv(s, boost)
    && (s.deadline == 0 ==> s.loopSleeps == 0)
    && (s.deadline == 0 <==> s.episodeHints == 0)
    && (!HoldsToken(s.deboost) ==> s.loopSleeps == 0)
    && s.loopSleeps + (if Unsettled(s) then 1 else 0) <= s.episodeHints
  }

  lemma SleepStep(s: State, a: Action, boost: int)
    requires SleepInv(s, boost) && Enabled(s, a) && SleptInFull(s, a)
    ensures SleepInv(Apply(s, a, boost), boost)
  {
    InvStep(s, a, boost);
  }

  lemma {:induction false} SleepRun(s: State, acts: seq<Action>, boost: int)
    requires SleepInv(s, boost) && RunsSleepingInFull(s, acts, boost)
    ensures Runs(s, acts, boost) && SleepInv(Run(s, acts, boost), boost)
    decreases |acts|
  {
    if acts != [] {
      SleepStep(s, acts[0], boost);
      SleepRun(Apply(s, acts[0], boost), acts[1..], boost);
    }
  }

  /** In every reachable state the current inner loop has slept at most once per hint stored in the
      current boost episode. */
  lemma SleepsBoundedByHints(clock: int, acts: seq<Action>, boost: int)
    requires clock >= 0 && clock + boost > 0 && RunsSleepingInFull(Initial(clock), acts, boost)
    ensures Runs(Initial(clock), acts, boost)
    ensures Run(Initial(clock), acts, boost).loopSleeps <= Run(Initial(clock), acts, boost).episodeHints
  {
    InitialInv(clock, boost);
    SleepRun(Initial(clock), acts, boost);
  }

  // ---------------------------------------------------------------- the measure

  /** Steps the de-boost thread still has to take before it waits again, if no further hint comes. */
  function Rank(s: State): nat {
    (match s.deboost
     case Waiting => 0
     case Cleared => 1
     case Lowered => 2
     case Read(_) => 3
     case Holding => 4
     case Contending => 5
     case Sleeping(_) => 6
     case Dozing(_) => 7
     case Releasing(_) => 8)
    + (if Unsettled(s) && !s.deboost.Waiting? && !s.deboost.Cleared? then 6 else 0)
  }

  predicate DeboostStep(a: Action) {
    a.TakeToken? || a.Acquire? || a.ReadClock? || a.ChooseSleep? || a.ReleaseToSleep? || a.FallAsleep?
    || a.Wake? || a.Lower? || a.Clear? || a.Release?
  }

  function DeboostSteps(acts: seq<Action>): nat {
    if acts == [] then 0 else (if DeboostStep(acts[0]) then 1 else 0) + DeboostSteps(acts[1..])
  }

  function Stores(acts: seq<Action>): nat {
    if acts == [] then 0 else (if acts[0].Store? then 1 else 0) + Stores(acts[1..])
  }

  lemma RankStep(s: State, a: Action, boost: int)
    requires Inv(s, boost) && Enabled(s, a) && SleptInFull(s, a) && a != TakeToken
    ensures DeboostStep(a) ==> Rank(Apply(s, a, boost)) < Rank(s)
    ensures a.Store? ==> Rank(Apply(s, a, boost)) <= Rank(s) + 6
    ensures !DeboostStep(a) && !a.Store? ==> Rank(Apply(s, a, boost)) <= Rank(s)
  {}

  /** Progress: inside one inner loop every step of the de-boost thread is paid for out of a budget of
      its rank plus 6 for each deadline stored meanwhile. So once hints stop, at most 14 more steps of
      its own lead it through the reset and back to the semaphore. */
  lemma {:induction false} DeboostStepsAreBounded(s: State, acts: seq<Action>, boost: int)
    requires Inv(s, boost) && RunsSleepingInFull(s, acts, boost) && TakeToken !in acts
    ensures Runs(s, acts, boost)
    ensures DeboostSteps(acts) + Rank(Run(s, acts, boost)) <= Rank(s) + 6 * Stores(acts)
    ensures Rank(s) <= 14
    decreases |acts|
  {
    if acts != [] {
      RankStep(s, acts[0], boost);
      InvStep(s, acts[0], boost);
      DeboostStepsAreBounded(Apply(s, acts[0], boost), acts[1..], boost);
    }
  }

  lemma {:induction false} ResetClearsDeadline(s: State, acts: seq<Action>, boost: int)
    requires Runs(s, acts, boost) && TakeToken !in acts && Stores(acts) == 0
    requires !HoldsToken(s.deboost) ==> s.deadline == 0
    ensures var e := Run(s, acts, boost); !HoldsToken(e.deboost) ==> e.deadline == 0
    decreases |acts|
  {
    if acts != [] {
      ResetClearsDeadline(Apply(s, acts[0], boost), acts[1..], boost);
    }
  }

  lemma {:induction false} DeadlineKeptUntilReset(s: State, acts: seq<Action>, boost: int)
    requires Runs(s, acts, boost) && Stores(acts) == 0
    ensures Run(s, acts, boost).deadline == s.deadline || Run(s, acts, boost).deadline == 0
    decreases |acts|
  {
    if acts != [] {
      DeadlineKeptUntilReset(Apply(s, acts[0], boost), acts[1..], boost);
    }
  }

  lemma EndsWithinRank(s: State, acts: seq<Action>, boost: int)
    requires Inv(s, boost) && RunsSleepingInFull(s, acts, boost) && HoldsToken(s.deboost)
    requires TakeToken !in acts && Stores(acts) == 0
    ensures Runs(s, acts, boost) && DeboostSteps(acts) <= Rank(s)
    ensures DeboostSteps(acts) == Rank(s) ==> Run(s, acts, boost).deboost == Waiting
    ensures Run(s, acts, boost).deboost == Waiting ==> Over(Run(s, acts, boost))
  {
    DeboostStepsAreBounded(s, acts, boost);
    InvRun(s, acts, boost);
    ResetClearsDeadline(s, acts, boost);
  }

  /** The boost is over: the thread is back at the semaphore, the deadline is cleared, and the normal value is in
      place unless a new caller is already inside. */
  predicate Over(s: State) {
    s.deboost == Waiting && s.deadline == 0 && (s.owner == Nobody ==> s.sysfs == Normal)
  }

  /** Once hints stop, a boost ends: from any reachable state in which the de-boost thread is awake, in a run with
      no further deadline stored, that thread is back at the semaphore after at most as many steps as its rank,
      and whenever it is back the boost is over. */
  lemma BoostEndsOnceHintsStop(s: State, acts: seq<Action>, boost: int)
    requires Reachable(s, boost) && HoldsToken(s.deboost)
    requires RunsSleepingInFull(s, acts, boost) && TakeToken !in acts && Stores(acts) == 0
    ensures Runs(s, acts, boost) && DeboostSteps(acts) <= Rank(s)
    ensures DeboostSteps(acts) == Rank(s) ==> Run(s, acts, boost).deboost == Waiting
    ensures Run(s, acts, boost).deboost == Waiting ==> Over(Run(s, acts, boost))
  {
    ReachableInv(s, boost);
    EndsWithinRank(s, acts, boost);
  }

  /** The state in which the thread has taken the token waiting for it, if it still was at the semaphore. */
  function Woken(s: State, boost: int): State {
    if Enabled(s, TakeToken) then Apply(s, TakeToken, boost) else s
  }

  /** A boost ends on time: however the run goes on after a hint has stored its deadline, early wake-ups
      included, as long as no other deadline is stored, once the clock has reached the sample plus the boost time
      the boost is over already, or the thread, having taken its token if it still has to, is back at the
      semaphore within nine of its own steps, and then the boost is over. */
  lemma BoostEndsOnTime(s: State, boost: int, id: nat, after: seq<Action>, more: seq<Action>)
    requires Reachable(s, boost) && Enabled(s, Store(id))
    requires Runs(Apply(s, Store(id), boost), after, boost) && Stores(after) == 0
    requires Run(Apply(s, Store(id), boost), after, boost).clock >= Pc(s, id).at + boost
    requires RunsSleepingInFull(Woken(Run(Apply(s, Store(id), boost), after, boost), boost), more, boost)
    requires TakeToken !in more && Stores(more) == 0
    ensures var e := Run(Apply(s, Store(id), boost), after, boost);
      var woken := Woken(e, boost);
      && (e.deadline == Pc(s, id).at + boost || e.deadline == 0)
      && (!HoldsToken(woken.deboost) ==> e.deadline == 0)
      && (HoldsToken(woken.deboost) ==>
            && Runs(woken, more, boost) && DeboostSteps(more) <= Rank(woken) <= 9
            && (DeboostSteps(more) == Rank(woken) ==> Run(woken, more, boost).deboost == Waiting)
            && (Run(woken, more, boost).deboost == Waiting ==> Over(Run(woken, more, boost))))
  {
    ReachableInv(s, boost);
    var s1 := Apply(s, Store(id), boost);
    InvStep(s, Store(id), boost);
    InvRun(s1, after, boost);
    DeadlineKeptUntilReset(s1, after, boost);
    var e := Run(s1, after, boost);
    var woken := Woken(e, boost);
    if Enabled(e, TakeToken) {
      InvStep(e, TakeToken, boost);
    }
    if HoldsToken(woken.deboost) {
      EndsWithinRank(woken, more, boost);
    }
  }

  // ---------------------------------------------------------------- nothing blocks for ever

  /** The step a caller inside the critical section takes next. */
  function CallerStep(s: State, id: nat): Action {
    match Pc(s, id)
    case Outside => Enter(id, OtherHint)
    case Entered(Interaction) => Sample(id)
    case Entered(OtherHint) => Leave(id)
    case Sampled(_) => if s.deadline == 0 then Raise(id) else Store(id)
    case Raised(_) => Post(id)
    case Posted(_) => Store(id)
    case Stored => Leave(id)
  }

  function CallerRank(pc: CallerPc): nat {
    match pc
    case Outside => 0
    case Stored => 1
    case Posted(_) => 2
    case Raised(_) => 3
    case Sampled(_) => 4
    case Entered(_) => 5
  }

  /** A caller that holds the mutex can always move, and reaches the exit within five steps. */
  lemma CallersLeave(s: State, boost: int)
    requires Reachable(s, boost) && s.owner.Caller?
    ensures var a := CallerStep(s, s.owner.id);
      && Enabled(s, a)
      && CallerRank(Active(s)) <= 5
      && CallerRank(Pc(Apply(s, a, boost), s.owner.id)) < CallerRank(Active(s))
  {
    ReachableInv(s, boost);
  }

  /** The step the de-boost thread takes next, once nothing blocks it. */
  function NextDeboostStep(s: State): Action {
    match s.deboost
    case Waiting => TakeToken
    case Contending => Acquire
    case Holding => ReadClock
    case Read(now) => if s.deadline > now then ChooseSleep else Lower
    case Releasing(_) => ReleaseToSleep
    case Dozing(_) => FallAsleep
    case Sleeping(_) => Wake
    case Lowered => Clear
    case Cleared => Release
  }

  /** With a reset owed, the de-boost thread is never stuck: its next step is enabled and, after the
      clock has run on where it sleeps, slept in full; unless a caller holds the mutex it needs. */
  lemma OwedResetIsNeverStuck(s: State, boost: int)
    requires Reachable(s, boost) && ResetOwed(s)
    ensures
      var wait := if s.deboost.Sleeping? && s.deboost.until > s.clock then s.deboost.until - s.clock else 0;
      var later := Apply(s, Tick(wait), boost);
      || (Enabled(later, NextDeboostStep(later)) && SleptInFull(later, NextDeboostStep(later)))
      || (s.deboost == Contending && s.owner.Caller?)
  {
    ReachableInv(s, boost);
  }

  /** When the thread is back at the semaphore, the boost it woke for is over: the run up to that point
      has cleared the deadline, and a deadline set now belongs to a later hint with its own token. */
  lemma BackAtSemaphore(s: State, boost: int)
    requires Reachable(s, boost) && s.deboost == Waiting && s.owner == Nobody
    ensures s.sysfs == Normal || s.semaphore > 0
    ensures s.sysfs == Normal <==> s.deadline == 0
  {
    ReachableInv(s, boost);
  }

  // ---------------------------------------------------------------- how long the thread sleeps

  /** Neither a choice to sleep nor a return to sleep, only what may happen between the two. */
  predicate BeforeSleep(acts: seq<Action>) {
    forall a :: a in acts ==> !a.FallAsleep? && !a.ChooseSleep? && !a.Wake?
  }

  predicate AboutToSleep(s: State, sleep: int) {
    s.deboost == Releasing(sleep) || s.deboost == Dozing(sleep)
  }

  lemma {:induction false} SleepIsKept(s: State, acts: seq<Action>, boost: int, sleep: int)
    requires AboutToSleep(s, sleep) && Runs(s, acts, boost) && BeforeSleep(acts)
    ensures AboutToSleep(Run(s, acts, boost), sleep)
    decreases |acts|
  {
    if acts != [] {
      assert acts[0] in acts;
      SleepIsKept(Apply(s, acts[0], boost), acts[1..], boost, sleep);
    }
  }

  /** The thread never oversleeps: it wakes at the deadline it read, later only by the time that went by between
      its reading of the clock and its falling asleep, whatever hints came in meanwhile. */
  lemma SleepsUntilDeadline(s: State, acts: seq<Action>, boost: int)
    requires Enabled(s, ChooseSleep)
    requires Runs(Apply(s, ChooseSleep, boost), acts, boost) && BeforeSleep(acts)
    requires Enabled(Run(Apply(s, ChooseSleep, boost), acts, boost), FallAsleep)
    ensures var e := Run(Apply(s, ChooseSleep, boost), acts, boost);
      Apply(e, FallAsleep, boost).deboost == Sleeping(s.deadline + (e.clock - s.deboost.now))
  {
    SleepIsKept(Apply(s, ChooseSleep, boost), acts, boost, s.deadline - s.deboost.now);
  }
}

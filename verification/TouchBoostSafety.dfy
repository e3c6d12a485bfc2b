/** What every interleaving of the touch-boost protocol keeps. */
module TouchBoostSafety {
  import opened TouchBoost

  // ---------------------------------------------------------------- one step

  lemma MutexStep(s: State, a: Action, boost: int)
    requires MutexInv(s) && Enabled(s, a)
    ensures MutexInv(Apply(s, a, boost))
  {}

  lemma TimeStep(s: State, a: Action, boost: int)
    requires MutexInv(s) && TimeInv(s, boost) && Enabled(s, a)
    ensures TimeInv(Apply(s, a, boost), boost)
  {}

  /** The surplus of wake-ups over resets owed never grows, and only a reset with nothing to reset
      uses it up. */
  lemma SurplusStep(s: State, a: Action, boost: int)
    requires MutexInv(s) && TimeInv(s, boost) && CountInv(s) && Enabled(s, a)
    ensures CountInv(Apply(s, a, boost))
    ensures Surplus(Apply(s, a, boost))
         == Surplus(s) - (if a == Clear && s.deadline == 0 then 1 else 0)
  {
    MutexStep(s, a, boost);
    TimeStep(s, a, boost);
  }

  lemma AppendAlternates(w: seq<Level>, x: Level)
    requires Alternating(w) && x == (if |w| % 2 == 0 then Interactive else Normal)
    ensures Alternating(w + [x])
  {}

  lemma WithoutAppend<T>(w: seq<T>, x: T, k: nat)
    requires k < |w|
    ensures Without(w + [x], k) == Without(w, k) + [x]
  {}

  lemma WithoutLast<T>(w: seq<T>, x: T)
    ensures Without(w + [x], |w|) == w
  {}

  lemma TraceStep(s: State, a: Action, boost: int)
    requires Inv(s, boost) && Enabled(s, a)
    ensures TraceInv(Apply(s, a, boost))
  {
    SurplusStep(s, a, boost);
    if a.Raise? || a.Lower? {
      var x := if a.Raise? then Interactive else Normal;
      if s.redundant.Some? {
        WithoutAppend(s.writes, x, s.redundant.value);
      }
      if a.Lower? && s.deadline == 0 {
        WithoutLast(s.writes, x);
      } else {
        AppendAlternates(Core(s), x);
        assert Core(Apply(s, a, boost)) == Core(s) + [x];
      }
    }
  }

  lemma InvStep(s: State, a: Action, boost: int)
    requires Inv(s, boost) && Enabled(s, a)
    ensures Inv(Apply(s, a, boost), boost)
  {
    MutexStep(s, a, boost);
    TimeStep(s, a, boost);
    SurplusStep(s, a, boost);
    TraceStep(s, a, boost);
  }

  // ---------------------------------------------------------------- whole runs

  /** The counting invariant over any run: the surplus is 0 or 1 in every state and never grows. */
  lemma {:induction false} InvRun(s: State, acts: seq<Action>, boost: int)
    requires Inv(s, boost) && Runs(s, acts, boost)
    ensures Inv(Run(s, acts, boost), boost)
    ensures Surplus(Run(s, acts, boost)) <= Surplus(s)
    ensures Run(s, acts, boost).clock >= s.clock
    decreases |acts|
  {
    if acts != [] {
      InvStep(s, acts[0], boost);
      SurplusStep(s, acts[0], boost);
      InvRun(Apply(s, acts[0], boost), acts[1..], boost);
    }
  }

  lemma InitialInv(clock: int, boost: int)
    requires clock >= 0 && clock + boost > 0
    ensures Inv(Initial(clock), boost) && Surplus(Initial(clock)) == 1
  {}

  lemma ReachableInv(s: State, boost: int)
    requires Reachable(s, boost)
    ensures Inv(s, boost)
  {
    var clock: int, acts: seq<Action> :|
      clock >= 0 && clock + boost > 0 && Runs(Initial(clock), acts, boost) && s == Run(Initial(clock), acts, boost);
    InitialInv(clock, boost);
    InvRun(Initial(clock), acts, boost);
  }

  /** No lost wake-up: whenever a reset is owed, a wake-up for it is posted or in the hands of the
      de-boost thread; and the semaphore never exceeds 2. */
  lemma NoLostWakeUp(s: State, boost: int)
    requires Reachable(s, boost)
    ensures ResetOwed(s) ==> s.semaphore > 0 || HoldsToken(s.deboost)
    ensures s.semaphore <= 2
    ensures s.semaphore == 2 ==> ResetOwed(s) && !HoldsToken(s.deboost)
  {
    ReachableInv(s, boost);
  }

  /** Resets made with no boost pending: the Clear steps taken at deadline zero. */
  function RedundantResets(s: State, acts: seq<Action>, boost: int): nat
    requires Runs(s, acts, boost)
    decreases |acts|
  {
    if acts == [] then 0
    else (if acts[0] == Clear && s.deadline == 0 then 1 else 0)
         + RedundantResets(Apply(s, acts[0], boost), acts[1..], boost)
  }

  /** Conservation: every redundant reset uses up surplus, so a whole run from the initial state has
      at most one, and it has one exactly when the surplus is gone. */
  lemma {:induction false} SurplusPaysForRedundantResets(s: State, acts: seq<Action>, boost: int)
    requires Inv(s, boost) && Runs(s, acts, boost)
    ensures Surplus(Run(s, acts, boost)) + RedundantResets(s, acts, boost) == Surplus(s)
    decreases |acts|
  {
    if acts != [] {
      InvStep(s, acts[0], boost);
      SurplusStep(s, acts[0], boost);
      SurplusPaysForRedundantResets(Apply(s, acts[0], boost), acts[1..], boost);
    }
  }

  lemma AtMostOneRedundantReset(clock: int, acts: seq<Action>, boost: int)
    requires clock >= 0 && clock + boost > 0 && Runs(Initial(clock), acts, boost)
    ensures RedundantResets(Initial(clock), acts, boost) <= 1
    ensures RedundantResets(Initial(clock), acts, boost) == 1 <==> Surplus(Run(Initial(clock), acts, boost)) == 0
  {
    InitialInv(clock, boost);
    InvRun(Initial(clock), acts, boost);
    SurplusPaysForRedundantResets(Initial(clock), acts, boost);
  }

  /** Trace shape: deleting at most one "normal" write leaves interactive, normal, interactive, ...;
      and whenever the mutex is free the sysfs value is interactive exactly when a deadline is set. */
  lemma TraceShape(s: State, boost: int)
    requires Reachable(s, boost)
    ensures Alternating(s.writes)
         || exists k :: 0 <= k < |s.writes| && s.writes[k] == Normal && Alternating(Without(s.writes, k))
    ensures s.owner == Nobody ==> (s.sysfs == Interactive <==> s.deadline != 0)
  {
    ReachableInv(s, boost);
    if s.redundant.Some? {
      var k := s.redundant.value;
      assert Core(s) == Without(s.writes, k);
    }
  }

  lemma {:induction false} SysfsIsLastWrite(s: State, acts: seq<Action>, boost: int)
    requires Runs(s, acts, boost)
    requires s.writes != [] ==> s.sysfs == s.writes[|s.writes| - 1]
    ensures var e := Run(s, acts, boost); e.writes != [] ==> e.sysfs == e.writes[|e.writes| - 1]
    ensures s.writes <= Run(s, acts, boost).writes
    decreases |acts|
  {
    if acts != [] {
      SysfsIsLastWrite(Apply(s, acts[0], boost), acts[1..], boost);
    }
  }

  /** Mutual exclusion: two threads are never inside the critical section together. */
  lemma MutualExclusion(s: State, boost: int, id: nat, other: nat)
    requires Reachable(s, boost) && Pc(s, id) != Outside
    ensures !InCritical(s.deboost)
    ensures other != id ==> Pc(s, other) == Outside
  {
    ReachableInv(s, boost);
  }

  // ---------------------------------------------------------------- boost coverage

  /** Until clock reading `due` the deadline cannot fall below `due` and no reset can be under way. */
  predicate Covered(s: State, boost: int, due: int) {
    && Inv(s, boost)
    && (s.clock < due ==>
        && s.deadline >= due
        && s.deboost != Lowered && s.deboost != Cleared)
  }

  lemma CoveredStep(s: State, a: Action, boost: int, due: int)
    requires Covered(s, boost, due) && due > 0 && Enabled(s, a)
    ensures Covered(Apply(s, a, boost), boost, due)
  {
    InvStep(s, a, boost);
  }

  lemma {:induction false} CoveredRun(s: State, acts: seq<Action>, boost: int, due: int)
    requires Covered(s, boost, due) && due > 0 && Runs(s, acts, boost)
    ensures Covered(Run(s, acts, boost), boost, due)
    decreases |acts|
  {
    if acts != [] {
      CoveredStep(s, acts[0], boost, due);
      CoveredRun(Apply(s, acts[0], boost), acts[1..], boost, due);
    }
  }

  /** Boost coverage: once a caller has stored the deadline of a hint it sampled at time t, the sysfs
      value is interactive in every later state whose clock reads less than t + boost, whatever the
      other callers, early wake-ups and the initial token do in between. */
  lemma BoostCoverage(s: State, boost: int, id: nat, after: seq<Action>)
    requires Reachable(s, boost) && Enabled(s, Store(id))
    requires Runs(Apply(s, Store(id), boost), after, boost)
    ensures var e := Run(Apply(s, Store(id), boost), after, boost);
      e.clock < Pc(s, id).at + boost ==> e.sysfs == Interactive && e.deadline >= Pc(s, id).at + boost
  {
    ReachableInv(s, boost);
    var due := Pc(s, id).at + boost;
    InvStep(s, Store(id), boost);
    CoveredRun(Apply(s, Store(id), boost), after, boost, due);
  }

  // ---------------------------------------------------------------- other hints

  /** No caller of the run gives an interaction hint. */
  predicate NoInteraction(acts: seq<Action>) {
    forall a :: a in acts && a.Enter? ==> a.kind == OtherHint
  }

  /** Nobody is inside with an interaction hint, and nothing is or was boosted. */
  predicate Quiet(s: State) {
    && (forall id :: id in s.callers ==> s.callers[id] == Outside || s.callers[id] == Entered(OtherHint))
    && s.deadline == 0 && s.sysfs == Normal && Interactive !in s.writes
  }

  lemma QuietStep(s: State, a: Action, boost: int)
    requires Quiet(s) && Enabled(s, a) && (a.Enter? ==> a.kind == OtherHint)
    ensures Quiet(Apply(s, a, boost)) && Apply(s, a, boost).semaphore <= s.semaphore
  {}

  /** Only interaction hints boost: a run without one never sets a deadline, never writes the interactive value
      and posts no wake-up. */
  lemma {:induction false} OtherHintsNeverBoost(s: State, acts: seq<Action>, boost: int)
    requires Quiet(s) && Runs(s, acts, boost) && NoInteraction(acts)
    ensures Quiet(Run(s, acts, boost)) && Run(s, acts, boost).semaphore <= s.semaphore
    decreases |acts|
  {
    if acts != [] {
      QuietStep(s, acts[0], boost);
      OtherHintsNeverBoost(Apply(s, acts[0], boost), acts[1..], boost);
    }
  }

  lemma InitiallyQuiet(clock: int)
    ensures Quiet(Initial(clock))
  {}
}

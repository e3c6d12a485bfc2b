/** Every schedule of turns of the inner loop of schedtune_deboost_thread is a run of the protocol. */
module PowerTurns {
  import opened TouchBoost
  import opened PowerModule

  /** The sleeps a run asks for, in order. */
  function ChosenSleeps(s: State, acts: seq<Action>, boost: int): seq<int>
    requires Runs(s, acts, boost)
    decreases |acts|
  {
    if acts == [] then []
    else (if acts[0].ChooseSleep? then [s.deadline - s.deboost.now] else [])
         + ChosenSleeps(Apply(s, acts[0], boost), acts[1..], boost)
  }

  lemma {:induction false} ChosenAppend(s: State, acts: seq<Action>, more: seq<Action>, boost: int)
    requires Runs(s, acts, boost) && Runs(Run(s, acts, boost), more, boost)
    ensures Runs(s, acts + more, boost) && Run(s, acts + more, boost) == Run(Run(s, acts, boost), more, boost)
    ensures ChosenSleeps(s, acts + more, boost)
         == ChosenSleeps(s, acts, boost) + ChosenSleeps(Run(s, acts, boost), more, boost)
    decreases |acts|
  {
    RunAppend(s, acts, more, boost);
    if acts == [] {
      assert acts + more == more;
    } else {
      assert (acts + more)[1..] == acts[1..] + more;
      ChosenAppend(Apply(s, acts[0], boost), acts[1..], more, boost);
    }
  }

  lemma {:induction false} NothingChosen(s: State, acts: seq<Action>, boost: int)
    requires Runs(s, acts, boost) && ChooseSleep !in acts
    ensures ChosenSleeps(s, acts, boost) == []
    decreases |acts|
  {
    if acts != [] {
      NothingChosen(Apply(s, acts[0], boost), acts[1..], boost);
    }
  }

  lemma OneStep(s: State, a: Action, boost: int)
    requires Enabled(s, a) && a != ChooseSleep
    ensures Runs(s, [a], boost) && Run(s, [a], boost) == Apply(s, a, boost) && ChosenSleeps(s, [a], boost) == []
  {
    var e := Apply(s, a, boost);
    assert [a][1..] == [];
    assert Runs(e, [], boost) && Run(e, [], boost) == e;
  }

  /** Clock readings that a run can have: from `clock` on they never go back. */
  predicate Timed(clock: int, readings: seq<int>, end: int)
    decreases |readings|
  {
    if readings == [] then clock <= end else clock <= readings[0] && Timed(readings[0], readings[1..], end)
  }

  predicate TimedTurns(clock: int, turns: seq<Turn>)
    decreases |turns|
  {
    turns == [] || (Timed(clock, turns[0].hints, turns[0].now) && TimedTurns(turns[0].now, turns[1..]))
  }

  /** The mutex is free, caller 0 is outside, and the de-boost thread is about to check or asleep. */
  predicate BetweenTurns(s: State) {
    s.owner == Nobody && Pc(s, 0) == Outside && (s.deboost == Contending || s.deboost.Sleeping?)
  }

  lemma {:induction false} HintsAreARun(s: State, boost: int, hints: seq<int>, now: int) returns (acts: seq<Action>)
    requires BetweenTurns(s) && Timed(s.clock, hints, now)
    ensures Runs(s, acts, boost) && ChosenSleeps(s, acts, boost) == []
    ensures var e := Run(s, acts, boost);
      && ViewOf(e) == AfterHints(ViewOf(s), boost, hints) && e.clock == now
      && BetweenTurns(e) && e.deboost == s.deboost
    decreases |hints|
  {
    var next := if hints == [] then now else hints[0];
    var wait := Tick(next - s.clock);
    OneStep(s, wait, boost);
    acts := [wait];
    if hints != [] {
      var s1 := Apply(s, wait, boost);
      HintIsAtomic(s1, 0, boost);
      NothingChosen(s1, HintSteps(s1, 0), boost);
      ChosenAppend(s, [wait], HintSteps(s1, 0), boost);
      var first := [wait] + HintSteps(s1, 0);
      var rest := HintsAreARun(Run(s, first, boost), boost, hints[1..], now);
      ChosenAppend(s, first, rest, boost);
      acts := first + rest;
    }
  }

  /** The check of a turn, from a thread that is about to check. */
  lemma CheckIsARun(s: State, boost: int) returns (acts: seq<Action>)
    requires BetweenTurns(s) && s.deboost == Contending
    ensures Runs(s, acts, boost)
    ensures var e, (v, sleep) := Run(s, acts, boost), AfterCheck(ViewOf(s), s.clock);
      && ViewOf(e) == v && e.clock == s.clock && e.owner == Nobody && Pc(e, 0) == Outside
      && e.deboost == (if sleep.Some? then Sleeping(s.clock + sleep.value) else Waiting)
      && ChosenSleeps(s, acts, boost) == (if sleep.Some? then [sleep.value] else [])
  {
    CheckIsAtomic(s, boost);
    acts := CheckSteps(s);
    if s.deadline > s.clock {
      ChecksChoice(s, boost);
      var e := Run(s, acts, boost);
      OneStep(e, FallAsleep, boost);
      ChosenAppend(s, acts, [FallAsleep], boost);
      acts := acts + [FallAsleep];
    } else {
      NothingChosen(s, acts, boost);
    }
  }

  lemma ChecksChoice(s: State, boost: int)
    requires s.owner == Nobody && s.deboost == Contending && s.deadline > s.clock
    ensures Runs(s, CheckSteps(s), boost)
    ensures ChosenSleeps(s, CheckSteps(s), boost) == [s.deadline - s.clock]
  {
    var look, choose := [Acquire, ReadClock], [ChooseSleep, ReleaseToSleep];
    AcquireAndRead(s, boost);
    NothingChosen(s, look, boost);
    var s2 := Run(s, look, boost);
    SleepAndRelease(s2, boost);
    assert choose[1..] == [ReleaseToSleep];
    NothingChosen(Apply(s2, ChooseSleep, boost), [ReleaseToSleep], boost);
    ChosenAppend(s, look, choose, boost);
  }

  lemma WakeUp(s: State, boost: int) returns (acts: seq<Action>)
    requires BetweenTurns(s)
    ensures Runs(s, acts, boost) && ChosenSleeps(s, acts, boost) == []
    ensures Run(s, acts, boost) == s.(deboost := Contending)
  {
    if s.deboost.Sleeping? {
      OneStep(s, Wake, boost);
      acts := [Wake];
    } else {
      acts := [];
    }
  }

  lemma OneTurn(s: State, boost: int, turn: Turn) returns (acts: seq<Action>)
    requires BetweenTurns(s) && Timed(s.clock, turn.hints, turn.now)
    ensures Runs(s, acts, boost)
    ensures var e := Run(s, acts, boost);
      var (v, sleep) := AfterCheck(AfterHints(ViewOf(s), boost, turn.hints), turn.now);
      && ViewOf(e) == v && e.clock == turn.now && e.owner == Nobody && Pc(e, 0) == Outside
      && e.deboost == (if sleep.Some? then Sleeping(turn.now + sleep.value) else Waiting)
      && ChosenSleeps(s, acts, boost) == (if sleep.Some? then [sleep.value] else [])
  {
    var hints := HintsAreARun(s, boost, turn.hints, turn.now);
    var s1 := Run(s, hints, boost);
    var wake := WakeUp(s1, boost);
    ChosenAppend(s, hints, wake, boost);
    var s2 := Run(s1, wake, boost);
    var check := CheckIsARun(s2, boost);
    ChosenAppend(s, hints + wake, check, boost);
    acts := hints + wake + check;
  }

  /** A schedule whose clock readings never go back is a run of the protocol: hints by one caller, waking where
      the thread slept, and checking. The run ends with the view, and has asked for the sleeps, that the inner
      loop computes; the thread is back at the semaphore exactly if the loop ended with a reset. */
  lemma {:induction false} TurnsAreARun(s: State, boost: int, turns: seq<Turn>) returns (acts: seq<Action>)
    requires BetweenTurns(s) && TimedTurns(s.clock, turns)
    ensures Runs(s, acts, boost)
    ensures var (v, sleeps), e := InnerLoop(ViewOf(s), boost, turns), Run(s, acts, boost);
      && ViewOf(e) == v && ChosenSleeps(s, acts, boost) == sleeps
      && (e.deboost == Waiting <==> |sleeps| < |turns|)
    decreases |turns|
  {
    acts := [];
    if turns != [] {
      acts := OneTurn(s, boost, turns[0]);
      var e := Run(s, acts, boost);
      if e.deboost.Sleeping? {
        var rest := TurnsAreARun(e, boost, turns[1..]);
        ChosenAppend(s, acts, rest, boost);
        acts := acts + rest;
      }
    }
  }
}

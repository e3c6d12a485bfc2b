/** The power HAL's module object, updated in place as the source does, and the proof that its critical
    sections are the atomic form of the interleaved protocol. */
module PowerModule {
  import opened Options
  import opened TouchBoost

  const NSEC_PER_SEC := 1_000_000_000

  /** What the critical sections read and write. */
  datatype View = View(deadline: int, semaphore: nat, sysfs: Level)

  function ViewOf(s: State): View {
    View(s.deadline, s.semaphore, s.sysfs)
  }

  /** The effect of one interaction hint whose clock reading is `now`. */
  function AfterHint(v: View, boost: int, now: int): View {
    if v.deadline == 0 then View(now + boost, v.semaphore + 1, Interactive)
    else v.(deadline := now + boost)
  }

  /** The effect of one check of the deadline, and the time to sleep if it is still ahead. */
  function AfterCheck(v: View, now: int): (View, Option<int>) {
    if v.deadline > now then (v, Some(v.deadline - now)) else (View(0, v.semaphore, Normal), None)
  }

  /** A hint leaves a boost running for the full boost time and posts a wake-up exactly if none was running; a
      check ends a boost that is due and otherwise changes nothing and sleeps until just when it is due. */
  lemma HintAndCheckMeet(v: View, boost: int, now: int, later: int)
    requires now + boost > 0
    ensures var h := AfterHint(v, boost, now);
      && h.deadline != 0 && (v.deadline == 0 ==> h.sysfs == Interactive)
      && h.semaphore - v.semaphore == (if v.deadline == 0 then 1 else 0)
      && (AfterCheck(h, later).1 == None <==> later >= now + boost)
    ensures var (u, sleep) := AfterCheck(v, later);
      && (sleep.Some? ==> u == v && sleep.value > 0 && later + sleep.value == v.deadline)
      && (sleep == None ==> u.deadline == 0 && u.sysfs == Normal && u.semaphore == v.semaphore)
  {}

  function AfterHints(v: View, boost: int, hints: seq<int>): View
    decreases |hints|
  {
    if hints == [] then v else AfterHints(AfterHint(v, boost, hints[0]), boost, hints[1..])
  }

  lemma {:induction false} AfterHintsAppend(v: View, boost: int, hints: seq<int>, now: int)
    ensures AfterHints(v, boost, hints + [now]) == AfterHint(AfterHints(v, boost, hints), boost, now)
    decreases |hints|
  {
    if hints == [] {
    } else {
      AfterHintsAppend(AfterHint(v, boost, hints[0]), boost, hints[1..], now);
      assert (hints + [now])[1..] == hints[1..] + [now];
    }
  }

  /** One turn of the inner loop: the hints that got the mutex first, then the reading of the check. */
  datatype Turn = Turn(hints: seq<int>, now: int)

  /** The inner loop over `turns`: the final view and the sleeps it asked for; it stops at the reset. */
  function InnerLoop(v: View, boost: int, turns: seq<Turn>): (View, seq<int>)
    decreases |turns|
  {
    if turns == [] then (v, [])
    else
      var w := AfterHints(v, boost, turns[0].hints);
      var (u, sleep) := AfterCheck(w, turns[0].now);
      if sleep == None then (u, [])
      else
        var (end, sleeps) := InnerLoop(u, boost, turns[1..]);
        (end, [sleep.value] + sleeps)
  }

  /** Every check comes no earlier than the deadline seen by the check before it: the sleeps are full. */
  predicate SleepsInFull(v: View, boost: int, turns: seq<Turn>)
    decreases |turns|
  {
    turns == [] ||
    (turns[0].now >= v.deadline &&
     SleepsInFull(AfterCheck(AfterHints(v, boost, turns[0].hints), turns[0].now).0, boost, turns[1..]))
  }

  function BusyTurns(turns: seq<Turn>): nat {
    if turns == [] then 0 else (if turns[0].hints != [] then 1 else 0) + BusyTurns(turns[1..])
  }

  /** The inner loop sleeps only for turns that brought a hint; and if it ends before the schedule does,
      it ends with the deadline cleared and the normal value written. */
  lemma {:induction false} InnerLoopEnds(v: View, boost: int, turns: seq<Turn>)
    ensures SleepsInFull(v, boost, turns) ==> |InnerLoop(v, boost, turns).1| <= BusyTurns(turns)
    ensures |InnerLoop(v, boost, turns).1| <= |turns|
    ensures |InnerLoop(v, boost, turns).1| < |turns| ==>
      InnerLoop(v, boost, turns).0.deadline == 0 && InnerLoop(v, boost, turns).0.sysfs == Normal
    decreases |turns|
  {
    if turns != [] {
      var (u, sleep) := AfterCheck(AfterHints(v, boost, turns[0].hints), turns[0].now);
      InnerLoopEnds(u, boost, turns[1..]);
    }
  }

  /** The seconds and nanoseconds handed to nanosleep; C division truncates, so a negative time would
      give a negative second part. */
  function Timespec(ns: nat): (r: (nat, nat))
    ensures r.0 * NSEC_PER_SEC + r.1 == ns && r.1 < NSEC_PER_SEC
  {
    (ns / NSEC_PER_SEC, ns % NSEC_PER_SEC)
  }

  // ---------------------------------------------------------------- atomicity

  lemma RunTwo(s: State, a: Action, b: Action, boost: int)
    requires Enabled(s, a) && Enabled(Apply(s, a, boost), b)
    ensures Runs(s, [a, b], boost)
    ensures Run(s, [a, b], boost) == Apply(Apply(s, a, boost), b, boost)
  {
    var s1 := Apply(s, a, boost);
    var s2 := Apply(s1, b, boost);
    assert [a, b][1..] == [b] && [b][1..] == [];
    assert Runs(s2, [], boost) && Run(s2, [], boost) == s2;
    assert Runs(s1, [b], boost) && Run(s1, [b], boost) == s2;
  }

  lemma {:induction false} RunAppend(s: State, acts: seq<Action>, more: seq<Action>, boost: int)
    requires Runs(s, acts, boost) && Runs(Run(s, acts, boost), more, boost)
    ensures Runs(s, acts + more, boost)
    ensures Run(s, acts + more, boost) == Run(Run(s, acts, boost), more, boost)
    decreases |acts|
  {
    if acts == [] {
      assert acts + more == more;
    } else {
      assert (acts + more)[1..] == acts[1..] + more;
      RunAppend(Apply(s, acts[0], boost), acts[1..], more, boost);
    }
  }

  /** The steps one interaction hint takes when nothing interleaves. */
  function HintSteps(s: State, id: nat): seq<Action> {
    if s.deadline == 0 then [Enter(id, Interaction), Sample(id)] + [Raise(id), Post(id)] + [Store(id), Leave(id)]
    else [Enter(id, Interaction), Sample(id)] + [Store(id), Leave(id)]
  }

  lemma EnterAndSample(s: State, id: nat, boost: int)
    requires s.owner == Nobody && Pc(s, id) == Outside
    ensures Runs(s, [Enter(id, Interaction), Sample(id)], boost)
    ensures var e := Run(s, [Enter(id, Interaction), Sample(id)], boost);
      Pc(e, id) == Sampled(s.clock) && ViewOf(e) == ViewOf(s) && e.clock == s.clock && e.deboost == s.deboost
  {
    RunTwo(s, Enter(id, Interaction), Sample(id), boost);
  }

  lemma RaiseAndPost(s: State, id: nat, boost: int)
    requires Pc(s, id).Sampled? && s.deadline == 0
    ensures Runs(s, [Raise(id), Post(id)], boost)
    ensures var e := Run(s, [Raise(id), Post(id)], boost);
      && Pc(e, id) == Posted(Pc(s, id).at) && ViewOf(e) == View(0, s.semaphore + 1, Interactive)
      && e.clock == s.clock && e.deboost == s.deboost
  {
    RunTwo(s, Raise(id), Post(id), boost);
  }

  lemma StoreAndLeave(s: State, id: nat, boost: int)
    requires Pc(s, id).Posted? || (Pc(s, id).Sampled? && s.deadline != 0)
    ensures Runs(s, [Store(id), Leave(id)], boost)
    ensures var e := Run(s, [Store(id), Leave(id)], boost);
      && ViewOf(e) == ViewOf(s).(deadline := Pc(s, id).at + boost)
      && e.owner == Nobody && Pc(e, id) == Outside && e.clock == s.clock && e.deboost == s.deboost
  {
    RunTwo(s, Store(id), Leave(id), boost);
  }

  /** A caller that meets a free mutex and runs its critical section alone has the effect AfterHint. */
  lemma HintIsAtomic(s: State, id: nat, boost: int)
    requires s.owner == Nobody && Pc(s, id) == Outside
    ensures Runs(s, HintSteps(s, id), boost)
    ensures var e := Run(s, HintSteps(s, id), boost);
      && ViewOf(e) == AfterHint(ViewOf(s), boost, s.clock)
      && e.owner == Nobody && Pc(e, id) == Outside && e.clock == s.clock && e.deboost == s.deboost
  {
    var enter, leave := [Enter(id, Interaction), Sample(id)], [Store(id), Leave(id)];
    EnterAndSample(s, id, boost);
    var s2 := Run(s, enter, boost);
    if s.deadline == 0 {
      var raise := [Raise(id), Post(id)];
      RaiseAndPost(s2, id, boost);
      RunAppend(s, enter, raise, boost);
      StoreAndLeave(Run(s2, raise, boost), id, boost);
      RunAppend(s, enter + raise, leave, boost);
    } else {
      StoreAndLeave(s2, id, boost);
      RunAppend(s, enter, leave, boost);
    }
  }

  /** The steps of the de-boost thread from taking the mutex to letting it go. */
  function CheckSteps(s: State): seq<Action> {
    if s.deadline > s.clock then [Acquire, ReadClock] + [ChooseSleep, ReleaseToSleep]
    else [Acquire, ReadClock] + [Lower, Clear] + [Release]
  }

  lemma AcquireAndRead(s: State, boost: int)
    requires s.owner == Nobody && s.deboost == Contending
    ensures Runs(s, [Acquire, ReadClock], boost)
    ensures Run(s, [Acquire, ReadClock], boost) == s.(owner := Deboost, deboost := Read(s.clock))
  {
    RunTwo(s, Acquire, ReadClock, boost);
  }

  lemma SleepAndRelease(s: State, boost: int)
    requires s.deboost.Read? && s.deadline > s.deboost.now
    ensures Runs(s, [ChooseSleep, ReleaseToSleep], boost)
    ensures var e := Run(s, [ChooseSleep, ReleaseToSleep], boost);
      && ViewOf(e) == ViewOf(s) && e.owner == Nobody && e.deboost == Dozing(s.deadline - s.deboost.now)
      && e.clock == s.clock && e.callers == s.callers
  {
    RunTwo(s, ChooseSleep, ReleaseToSleep, boost);
  }

  lemma LowerAndClear(s: State, boost: int)
    requires s.deboost.Read? && s.deadline <= s.deboost.now
    ensures Runs(s, [Lower, Clear], boost)
    ensures var e := Run(s, [Lower, Clear], boost);
      && ViewOf(e) == View(0, s.semaphore, Normal) && e.deboost == Cleared
      && e.clock == s.clock && e.callers == s.callers
  {
    RunTwo(s, Lower, Clear, boost);
  }

  /** The de-boost thread, meeting a free mutex and running alone, has the effect AfterCheck. */
  lemma CheckIsAtomic(s: State, boost: int)
    requires s.owner == Nobody && s.deboost == Contending
    ensures Runs(s, CheckSteps(s), boost)
    ensures var e := Run(s, CheckSteps(s), boost);
      && ViewOf(e) == AfterCheck(ViewOf(s), s.clock).0
      && e.owner == Nobody && e.clock == s.clock && e.callers == s.callers
      && e.deboost == (match AfterCheck(ViewOf(s), s.clock).1
                       case Some(sleep) => Dozing(sleep)
                       case None => Waiting)
  {
    var look := [Acquire, ReadClock];
    AcquireAndRead(s, boost);
    var s2 := Run(s, look, boost);
    if s.deadline > s.clock {
      SleepAndRelease(s2, boost);
      RunAppend(s, look, [ChooseSleep, ReleaseToSleep], boost);
    } else {
      LowerAndClear(s2, boost);
      RunAppend(s, look, [Lower, Clear], boost);
      var s4 := Run(s2, [Lower, Clear], boost);
      ReleaseAlone(s4, boost);
      RunAppend(s, look + [Lower, Clear], [Release], boost);
    }
  }

  lemma ReleaseAlone(s: State, boost: int)
    requires s.deboost == Cleared
    ensures Runs(s, [Release], boost)
    ensures Run(s, [Release], boost) == s.(owner := Nobody, deboost := Waiting)
  {
    var e := Apply(s, Release, boost);
    assert [Release][1..] == [];
    assert Runs(e, [], boost) && Run(e, [], boost) == e;
  }

  // ---------------------------------------------------------------- the object

  class DragonboardPower {
    var locked: bool
    var fd: int
    var deboostTime: int
    var signalLock: nat
    var sysfs: Level
    const boost: int

    ghost function Shown(): View reads this {
      View(deboostTime, signalLock, sysfs)
    }

    /** dragonboard_schedtune_power_init; `openResult` is what open() returned. The de-boost thread is
        started only when the file could be opened. */
    constructor (openResult: int, boostTimeNs: int)
      ensures !locked && fd == openResult && boost == boostTimeNs
      ensures forall clock :: Shown() == ViewOf(Initial(clock))
    {
      locked := false;
      fd := openResult;
      deboostTime := 0;
      signalLock := 1;
      sysfs := Normal;
      boost := boostTimeNs;
    }

    /** schedtune_sysfs_boost, writing `length` characters. */
    method SysfsBoost(level: Level, length: nat) returns (r: int)
      modifies this`sysfs
      ensures fd < 0 ==> r == fd && sysfs == old(sysfs)
      ensures fd >= 0 ==> r == length && sysfs == level
    {
      if fd < 0 {
        return fd;
      }
      sysfs := level;
      r := length;
    }

    /** dragonboard_schedtune_boost; the caller holds the mutex. */
    method SchedtuneBoost(now: int) returns (r: int)
      requires locked
      modifies this`sysfs, this`signalLock, this`deboostTime
      ensures fd < 0 ==> r == fd && Shown() == old(Shown())
      ensures fd >= 0 ==> r == 0 && Shown() == AfterHint(old(Shown()), boost, now)
    {
      if fd < 0 {
        return fd;
      }
      if deboostTime == 0 {
        var _ := SysfsBoost(Interactive, 2);
        signalLock := signalLock + 1;
      }
      deboostTime := now + boost;
      r := 0;
    }

    /** dragonboard_power_hint. */
    method PowerHint(kind: HintKind, now: int)
      requires !locked
      modifies this
      ensures !locked && fd == old(fd)
      ensures Shown() == if kind == Interaction && fd >= 0 then AfterHint(old(Shown()), boost, now) else old(Shown())
    {
      locked := true;
      if kind == Interaction {
        var _ := SchedtuneBoost(now);
      }
      locked := false;
    }

    /** One pass of the inner loop of schedtune_deboost_thread, up to the sleep or the break. */
    method CheckDeadline(now: int) returns (sleep: Option<int>)
      requires !locked && fd >= 0
      modifies this
      ensures !locked && fd == old(fd)
      ensures (Shown(), sleep) == AfterCheck(old(Shown()), now)
    {
      locked := true;
      if deboostTime > now {
        sleep := Some(deboostTime - now);
        locked := false;
        return;
      }
      var _ := SysfsBoost(Normal, 2);
      deboostTime := 0;
      locked := false;
      sleep := None;
    }

    /** The inner loop against a given schedule of hints and clock readings. */
    method DeboostUntilReset(turns: seq<Turn>) returns (sleeps: seq<int>)
      requires !locked && fd >= 0
      modifies this
      ensures !locked && fd == old(fd)
      ensures (Shown(), sleeps) == InnerLoop(old(Shown()), boost, turns)
    {
      sleeps := [];
      var i := 0;
      while i < |turns|
        invariant 0 <= i <= |turns|
        invariant !locked && fd == old(fd)
        invariant InnerLoop(old(Shown()), boost, turns).0 == InnerLoop(Shown(), boost, turns[i..]).0
        invariant InnerLoop(old(Shown()), boost, turns).1 == sleeps + InnerLoop(Shown(), boost, turns[i..]).1
      {
        ghost var before := Shown();
        var hints := turns[i].hints;
        var j := 0;
        while j < |hints|
          invariant 0 <= j <= |hints|
          invariant !locked && fd == old(fd)
          invariant Shown() == AfterHints(before, boost, hints[..j])
        {
          AfterHintsAppend(before, boost, hints[..j], hints[j]);
          assert hints[..j + 1] == hints[..j] + [hints[j]];
          PowerHint(Interaction, hints[j]);
          j := j + 1;
        }
        assert hints[..j] == hints;
        ghost var rest := turns[i..];
        assert rest[0] == turns[i] && rest[1..] == turns[i + 1..];
        var sleep := CheckDeadline(turns[i].now);
        assert InnerLoop(before, boost, rest)
            == if sleep == None then (Shown(), [])
               else (InnerLoop(Shown(), boost, rest[1..]).0,
                     [sleep.value] + InnerLoop(Shown(), boost, rest[1..]).1);
        if sleep == None {
          assert InnerLoop(before, boost, rest) == (Shown(), []);
          assert InnerLoop(old(Shown()), boost, turns).1 == sleeps + [] == sleeps;
          return;
        }
        sleeps := sleeps + [sleep.value];
        i := i + 1;
      }
      assert turns[i..] == [];
      assert InnerLoop(old(Shown()), boost, turns).1 == sleeps + [] == sleeps;
    }
  }
}

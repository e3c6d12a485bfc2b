/** Calls of the audio output streams return, and what active_output says. */
module AudioProgress {
  import opened Options
  import opened AudioOut
  import opened AudioOutProofs
  import opened AudioOutResults

  // ---------------------------------------------------------------- calls return

  /** The steps a thread still has to take before its call returns, at most. */
  function CallRank(pc: Pc): nat {
    match pc
    case Idle => 0
    case WantDevice(call) => 2 + BothRank(call)
    case WantStream(call) => 1 + BothRank(call)
    case Both(call) => BothRank(call)
    case Opened(_, frames) => frames + 4
    case Ready(_, frames) => frames + 3
    case Refused(_, _) => 2
    case Writing(_, frames, sent) => if sent <= frames then frames - sent + 2 else 2
    case Leaving(_, _, _) => 1
    case PcmClosed(_) => 4
    case PcmCleared(_) => 3
    case UnlockStream(_, _) => 2
    case UnlockDevice => 1
  }

  function BothRank(call: Call): nat {
    match call
    case Write(_, frames) => frames + 5
    case Standby(_) => 5
    case Route(_, _) => 3
  }

  /** The steps of a run that thread `t` takes. */
  function Own(acts: seq<Action>, t: ThreadId): nat {
    if acts == [] then 0 else (if !acts[0].Play? && acts[0].t == t then 1 else 0) + Own(acts[1..], t)
  }

  /** Thread `t` starts no call in the run. */
  predicate StartsNothing(acts: seq<Action>, t: ThreadId) {
    forall a :: a in acts ==> !(a.Begin? && a.t == t)
  }

  lemma OwnStepRanks(outAll: set<nat>, s: System, a: Action)
    requires Enabled(s, a) && !a.Play? && !a.Begin?
    ensures CallRank(PcOf(Apply(outAll, s, a), a.t)) < CallRank(PcOf(s, a.t))
  {}

  lemma OtherStepsKeepPc(outAll: set<nat>, s: System, a: Action, t: ThreadId)
    requires Enabled(s, a) && (a.Play? || a.t != t)
    ensures PcOf(Apply(outAll, s, a), t) == PcOf(s, t)
  {}

  /** Every call returns: in any interleaving, whatever the other threads and the hardware do, a thread takes no
      more steps than its rank before it is outside again, and it is outside exactly when its rank is 0. With
      NoDeadlock, under which some step leads on from any state inside a call, no call lasts for ever under a fair
      scheduler. */
  lemma {:induction false} CallsReturn(outAll: set<nat>, s: System, acts: seq<Action>, t: ThreadId)
    requires Runs(outAll, s, acts) && StartsNothing(acts, t)
    ensures Own(acts, t) + CallRank(PcOf(Run(outAll, s, acts), t)) <= CallRank(PcOf(s, t))
    ensures CallRank(PcOf(s, t)) == 0 <==> PcOf(s, t) == Idle
    decreases |acts|
  {
    if acts != [] {
      var a := acts[0];
      if !a.Play? && a.t == t {
        OwnStepRanks(outAll, s, a);
      } else {
        OtherStepsKeepPc(outAll, s, a, t);
      }
      CallsReturn(outAll, Apply(outAll, s, a), acts[1..], t);
    }
  }

  // ---------------------------------------------------------------- active_output

  /** The stream that active_output names has its pcm open, or is just being closed. */
  predicate ActiveOk(s: System) {
    s.active.Some? ==>
      && s.active.value in s.streams
      && (s.streams[s.active.value].pcm == Open || HolderOf(s, s.active.value).PcmClosed?)
  }

  lemma ActiveSpared(outAll: set<nat>, s: System, a: Action)
    requires Inv(s) && ActiveOk(s) && Enabled(s, a) && s.active.Some? && Elsewhere(s, a, s.active.value)
    requires Apply(outAll, s, a).active == s.active
    ensures ActiveOk(Apply(outAll, s, a))
  {
    OtherStreamsUntouched(outAll, s, a, s.active.value);
  }

  lemma ActiveTarget(outAll: set<nat>, s: System, a: Action, id: StreamId)
    requires Inv(s) && Enabled(s, a) && !a.Play? && Target(PcOf(s, a.t)) == Some(id)
    requires s.active == Some(id) ==> ActiveOk(s)
    requires Apply(outAll, s, a).active == Some(id)
    ensures ActiveOk(Apply(outAll, s, a))
  {
    HolderIsActor(outAll, s, a, id);
    assert StreamOk(s.streams[id], HolderOf(s, id));
    InvStep(outAll, s, a);
    var s1 := Apply(outAll, s, a);
    assert StreamOk(s1.streams[id], HolderOf(s1, id));
  }

  lemma ActiveStep(outAll: set<nat>, s: System, a: Action)
    requires Inv(s) && ActiveOk(s) && Enabled(s, a)
    ensures ActiveOk(Apply(outAll, s, a))
  {
    var s1 := Apply(outAll, s, a);
    if s1.active.Some? {
      var id := s1.active.value;
      if !a.Play? && !a.Begin? && Target(PcOf(s, a.t)) == Some(id) {
        ActiveTarget(outAll, s, a, id);
      } else if !a.Play? {
        ActiveSpared(outAll, s, a);
      }
    }
  }

  lemma {:induction false} ActiveRun(outAll: set<nat>, s: System, acts: seq<Action>)
    requires Inv(s) && ActiveOk(s) && Runs(outAll, s, acts)
    ensures ActiveOk(Run(outAll, s, acts))
    decreases |acts|
  {
    if acts != [] {
      ActiveStep(outAll, s, acts[0]);
      InvStep(outAll, s, acts[0]);
      ActiveRun(outAll, Apply(outAll, s, acts[0]), acts[1..]);
    }
  }

  /** Whenever the device mutex is free, active_output is empty or names a running stream. */
  lemma ActiveIsRunning(outAll: set<nat>, s: System)
    requires Reachable(outAll, s) && s.deviceOwner == None && s.active.Some?
    ensures s.active.value in s.streams
    ensures s.streams[s.active.value].pcm == Open && !s.streams[s.active.value].standby
  {
    var ids: set<StreamId>, acts: seq<Action> :|
      Runs(outAll, Initial(ids), acts) && s == Run(outAll, Initial(ids), acts);
    InitialInv(ids);
    ActiveRun(outAll, Initial(ids), acts);
    ReachableInv(outAll, s);
    var id := s.active.value;
    assert StreamOk(s.streams[id], HolderOf(s, id));
    if s.streams[id].owner.Some? {
      assert HoldsStream(PcOf(s, s.streams[id].owner.value));
    }
  }

  lemma SecondEnters(outAll: set<nat>, s: System, call: Call)
    requires SecondUntouched(s) && s.deviceOwner == None && call.id == 1 && 0 in s.streams
    ensures Enabled(s, Begin(1, call)) && Enabled(Apply(outAll, s, Begin(1, call)), LockDevice(1))
    ensures var s2 := Apply(outAll, Apply(outAll, s, Begin(1, call)), LockDevice(1));
      && PcOf(s2, 1) == WantStream(call) && s2.streams == s.streams
  {}

  lemma SecondFails(outAll: set<nat>, s: System, frames: nat)
    requires 0 in s.streams && 1 in s.streams && s.streams[1] == NEW_STREAM
    requires PcOf(s, 1) == WantStream(Write(1, frames))
    ensures Enabled(s, LockStream(1)) && Enabled(Apply(outAll, s, LockStream(1)), Check(1, false))
    ensures var s2 := Apply(outAll, Apply(outAll, s, LockStream(1)), Check(1, false));
      && PcOf(s2, 1) == Refused(1, frames) && 0 in s2.streams && s2.streams[0] == s.streams[0] && s2.active == None
  {}

  lemma SecondLetsGo(outAll: set<nat>, s: System, frames: nat)
    requires 0 in s.streams && 1 in s.streams && PcOf(s, 1) == Refused(1, frames)
    ensures Enabled(s, LetDeviceGo(1))
    ensures var e := Apply(outAll, s, LetDeviceGo(1));
      e.deviceOwner == None && e.streams == s.streams && e.active == s.active
  {}

  lemma ReachTwice(outAll: set<nat>, s: System, a: Action, c: Action)
    requires Reachable(outAll, s) && Enabled(s, a) && Enabled(Apply(outAll, s, a), c)
    ensures Reachable(outAll, Apply(outAll, Apply(outAll, s, a), c))
  {
    ReachStep(outAll, s, a);
    ReachStep(outAll, Apply(outAll, s, a), c);
  }

  /** But it can be empty while a stream is running: one stream is being written when the pcm of another cannot be
      opened. */
  lemma ActiveForgetsRunningStream(outAll: set<nat>, frames: nat) returns (s: System)
    ensures Reachable(outAll, s) && s.deviceOwner == None && s.active == None
    ensures 0 in s.streams && s.streams[0].pcm == Open && !s.streams[0].standby
  {
    var s0 := FirstWrite(outAll, frames);
    var call := Write(1, frames);
    SecondEnters(outAll, s0, call);
    ReachTwice(outAll, s0, Begin(1, call), LockDevice(1));
    var s2 := Apply(outAll, Apply(outAll, s0, Begin(1, call)), LockDevice(1));
    SecondFails(outAll, s2, frames);
    ReachTwice(outAll, s2, LockStream(1), Check(1, false));
    var s4 := Apply(outAll, Apply(outAll, s2, LockStream(1)), Check(1, false));
    SecondLetsGo(outAll, s4, frames);
    ReachStep(outAll, s4, LetDeviceGo(1));
    s := Apply(outAll, s4, LetDeviceGo(1));
  }
}

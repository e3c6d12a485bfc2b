/** What every interleaving of the audio output streams keeps. */
module AudioOutProofs {
  import opened Options
  import opened AudioPosition
  import opened AudioOut

  // ---------------------------------------------------------------- one step

  /** Stream `id` is not the target of the action. */
  predicate Elsewhere(s: System, a: Action, id: StreamId) {
    if a.Play? then a.id != id
    else if a.Begin? then true
    else Target(PcOf(s, a.t)) != Some(id)
  }

  lemma LockStepsSpareOthers(outAll: set<nat>, s: System, a: Action, id: StreamId)
    requires LockInv(s) && Enabled(s, a) && id in s.streams && Elsewhere(s, a, id)
    requires a.Begin? || a.LockDevice? || a.LockStream? || a.LetDeviceGo?
    ensures var s1 := Apply(outAll, s, a);
      id in s1.streams && s1.streams[id] == s.streams[id] && HolderOf(s1, id) == HolderOf(s, id)
  {}

  lemma UnlockStepsSpareOthers(outAll: set<nat>, s: System, a: Action, id: StreamId)
    requires LockInv(s) && Enabled(s, a) && id in s.streams && Elsewhere(s, a, id)
    requires a.Leave? || a.DropStream? || a.DropDevice? || a.StayStandby? || a.SetRoute?
    ensures var s1 := Apply(outAll, s, a);
      id in s1.streams && s1.streams[id] == s.streams[id] && HolderOf(s1, id) == HolderOf(s, id)
  {}

  lemma OtherStreamsUntouched(outAll: set<nat>, s: System, a: Action, id: StreamId)
    requires LockInv(s) && Enabled(s, a) && id in s.streams && Elsewhere(s, a, id)
    ensures var s1 := Apply(outAll, s, a);
      id in s1.streams && s1.streams[id] == s.streams[id] && HolderOf(s1, id) == HolderOf(s, id)
  {
    if a.Begin? || a.LockDevice? || a.LockStream? || a.LetDeviceGo? {
      LockStepsSpareOthers(outAll, s, a, id);
    } else if a.Leave? || a.DropStream? || a.DropDevice? || a.StayStandby? || a.SetRoute? {
      UnlockStepsSpareOthers(outAll, s, a, id);
    } else {
    }
  }

  lemma PlayStep(outAll: set<nat>, s: System, a: Action)
    requires Inv(s) && Enabled(s, a) && a.Play?
    ensures StreamOk(Apply(outAll, s, a).streams[a.id], HolderOf(Apply(outAll, s, a), a.id))
  {
    assert StreamOk(s.streams[a.id], HolderOf(s, a.id));
  }

  /** What a thread's step does to the mutexes: it takes or drops at most one, and its program counter
      says so. */
  lemma LockEffect(outAll: set<nat>, s: System, a: Action)
    requires Enabled(s, a) && !a.Play?
    ensures var s1 := Apply(outAll, s, a);
      var pc, pc1 := PcOf(s, a.t), PcOf(s1, a.t);
      && s1.threads == s.threads[a.t := pc1]
      && s1.streams.Keys == s.streams.Keys
      && TargetExists(s1, pc1)
      && (Target(pc).Some? && Target(pc1).Some? ==> Target(pc1) == Target(pc))
      && (HoldsDevice(pc) == HoldsDevice(pc1) ==> s1.deviceOwner == s.deviceOwner)
      && (!HoldsDevice(pc) && HoldsDevice(pc1) ==> s.deviceOwner == None && s1.deviceOwner == Some(a.t))
      && (HoldsDevice(pc) && !HoldsDevice(pc1) ==> s1.deviceOwner == None)
  {}

  /** Likewise for the mutex of the stream it works on. */
  predicate StreamLockFollows(s: System, s1: System, t: ThreadId, id: StreamId) {
    var pc, pc1 := PcOf(s, t), PcOf(s1, t);
    && id in s.streams && id in s1.streams
    && (HoldsStream(pc) == HoldsStream(pc1) ==> s1.streams[id].owner == s.streams[id].owner)
    && (HoldsStream(pc1) ==> Target(pc1) == Some(id))
    && (!HoldsStream(pc) && HoldsStream(pc1) ==> s.streams[id].owner == None && s1.streams[id].owner == Some(t))
    && (HoldsStream(pc) && !HoldsStream(pc1) ==> s1.streams[id].owner == None)
  }

  lemma MutexStepsFollow(outAll: set<nat>, s: System, a: Action, id: StreamId)
    requires Enabled(s, a) && !a.Play? && Target(PcOf(s, a.t)) == Some(id)
    requires
      a.LockDevice? || a.LockStream? || a.LetDeviceGo? || a.Leave? || a.DropStream? || a.StayStandby? || a.SetRoute?
    ensures StreamLockFollows(s, Apply(outAll, s, a), a.t, id)
  {}

  lemma StreamLockEffect(outAll: set<nat>, s: System, a: Action, id: StreamId)
    requires Enabled(s, a) && !a.Play? && Target(PcOf(s, a.t)) == Some(id)
    ensures StreamLockFollows(s, Apply(outAll, s, a), a.t, id)
  {
    if a.LockDevice? || a.LockStream? || a.LetDeviceGo? || a.Leave? || a.DropStream? || a.StayStandby? || a.SetRoute? {
      MutexStepsFollow(outAll, s, a, id);
    } else {
    }
  }

  lemma TargetsStep(outAll: set<nat>, s: System, a: Action)
    requires TargetsInv(s) && Enabled(s, a)
    ensures TargetsInv(Apply(outAll, s, a))
  {
    if !a.Play? {
      LockEffect(outAll, s, a);
    }
  }

  lemma DeviceLockStep(outAll: set<nat>, s: System, a: Action)
    requires DeviceLockInv(s) && Enabled(s, a)
    ensures DeviceLockInv(Apply(outAll, s, a))
  {
    if !a.Play? {
      LockEffect(outAll, s, a);
    }
  }

  lemma OwnersStep(outAll: set<nat>, s: System, a: Action, id: StreamId)
    requires LockInv(s) && Enabled(s, a) && !a.Play? && id in Apply(outAll, s, a).streams
    ensures var s1 := Apply(outAll, s, a);
      s1.streams[id].owner.Some? ==>
        var pc := PcOf(s1, s1.streams[id].owner.value);
        HoldsStream(pc) && Target(pc) == Some(id)
  {
    LockEffect(outAll, s, a);
    if Elsewhere(s, a, id) {
      OtherStreamsUntouched(outAll, s, a, id);
    } else {
      StreamLockEffect(outAll, s, a, id);
    }
  }

  lemma HoldersStep(outAll: set<nat>, s: System, a: Action, t: ThreadId)
    requires LockInv(s) && Enabled(s, a) && !a.Play?
    requires t in Apply(outAll, s, a).threads && HoldsStream(Apply(outAll, s, a).threads[t])
    ensures var s1 := Apply(outAll, s, a); Owns(s1, t, Target(s1.threads[t]).value)
  {
    var s1 := Apply(outAll, s, a);
    LockEffect(outAll, s, a);
    if t == a.t {
      if Target(PcOf(s, t)).Some? {
        StreamLockEffect(outAll, s, a, Target(PcOf(s, t)).value);
      }
    } else {
      var id := Target(s.threads[t]).value;
      assert Owns(s, t, id);
      if Elsewhere(s, a, id) {
        OtherStreamsUntouched(outAll, s, a, id);
      } else {
        StreamLockEffect(outAll, s, a, id);
      }
    }
  }

  lemma LockStep(outAll: set<nat>, s: System, a: Action)
    requires LockInv(s) && Enabled(s, a)
    ensures LockInv(Apply(outAll, s, a))
  {
    var s1 := Apply(outAll, s, a);
    TargetsStep(outAll, s, a);
    DeviceLockStep(outAll, s, a);
    if !a.Play? {
      forall t | t in s1.threads && HoldsStream(s1.threads[t])
        ensures Owns(s1, t, Target(s1.threads[t]).value)
      {
        HoldersStep(outAll, s, a, t);
      }
      forall id | id in s1.streams && s1.streams[id].owner.Some?
        ensures HoldsStream(PcOf(s1, s1.streams[id].owner.value))
             && Target(PcOf(s1, s1.streams[id].owner.value)) == Some(id)
      {
        OwnersStep(outAll, s, a, id);
      }
    }
  }

  /** A thread that holds the stream's mutex before or after its step is the holder then. */
  lemma HolderIsActor(outAll: set<nat>, s: System, a: Action, id: StreamId)
    requires LockInv(s) && Enabled(s, a) && !a.Play? && Target(PcOf(s, a.t)) == Some(id)
    ensures var s1 := Apply(outAll, s, a);
      var pc, pc1 := PcOf(s, a.t), PcOf(s1, a.t);
      && id in s.streams && id in s1.streams
      && (HoldsStream(pc) ==> HolderOf(s, id) == pc)
      && (HoldsStream(pc1) ==> HolderOf(s1, id) == pc1)
      && (HoldsStream(pc) && !HoldsStream(pc1) ==> HolderOf(s1, id) == Idle)
      && (!HoldsStream(pc) && HoldsStream(pc1) ==> HolderOf(s, id) == Idle)
      && (!HoldsStream(pc) && !HoldsStream(pc1) ==>
            s1.streams[id] == s.streams[id] && HolderOf(s1, id) == HolderOf(s, id))
  {
    StreamLockEffect(outAll, s, a, id);
    LockEffect(outAll, s, a);
    if HoldsStream(PcOf(s, a.t)) {
      assert Owns(s, a.t, id);
    }
  }

  lemma LockingStep(outAll: set<nat>, s: System, a: Action, id: StreamId)
    requires Enabled(s, a) && !a.Play? && Target(PcOf(s, a.t)) == Some(id)
    requires a.LockStream? || a.Leave? || a.DropStream? || a.LetDeviceGo? || a.StayStandby? || a.SetRoute?
    requires StreamOk(s.streams[id], if a.LockStream? then Idle else PcOf(s, a.t))
    ensures var s1 := Apply(outAll, s, a);
      StreamOk(s1.streams[id], if HoldsStream(PcOf(s1, a.t)) then PcOf(s1, a.t) else Idle)
  {}

  lemma StartingStep(outAll: set<nat>, s: System, a: Action, id: StreamId)
    requires Enabled(s, a) && !a.Play? && Target(PcOf(s, a.t)) == Some(id)
    requires a.Check? || a.MarkRunning? || a.ClosePcm? || a.ClearPcm? || a.MarkStandby?
    requires StreamOk(s.streams[id], PcOf(s, a.t))
    ensures var s1 := Apply(outAll, s, a); StreamOk(s1.streams[id], PcOf(s1, a.t)) && HoldsStream(PcOf(s1, a.t))
  {}

  lemma CountModulo(total: nat, frames: nat)
    ensures (total % UINT32 + frames) % UINT32 == (total + frames) % UINT32
  {
    var q, r := total / UINT32, total % UINT32;
    assert total == q * UINT32 + r;
    assert total + frames == q * UINT32 + (r + frames);
  }

  lemma PushStep(outAll: set<nat>, s: System, a: Action, id: StreamId)
    requires Enabled(s, a) && a.Push? && Target(PcOf(s, a.t)) == Some(id) && StreamOk(s.streams[id], PcOf(s, a.t))
    ensures var s1 := Apply(outAll, s, a); StreamOk(s1.streams[id], PcOf(s1, a.t)) && HoldsStream(PcOf(s1, a.t))
  {}

  lemma FinishStep(outAll: set<nat>, s: System, a: Action, id: StreamId)
    requires Enabled(s, a) && a.Finish? && Target(PcOf(s, a.t)) == Some(id) && StreamOk(s.streams[id], PcOf(s, a.t))
    ensures var s1 := Apply(outAll, s, a); StreamOk(s1.streams[id], PcOf(s1, a.t)) && HoldsStream(PcOf(s1, a.t))
  {
    CountModulo(s.streams[id].total, PcOf(s, a.t).frames);
  }

  lemma FailStep(outAll: set<nat>, s: System, a: Action, id: StreamId)
    requires Enabled(s, a) && a.Fail? && Target(PcOf(s, a.t)) == Some(id) && StreamOk(s.streams[id], PcOf(s, a.t))
    ensures var s1 := Apply(outAll, s, a); StreamOk(s1.streams[id], PcOf(s1, a.t)) && HoldsStream(PcOf(s1, a.t))
  {}

  /** A step by the holder of the stream's mutex that keeps it. */
  lemma HolderStep(outAll: set<nat>, s: System, a: Action, id: StreamId)
    requires Enabled(s, a) && !a.Play? && Target(PcOf(s, a.t)) == Some(id) && HoldsStream(PcOf(s, a.t))
    requires StreamOk(s.streams[id], PcOf(s, a.t))
    ensures var s1 := Apply(outAll, s, a);
      StreamOk(s1.streams[id], if HoldsStream(PcOf(s1, a.t)) then PcOf(s1, a.t) else Idle)
  {
    match a
    case Push(_, _) => PushStep(outAll, s, a, id);
    case Finish(_) => FinishStep(outAll, s, a, id);
    case Fail(_) => FailStep(outAll, s, a, id);
    case Check(_, _) => StartingStep(outAll, s, a, id);
    case MarkRunning(_) => StartingStep(outAll, s, a, id);
    case ClosePcm(_) => StartingStep(outAll, s, a, id);
    case ClearPcm(_) => StartingStep(outAll, s, a, id);
    case MarkStandby(_) => StartingStep(outAll, s, a, id);
    case _ => LockingStep(outAll, s, a, id);
  }

  lemma TargetStep(outAll: set<nat>, s: System, a: Action, id: StreamId)
    requires Inv(s) && Enabled(s, a) && !a.Play? && Target(PcOf(s, a.t)) == Some(id)
    ensures id in Apply(outAll, s, a).streams
    ensures StreamOk(Apply(outAll, s, a).streams[id], HolderOf(Apply(outAll, s, a), id))
  {
    HolderIsActor(outAll, s, a, id);
    assert StreamOk(s.streams[id], HolderOf(s, id));
    if HoldsStream(PcOf(s, a.t)) {
      HolderStep(outAll, s, a, id);
    } else if a.LockStream? {
      LockingStep(outAll, s, a, id);
    }
  }

  lemma InvStep(outAll: set<nat>, s: System, a: Action)
    requires Inv(s) && Enabled(s, a)
    ensures Inv(Apply(outAll, s, a))
  {
    var s1 := Apply(outAll, s, a);
    LockStep(outAll, s, a);
    forall id | id in s1.streams
      ensures StreamOk(s1.streams[id], HolderOf(s1, id))
    {
      if !a.Play? {
        LockEffect(outAll, s, a);
      }
      if Elsewhere(s, a, id) {
        OtherStreamsUntouched(outAll, s, a, id);
      } else if a.Play? {
        PlayStep(outAll, s, a);
      } else {
        TargetStep(outAll, s, a, id);
      }
    }
  }

  lemma InitialInv(ids: set<StreamId>)
    ensures Inv(Initial(ids))
  {}

  // ---------------------------------------------------------------- whole runs

  lemma {:induction false} InvRun(outAll: set<nat>, s: System, acts: seq<Action>)
    requires Inv(s) && Runs(outAll, s, acts)
    ensures Inv(Run(outAll, s, acts))
    decreases |acts|
  {
    if acts != [] {
      InvStep(outAll, s, acts[0]);
      InvRun(outAll, Apply(outAll, s, acts[0]), acts[1..]);
    }
  }

  /** `s` is reached from a device whose streams have just been opened, by some interleaving. */
  ghost predicate Reachable(outAll: set<nat>, s: System) {
    exists ids: set<StreamId>, acts: seq<Action> ::
      Runs(outAll, Initial(ids), acts) && s == Run(outAll, Initial(ids), acts)
  }

  lemma ReachableInv(outAll: set<nat>, s: System)
    requires Reachable(outAll, s)
    ensures Inv(s)
  {
    var ids: set<StreamId>, acts: seq<Action> :|
      Runs(outAll, Initial(ids), acts) && s == Run(outAll, Initial(ids), acts);
    InitialInv(ids);
    InvRun(outAll, Initial(ids), acts);
  }
}

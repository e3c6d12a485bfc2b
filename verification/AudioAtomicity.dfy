/** Every call acts on its stream as if it ran alone, in any interleaving. */
module AudioAtomicity {
  import opened Options
  import opened AudioOut
  import opened AudioOutProofs

  predicate EntryInv(s: System) {
    forall id :: id in s.streams ==> EntryOk(s.streams[id], HolderOf(s, id))
  }

  lemma HolderEntryStep(outAll: set<nat>, s: System, a: Action, id: StreamId)
    requires Enabled(s, a) && !a.Play? && Target(PcOf(s, a.t)) == Some(id)
    requires HoldsStream(PcOf(s, a.t)) && HoldsStream(PcOf(Apply(outAll, s, a), a.t))
    requires EntryOk(s.streams[id], PcOf(s, a.t))
    ensures var s1 := Apply(outAll, s, a); EntryOk(s1.streams[id], PcOf(s1, a.t))
  {}

  lemma TakenEntryStep(outAll: set<nat>, s: System, a: Action, id: StreamId)
    requires Enabled(s, a) && !a.Play? && Target(PcOf(s, a.t)) == Some(id)
    requires !HoldsStream(PcOf(s, a.t)) && HoldsStream(PcOf(Apply(outAll, s, a), a.t))
    ensures var s1 := Apply(outAll, s, a); EntryOk(s1.streams[id], PcOf(s1, a.t))
  {}

  lemma EntryStep(outAll: set<nat>, s: System, a: Action)
    requires Inv(s) && EntryInv(s) && Enabled(s, a)
    ensures EntryInv(Apply(outAll, s, a))
  {
    var s1 := Apply(outAll, s, a);
    forall id | id in s1.streams
      ensures EntryOk(s1.streams[id], HolderOf(s1, id))
    {
      if a.Play? {
        assert EntryOk(s.streams[id], HolderOf(s, id));
      } else {
        LockEffect(outAll, s, a);
        assert EntryOk(s.streams[id], HolderOf(s, id));
        if Elsewhere(s, a, id) {
          OtherStreamsUntouched(outAll, s, a, id);
        } else {
          TargetEntryStep(outAll, s, a, id);
        }
      }
    }
  }

  lemma TargetEntryStep(outAll: set<nat>, s: System, a: Action, id: StreamId)
    requires Inv(s) && Enabled(s, a) && !a.Play? && Target(PcOf(s, a.t)) == Some(id)
    requires EntryOk(s.streams[id], HolderOf(s, id))
    ensures id in Apply(outAll, s, a).streams
    ensures EntryOk(Apply(outAll, s, a).streams[id], HolderOf(Apply(outAll, s, a), id))
  {
    var pc, pc1 := PcOf(s, a.t), PcOf(Apply(outAll, s, a), a.t);
    HolderIsActor(outAll, s, a, id);
    if HoldsStream(pc) && HoldsStream(pc1) {
      HolderEntryStep(outAll, s, a, id);
    } else if HoldsStream(pc1) {
      TakenEntryStep(outAll, s, a, id);
    }
  }

  lemma {:induction false} EntryRun(outAll: set<nat>, s: System, acts: seq<Action>)
    requires Inv(s) && EntryInv(s) && Runs(outAll, s, acts)
    ensures Inv(Run(outAll, s, acts)) && EntryInv(Run(outAll, s, acts))
    decreases |acts|
  {
    if acts != [] {
      InvStep(outAll, s, acts[0]);
      EntryStep(outAll, s, acts[0]);
      EntryRun(outAll, Apply(outAll, s, acts[0]), acts[1..]);
    }
  }

  /** When a thread is about to release a stream's mutex, the stream is what its call alone would have made
      of the stream it found: out_write with some answers of the library, out_standby, or nothing at all for
      a routing change; the other threads have not shown. */
  lemma CallsAreAtomic(outAll: set<nat>, s: System, t: ThreadId)
    requires Reachable(outAll, s) && (PcOf(s, t).Leaving? || PcOf(s, t).UnlockStream?)
    ensures PcOf(s, t).id in s.streams && s.streams[PcOf(s, t).id].owner == Some(t)
    ensures var stream := s.streams[PcOf(s, t).id];
      match PcOf(s, t)
      case Leaving(_, frames, accepted) =>
        exists opens :: (accepted, ViewOf(stream)) == AfterWrite(stream.entry, frames, opens, accepted)
      case UnlockStream(_, standby) => ViewOf(stream) == if standby then AfterStandby(stream.entry) else stream.entry
      case _ => true
  {
    var ids: set<StreamId>, acts: seq<Action> :|
      Runs(outAll, Initial(ids), acts) && s == Run(outAll, Initial(ids), acts);
    InitialInv(ids);
    EntryRun(outAll, Initial(ids), acts);
    assert Owns(s, t, PcOf(s, t).id);
    assert EntryOk(s.streams[PcOf(s, t).id], HolderOf(s, PcOf(s, t).id));
  }
}

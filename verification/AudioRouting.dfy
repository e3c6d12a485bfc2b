/** Routing, active_output and failed opens over runs of the audio output streams. */
module AudioRouting {
  import opened Options
  import opened AudioPosition
  import opened AudioOut
  import opened AudioOutProofs
  import opened AudioOutResults

  // ---------------------------------------------------------------- routing

  /** A zero value changes nothing; any other value is put in place of the output bits, and no other bit is
      touched. */
  lemma RerouteReplacesOutputs(outAll: set<nat>, devices: set<nat>, value: set<nat>)
    ensures var r := Rerouted(outAll, devices, value);
      && (value == {} ==> r == devices)
      && (value != {} ==> value <= r && r * outAll == value * outAll)
      && r - outAll - value == devices - outAll - value
  {}

  /** The last non-zero value routed in a run, `last` being the one before it. */
  function LastRoute(outAll: set<nat>, s: System, acts: seq<Action>, last: set<nat>): set<nat>
    requires Runs(outAll, s, acts)
    decreases |acts|
  {
    if acts == [] then last
    else
      var value := if acts[0].SetRoute? then PcOf(s, acts[0].t).call.value else {};
      LastRoute(outAll, Apply(outAll, s, acts[0]), acts[1..], if value != {} then value else last)
  }

  lemma RouteStep(outAll: set<nat>, s: System, a: Action)
    requires Enabled(s, a)
    ensures var value := if a.SetRoute? then PcOf(s, a.t).call.value else {};
      Apply(outAll, s, a).devices * outAll == (if value != {} then value else s.devices) * outAll
  {
    if a.SetRoute? {
      RerouteReplacesOutputs(outAll, s.devices, PcOf(s, a.t).call.value);
    }
  }

  /** In any interleaving the output bits of the device are those of the last non-zero value routed. */
  lemma {:induction false} DevicesFollowLastRoute(outAll: set<nat>, s: System, acts: seq<Action>, last: set<nat>)
    requires Runs(outAll, s, acts) && s.devices * outAll == last * outAll
    ensures Run(outAll, s, acts).devices * outAll == LastRoute(outAll, s, acts, last) * outAll
    decreases |acts|
  {
    if acts != [] {
      RouteStep(outAll, s, acts[0]);
      var value := if acts[0].SetRoute? then PcOf(s, acts[0].t).call.value else {};
      DevicesFollowLastRoute(outAll, Apply(outAll, s, acts[0]), acts[1..], if value != {} then value else last);
    }
  }

  // ---------------------------------------------------------------- opens

  /** The step starts a stream that is in standby and available, or tries to. */
  predicate TriesToOpen(s: System, a: Action) {
    Enabled(s, a) && a.Check? && StreamOf(s, a.t).standby && !StreamOf(s, a.t).unavailable
  }

  /** What the library may do in a write is left open: an open may work or fail, a transfer may fail as long as
      nothing has gone into the ring, and may at any time move any number of frames that fit. */
  lemma LibraryIsFree(outAll: set<nat>, s: System, t: ThreadId)
    requires Reachable(outAll, s)
    ensures PcOf(s, t).Both? && PcOf(s, t).call.Write? ==> forall opens :: Enabled(s, Check(t, opens))
    ensures PcOf(s, t).Writing? && PcOf(s, t).sent == 0 ==> Enabled(s, Fail(t))
    ensures PcOf(s, t).Writing? ==>
      && Target(PcOf(s, t)).value in s.streams
      && (Enabled(s, Finish(t)) <==> PcOf(s, t).sent == PcOf(s, t).frames)
      && forall n :: 0 < n <= PcOf(s, t).frames - PcOf(s, t).sent && StreamOf(s, t).queued + n <= RING_FRAMES ==>
           Enabled(s, Push(t, n))
  {
    ReachableInv(outAll, s);
  }

  /** A failed open is final: whatever happens afterwards, the stream stays unavailable and in standby and its
      `written` never changes again; and its pcm is closed but still pointed to. */
  lemma FailedOpenIsFinal(outAll: set<nat>, s: System, t: ThreadId, after: seq<Action>)
    requires Reachable(outAll, s) && TriesToOpen(s, Check(t, false))
    requires Runs(outAll, Apply(outAll, s, Check(t, false)), after)
    ensures var id := Target(PcOf(s, t)).value;
      && id in s.streams && Apply(outAll, s, Check(t, false)).streams[id].pcm == Closed
      && Frozen(Run(outAll, Apply(outAll, s, Check(t, false)), after), id, s.streams[id].written, s.streams[id].total)
  {
    ReachableInv(outAll, s);
    InvStep(outAll, s, Check(t, false));
    UnavailableForEver(outAll, Apply(outAll, s, Check(t, false)), after, Target(PcOf(s, t)).value);
  }

  /** A successful open leaves the pcm open for a write that goes on to it. */
  lemma GoodOpenStarts(outAll: set<nat>, s: System, t: ThreadId)
    requires TriesToOpen(s, Check(t, true))
    ensures var id, e := Target(PcOf(s, t)).value, Apply(outAll, s, Check(t, true));
      && id in e.streams && e.streams[id].pcm == Open && e.active == Some(id)
      && Enabled(e, MarkRunning(t)) && !Apply(outAll, e, MarkRunning(t)).streams[id].standby
      && PcOf(Apply(outAll, e, MarkRunning(t)), t) == Ready(id, PcOf(s, t).call.frames)
  {}

  // ---------------------------------------------------------------- active_output

  /** The stream opened last in a run, unless an open has failed or a stream has been put in standby since; `last`
      is the one before the run. */
  function LastOpened(outAll: set<nat>, s: System, acts: seq<Action>, last: Option<StreamId>): Option<StreamId>
    requires Runs(outAll, s, acts)
    decreases |acts|
  {
    if acts == [] then last
    else
      var a := acts[0];
      var next :=
        if TriesToOpen(s, a) then (if a.opens then Target(PcOf(s, a.t)) else None)
        else if a.ClearPcm? then None
        else last;
      LastOpened(outAll, Apply(outAll, s, a), acts[1..], next)
  }

  /** In any interleaving active_output names the stream opened last, until an open fails or any running stream is
      put in standby. */
  lemma {:induction false} ActiveIsLastOpened(outAll: set<nat>, s: System, acts: seq<Action>)
    requires Runs(outAll, s, acts)
    ensures Run(outAll, s, acts).active == LastOpened(outAll, s, acts, s.active)
    decreases |acts|
  {
    if acts != [] {
      ActiveIsLastOpened(outAll, Apply(outAll, s, acts[0]), acts[1..]);
    }
  }
}

/** Each entry point of gralloc/gralloc.cpp does the registry operation it stands for: alone, and under any
    interleaving. */
module GrallocCalls {
  import opened Options
  import opened GbmFormats
  import opened GbmLocks
  import opened GrallocThreads

  // ---------------------------------------------------------------- one call alone

  /** An idle thread that may make the call, with the mutex free. */
  predicate MayCall(s: System, t: nat, call: Call) {
    s.owner == None && Pc(s, t) == Idle && (NeedsOpen(call) ==> s.isOpen)
  }

  /** The state after the first section of a call that runs alone. */
  function Alone(b: UsageBits, s: System, t: nat, call: Call): System
    requires MayCall(s, t, call)
  {
    AfterSection(b, Apply(b, s, Start(t, call)), t)
  }

  /** The call is over: the mutex is free, the thread idle, one more section published with the given status, and
      the shared state is the given one. */
  predicate Answered(s: System, e: System, t: nat, status: Status, shared: Shared) {
    && e.owner == None && Pc(e, t) == Idle && e.shared == shared
    && |e.log| == |s.log| + 1 && e.log[..|s.log|] == s.log
    && e.log[|s.log|].thread == t && e.log[|s.log|].status == status
  }

  lemma UnlockAlone(b: UsageBits, s: System, t: nat, h: Reg.Handle)
    requires MayCall(s, t, UnlockCall(h))
    ensures var (status, registry) := Reg.Unlock(b, s.shared.registry, h);
      var e := Alone(b, s, t, UnlockCall(h));
      Answered(s, e, t, status, s.shared.(registry := registry)) && e.isOpen == s.isOpen
  {}

  lemma LockAlone(b: UsageBits, s: System, t: nat, h: Reg.Handle, own: Usage, usage: Usage, answer: ValidMap)
    requires MayCall(s, t, LockCall(h, own, usage, answer))
    ensures var (status, registry) := Reg.Lock(b, s.shared.registry, h, own, usage, answer);
      var e := Alone(b, s, t, LockCall(h, own, usage, answer));
      Answered(s, e, t, status, s.shared.(registry := registry)) && e.isOpen == s.isOpen
  {}

  lemma UnregisterAlone(b: UsageBits, s: System, t: nat, h: Reg.Handle)
    requires MayCall(s, t, UnregisterCall(h))
    ensures var e := Alone(b, s, t, UnregisterCall(h));
      && Answered(s, e, t, Done, s.shared.(registry := Reg.Free(s.shared.registry, h)))
      && e.isOpen == s.isOpen
  {}

  lemma FreeAlone(b: UsageBits, s: System, t: nat, h: Reg.Handle)
    requires MayCall(s, t, FreeCall(h))
    ensures var e := Alone(b, s, t, FreeCall(h));
      && Answered(s, e, t, Done, s.shared.(registry := Reg.Free(s.shared.registry, h)))
      && e.isOpen == s.isOpen
  {}

  lemma AllocAlone(b: UsageBits, s: System, t: nat, h: Reg.Handle, bo: Option<Reg.BoId>)
    requires MayCall(s, t, AllocCall(h, bo))
    ensures var (result, registry) := Reg.Create(s.shared.registry, h, bo);
      var e := Alone(b, s, t, AllocCall(h, bo));
      && Answered(s, e, t, if result != 0 then Done else OutOfMemory, s.shared.(registry := registry))
      && e.isOpen == s.isOpen
  {}

  /** An open succeeds exactly if there is a device afterwards, which is the old one if there was one; then
      buffers can be allocated and freed. */
  lemma OpenAlone(b: UsageBits, s: System, t: nat, dev: Option<nat>)
    requires MayCall(s, t, OpenCall(dev))
    ensures var device := if s.shared.device.Some? then s.shared.device else dev;
      var e := Alone(b, s, t, OpenCall(dev));
      && Answered(s, e, t, if device.Some? then Done else InvalidArgument, s.shared.(device := device))
      && (e.isOpen <==> s.isOpen || device.Some?)
  {}

  /** A perform makes the device in the same way and opens nothing. */
  lemma PerformAlone(b: UsageBits, s: System, t: nat, dev: Option<nat>)
    requires MayCall(s, t, PerformCall(dev))
    ensures var device := if s.shared.device.Some? then s.shared.device else dev;
      var e := Alone(b, s, t, PerformCall(dev));
      && Answered(s, e, t, if device.Some? then Done else InvalidArgument, s.shared.(device := device))
      && e.isOpen == s.isOpen
  {}

  // ---------------------------------------------------------------- the calls of an interleaving

  /** The calls a thread starts in a run, in order. */
  function CallsOf(acts: seq<Action>, t: nat): seq<Call> {
    if acts == [] then []
    else (if acts[0].Start? && acts[0].t == t then [acts[0].call] else []) + CallsOf(acts[1..], t)
  }

  /** The sections of a thread in the log, in order. */
  function LogOf(log: seq<Entry>, t: nat): seq<Entry> {
    if log == [] then []
    else
      var last := log[|log| - 1];
      LogOf(log[..|log| - 1], t) + (if last.thread == t then [last] else [])
  }

  /** The section is the work of the call; a register call has its device check before it. */
  predicate Works(call: Call, section: Section) {
    match call
    case RegisterCall(_, h, imported) => section == OpSection(Reg.RegisterOp(h, imported))
    case UnregisterCall(h) => section == OpSection(Reg.FreeOp(h))
    case LockCall(h, own, usage, answer) => section == OpSection(Reg.LockOp(h, own, usage, answer))
    case UnlockCall(h) => section == OpSection(Reg.UnlockOp(h))
    case AllocCall(h, bo) => section == OpSection(Reg.CreateOp(h, bo))
    case FreeCall(h) => section == OpSection(Reg.FreeOp(h))
    case OpenCall(dev) => section == InitSection(dev)
    case PerformCall(dev) => section == InitSection(dev)
  }

  /** The entry is the device check of the call, with the given outcome. */
  predicate Checked(call: Call, entry: Entry, found: bool) {
    call.RegisterCall? && entry.section == InitSection(call.dev) && (entry.status == Done <==> found)
  }

  /** The entries are exactly the work of the calls, in order: one section for each, after a successful device
      check for a register call, or that check alone where it failed. */
  predicate Serves(calls: seq<Call>, entries: seq<Entry>)
    decreases |calls|
  {
    if calls == [] then entries == []
    else
      var call, before, n := calls[|calls| - 1], calls[..|calls| - 1], |entries|;
      || (n >= 1 && Checked(call, entries[n - 1], false) && Serves(before, entries[..n - 1]))
      || (n >= 1 && !call.RegisterCall? && Works(call, entries[n - 1].section) && Serves(before, entries[..n - 1]))
      || (n >= 2 && Checked(call, entries[n - 2], true) && Works(call, entries[n - 1].section)
          && Serves(before, entries[..n - 2]))
  }

  /** `section` is what comes next for the last of the calls, after the given entries. */
  predicate ComesNext(calls: seq<Call>, entries: seq<Entry>, section: Section) {
    calls != [] &&
    var call, before, n := calls[|calls| - 1], calls[..|calls| - 1], |entries|;
    || (call.RegisterCall? && section == InitSection(call.dev) && Serves(before, entries))
    || (!call.RegisterCall? && Works(call, section) && Serves(before, entries))
    || (n >= 1 && Checked(call, entries[n - 1], true) && Works(call, section) && Serves(before, entries[..n - 1]))
  }

  predicate LastCall(calls: seq<Call>, call: Call) {
    calls != [] && calls[|calls| - 1] == call
  }

  /** How far a thread is with the calls it has started. */
  predicate OnCourse(s: System, calls: seq<Call>, t: nat) {
    var entries := LogOf(s.log, t);
    match Pc(s, t)
    case Idle => Serves(calls, entries)
    case Blocked(call, section) => LastCall(calls, call) && ComesNext(calls, entries, section)
    case Inside(call, section) => LastCall(calls, call) && ComesNext(calls, entries, section)
    case Loaded(call, section, _) => LastCall(calls, call) && ComesNext(calls, entries, section)
    case Saved(call, section, status) =>
      && LastCall(calls, call)
      && entries != [] && entries[|entries| - 1] == Entry(t, section, status)
      && ComesNext(calls, entries[..|entries| - 1], section)
  }

  lemma LogOfAppend(log: seq<Entry>, e: Entry, t: nat)
    ensures LogOf(log + [e], t) == LogOf(log, t) + (if e.thread == t then [e] else [])
  {
    assert (log + [e])[..|log|] == log;
  }

  lemma OtherThreadsStay(b: UsageBits, s: System, a: Action, t: nat)
    requires Enabled(s, a) && a.t != t
    ensures Pc(Apply(b, s, a), t) == Pc(s, t) && LogOf(Apply(b, s, a).log, t) == LogOf(s.log, t)
  {
    if a.Save? {
      var pc := Pc(s, a.t);
      LogOfAppend(s.log, Entry(a.t, pc.section, RunSection(b, pc.copy, pc.section).0), t);
    }
  }

  lemma StartStep(b: UsageBits, s: System, calls: seq<Call>, t: nat, call: Call)
    requires OnCourse(s, calls, t) && Enabled(s, Start(t, call))
    ensures OnCourse(Apply(b, s, Start(t, call)), calls + [call], t)
  {
    assert (calls + [call])[..|calls|] == calls;
  }

  lemma SaveStep(b: UsageBits, s: System, calls: seq<Call>, t: nat)
    requires OnCourse(s, calls, t) && Enabled(s, Save(t))
    ensures OnCourse(Apply(b, s, Save(t)), calls, t)
  {
    var pc, entries := Pc(s, t), LogOf(s.log, t);
    var entry := Entry(t, pc.section, RunSection(b, pc.copy, pc.section).0);
    LogOfAppend(s.log, entry, t);
    assert (entries + [entry])[..|entries|] == entries;
  }

  lemma ReleaseStep(b: UsageBits, s: System, calls: seq<Call>, t: nat)
    requires OnCourse(s, calls, t) && Enabled(s, Release(t))
    ensures OnCourse(Apply(b, s, Release(t)), calls, t)
  {
    var pc, entries := Pc(s, t), LogOf(s.log, t);
    var before := entries[..|entries| - 1];
    if pc.section.InitSection? && pc.call.RegisterCall? {
      assert ComesNext(calls, before, pc.section) && Serves(calls[..|calls| - 1], before);
    } else if before != [] {
      assert entries[..|entries| - 2] == before[..|before| - 1];
    }
  }

  function WithCall(calls: seq<Call>, a: Action, t: nat): seq<Call> {
    if a.Start? && a.t == t then calls + [a.call] else calls
  }

  lemma CourseStep(b: UsageBits, s: System, calls: seq<Call>, a: Action, t: nat)
    requires OnCourse(s, calls, t) && Enabled(s, a)
    ensures OnCourse(Apply(b, s, a), WithCall(calls, a, t), t)
  {
    if a.t != t {
      OtherThreadsStay(b, s, a, t);
    } else {
      match a
      case Start(_, call) => StartStep(b, s, calls, t, call);
      case Save(_) => SaveStep(b, s, calls, t);
      case Release(_) => ReleaseStep(b, s, calls, t);
      case _ =>
    }
  }

  lemma CallsAppend(calls: seq<Call>, acts: seq<Action>, t: nat)
    requires acts != []
    ensures calls + CallsOf(acts, t) == WithCall(calls, acts[0], t) + CallsOf(acts[1..], t)
  {}

  lemma {:induction false} CourseRun(b: UsageBits, s: System, calls: seq<Call>, acts: seq<Action>, t: nat)
    requires OnCourse(s, calls, t) && Runs(b, s, acts)
    ensures OnCourse(Run(b, s, acts), calls + CallsOf(acts, t), t)
    decreases |acts|
  {
    if acts == [] {
      assert calls + [] == calls;
    } else {
      CourseStep(b, s, calls, acts[0], t);
      CallsAppend(calls, acts, t);
      CourseRun(b, Apply(b, s, acts[0]), WithCall(calls, acts[0], t), acts[1..], t);
    }
  }

  /** In every interleaving the sections a thread has published are, in order, the registry operations and device
      checks of the calls it has started; all of them once it is idle again. With InterleavingIsSequential, which
      says what each section returned, every call does and answers what it stands for. */
  lemma ThreadsDoTheirCalls(b: UsageBits, acts: seq<Action>, t: nat)
    requires Runs(b, Initial(), acts)
    ensures var e := Run(b, Initial(), acts);
      && OnCourse(e, CallsOf(acts, t), t)
      && (Pc(e, t) == Idle ==> Serves(CallsOf(acts, t), LogOf(e.log, t)))
  {
    CourseRun(b, Initial(), [], acts, t);
    assert [] + CallsOf(acts, t) == CallsOf(acts, t);
  }
}

/** Any number of threads calling the entry points of gralloc/gralloc.cpp. Inside the mutex a call works on
    a copy of the shared state that it publishes later, so that only the mutex keeps calls apart. */
module GrallocThreads {
  import opened Options
  import opened GbmFormats
  import opened GbmLocks
  import Reg = GbmRegistry
  import Proofs = GbmRegistryProofs

  datatype Shared = Shared(device: Option<nat>, registry: Reg.Registry)

  /** What one hold of the mutex does. */
  datatype Section =
    | InitSection(dev: Option<nat>)  // gbm_init; `dev` is what gbm_dev_create would return
    | OpSection(op: Reg.Op)

  datatype Call =
    | RegisterCall(dev: Option<nat>, h: Reg.Handle, imported: Option<Reg.BoId>)
    | UnregisterCall(h: Reg.Handle)
    | LockCall(h: Reg.Handle, own: Usage, usage: Usage, answer: ValidMap)
    | UnlockCall(h: Reg.Handle)
    | OpenCall(dev: Option<nat>)     // gbm_mod_open_gpu0
    | PerformCall(dev: Option<nat>)  // gbm_mod_perform
    | AllocCall(h: Reg.Handle, bo: Option<Reg.BoId>)
    | FreeCall(h: Reg.Handle)

  /** The alloc and free functions are reached through the device that a successful open returns. */
  predicate NeedsOpen(call: Call) {
    call.AllocCall? || call.FreeCall?
  }

  function FirstSection(call: Call): Section {
    match call
    case RegisterCall(dev, _, _) => InitSection(dev)
    case OpenCall(dev) => InitSection(dev)
    case PerformCall(dev) => InitSection(dev)
    case UnregisterCall(h) => OpSection(Reg.FreeOp(h))
    case LockCall(h, own, usage, answer) => OpSection(Reg.LockOp(h, own, usage, answer))
    case UnlockCall(h) => OpSection(Reg.UnlockOp(h))
    case AllocCall(h, bo) => OpSection(Reg.CreateOp(h, bo))
    case FreeCall(h) => OpSection(Reg.FreeOp(h))
  }

  /** The section that follows, if the call goes on. */
  function NextSection(call: Call, section: Section, status: Status): Option<Section> {
    if call.RegisterCall? && section.InitSection? && status == Done
    then Some(OpSection(Reg.RegisterOp(call.h, call.imported)))
    else None
  }

  function RunSection(b: UsageBits, sh: Shared, section: Section): (Status, Shared) {
    match section
    case InitSection(dev) =>
      var device := if sh.device.Some? then sh.device else dev;
      (if device.Some? then Done else InvalidArgument, sh.(device := device))
    case OpSection(op) =>
      var (status, registry) := Reg.Do(b, sh.registry, op);
      (status, sh.(registry := registry))
  }

  /** Creating and importing buffers uses the device. */
  predicate UsesDevice(section: Section) {
    section.OpSection? && (section.op.CreateOp? || section.op.RegisterOp?)
  }

  // ---------------------------------------------------------------- threads

  datatype ThreadPc =
    | Idle
    | Blocked(call: Call, section: Section)
    | Inside(call: Call, section: Section)
    | Loaded(call: Call, section: Section, copy: Shared)
    | Saved(call: Call, section: Section, status: Status)

  datatype Entry = Entry(thread: nat, section: Section, status: Status)

  /** `log` and `acquired` are history: the sections published so far with their results, and the threads
      that took the mutex, both in order. */
  datatype System = System(
    owner: Option<nat>, shared: Shared, isOpen: bool, threads: map<nat, ThreadPc>,
    log: seq<Entry>, acquired: seq<nat>)

  datatype Action = Start(t: nat, call: Call) | Acquire(t: nat) | Load(t: nat) | Save(t: nat) | Release(t: nat)

  function Pc(s: System, t: nat): ThreadPc {
    if t in s.threads then s.threads[t] else Idle
  }

  function Initial(): System {
    System(None, Shared(None, Reg.EMPTY), false, map[], [], [])
  }

  predicate Enabled(s: System, a: Action) {
    match a
    case Start(t, call) => Pc(s, t) == Idle && (NeedsOpen(call) ==> s.isOpen)
    case Acquire(t) => Pc(s, t).Blocked? && s.owner == None
    case Load(t) => Pc(s, t).Inside?
    case Save(t) => Pc(s, t).Loaded?
    case Release(t) => Pc(s, t).Saved?
  }

  function Apply(b: UsageBits, s: System, a: Action): System
    requires Enabled(s, a)
  {
    var pc := Pc(s, a.t);
    match a
    case Start(t, call) => s.(threads := s.threads[t := Blocked(call, FirstSection(call))])
    case Acquire(t) =>
      s.(owner := Some(t), threads := s.threads[t := Inside(pc.call, pc.section)], acquired := s.acquired + [t])
    case Load(t) => s.(threads := s.threads[t := Loaded(pc.call, pc.section, s.shared)])
    case Save(t) =>
      var (status, shared) := RunSection(b, pc.copy, pc.section);
      s.(shared := shared, threads := s.threads[t := Saved(pc.call, pc.section, status)],
         log := s.log + [Entry(t, pc.section, status)])
    case Release(t) =>
      var next := match NextSection(pc.call, pc.section, pc.status)
                  case Some(section) => Blocked(pc.call, section)
                  case None => Idle;
      s.(owner := None, threads := s.threads[t := next],
         isOpen := s.isOpen || (pc.call.OpenCall? && pc.status == Done))
  }

  predicate Runs(b: UsageBits, s: System, acts: seq<Action>)
    decreases |acts|
  {
    acts == [] || (Enabled(s, acts[0]) && Runs(b, Apply(b, s, acts[0]), acts[1..]))
  }

  function Run(b: UsageBits, s: System, acts: seq<Action>): System
    requires Runs(b, s, acts)
    decreases |acts|
  {
    if acts == [] then s else Run(b, Apply(b, s, acts[0]), acts[1..])
  }

  // ---------------------------------------------------------------- sequential execution

  /** The sections of the log, one after the other, on a state nobody else touches. */
  function Sequential(b: UsageBits, sh: Shared, log: seq<Entry>): Shared {
    if log == [] then sh
    else RunSection(b, Sequential(b, sh, log[..|log| - 1]), log[|log| - 1].section).1
  }

  /** Each section returned what it returns in the sequential execution. */
  predicate SameResults(b: UsageBits, sh: Shared, log: seq<Entry>) {
    forall i :: 0 <= i < |log| ==>
      log[i].status == RunSection(b, Sequential(b, sh, log[..i]), log[i].section).0
  }

  /** Each section that uses the device finds it in the sequential execution. */
  predicate DeviceFound(b: UsageBits, sh: Shared, log: seq<Entry>) {
    forall i :: 0 <= i < |log| && UsesDevice(log[i].section) ==> Sequential(b, sh, log[..i]).device.Some?
  }

  /** The sections that created the device. */
  function Creations(b: UsageBits, sh: Shared, log: seq<Entry>): nat {
    if log == [] then 0
    else
      var before := log[..|log| - 1];
      Creations(b, sh, before)
      + (if Sequential(b, sh, before).device == None && Sequential(b, sh, log).device.Some? then 1 else 0)
  }

  function ThreadsOf(log: seq<Entry>): seq<nat> {
    seq(|log|, i requires 0 <= i < |log| => log[i].thread)
  }

  // ---------------------------------------------------------------- the invariant

  predicate InCritical(pc: ThreadPc) {
    pc.Inside? || pc.Loaded? || pc.Saved?
  }

  /** A thread past the check of the device: it will use the device, or has just seen it. */
  predicate ExpectsDevice(pc: ThreadPc) {
    match pc
    case Idle => false
    case Blocked(call, section) => NeedsOpen(call) || UsesDevice(section)
    case Inside(call, section) => NeedsOpen(call) || UsesDevice(section)
    case Loaded(call, section, _) => NeedsOpen(call) || UsesDevice(section)
    case Saved(call, section, status) => section.InitSection? && status == Done
  }

  predicate ThreadsInv(s: System) {
    && (forall t :: t in s.threads && InCritical(s.threads[t]) ==> s.owner == Some(t))
    && (forall t :: t in s.threads && s.threads[t].Loaded? ==> s.threads[t].copy == s.shared)
    && (forall t :: t in s.threads && ExpectsDevice(s.threads[t]) ==> s.shared.device.Some?)
    && (s.owner.Some? ==> InCritical(Pc(s, s.owner.value)))
    && (s.isOpen ==> s.shared.device.Some?)
    && (forall t :: t in s.threads && s.threads[t].Saved? && s.threads[t].call.OpenCall? ==>
          s.threads[t].section.InitSection?)
    && (forall t :: t in s.threads && !s.threads[t].Idle? && s.threads[t].call.OpenCall? ==>
          s.threads[t].section.InitSection?)
  }

  predicate OrderInv(s: System) {
    s.acquired == ThreadsOf(s.log)
      + (if s.owner.Some? && !Pc(s, s.owner.value).Saved? then [s.owner.value] else [])
  }

  predicate Inv(b: UsageBits, s: System) {
    && ThreadsInv(s)
    && OrderInv(s)
    && s.shared == Sequential(b, Initial().shared, s.log)
    && SameResults(b, Initial().shared, s.log)
    && DeviceFound(b, Initial().shared, s.log)
  }

  lemma SectionKeepsDevice(b: UsageBits, sh: Shared, section: Section)
    ensures sh.device.Some? ==> RunSection(b, sh, section).1.device == sh.device
    ensures section.InitSection? && RunSection(b, sh, section).0 == Done ==> RunSection(b, sh, section).1.device.Some?
  {}

  lemma ThreadsStep(b: UsageBits, s: System, a: Action)
    requires ThreadsInv(s) && Enabled(s, a)
    ensures ThreadsInv(Apply(b, s, a))
  {
    if a.Save? {
      SectionKeepsDevice(b, Pc(s, a.t).copy, Pc(s, a.t).section);
    }
  }

  lemma OrderStep(b: UsageBits, s: System, a: Action)
    requires ThreadsInv(s) && OrderInv(s) && Enabled(s, a)
    ensures OrderInv(Apply(b, s, a))
  {
    var s1 := Apply(b, s, a);
    if a.Save? {
      assert ThreadsOf(s1.log) == ThreadsOf(s.log) + [a.t];
    }
  }

  lemma SequentialAppend(b: UsageBits, sh: Shared, log: seq<Entry>, e: Entry)
    ensures Sequential(b, sh, log + [e]) == RunSection(b, Sequential(b, sh, log), e.section).1
  {
    assert (log + [e])[..|log|] == log;
  }

  lemma SameResultsAppend(b: UsageBits, sh: Shared, log: seq<Entry>, e: Entry)
    requires SameResults(b, sh, log)
    requires e.status == RunSection(b, Sequential(b, sh, log), e.section).0
    ensures SameResults(b, sh, log + [e])
  {
    var all := log + [e];
    forall i | 0 <= i < |all|
      ensures all[i].status == RunSection(b, Sequential(b, sh, all[..i]), all[i].section).0
    {
      assert all[..i] == log[..i];
      assert i < |log| || log[..i] == log;
    }
  }

  lemma DeviceFoundAppend(b: UsageBits, sh: Shared, log: seq<Entry>, e: Entry)
    requires DeviceFound(b, sh, log)
    requires UsesDevice(e.section) ==> Sequential(b, sh, log).device.Some?
    ensures DeviceFound(b, sh, log + [e])
  {
    var all := log + [e];
    forall i | 0 <= i < |all| && UsesDevice(all[i].section)
      ensures Sequential(b, sh, all[..i]).device.Some?
    {
      assert all[..i] == log[..i];
      assert i < |log| || log[..i] == log;
    }
  }

  lemma InvStep(b: UsageBits, s: System, a: Action)
    requires Inv(b, s) && Enabled(s, a)
    ensures Inv(b, Apply(b, s, a))
  {
    ThreadsStep(b, s, a);
    OrderStep(b, s, a);
    if a.Save? {
      var pc := Pc(s, a.t);
      var e := Entry(a.t, pc.section, RunSection(b, pc.copy, pc.section).0);
      SequentialAppend(b, Initial().shared, s.log, e);
      SameResultsAppend(b, Initial().shared, s.log, e);
      DeviceFoundAppend(b, Initial().shared, s.log, e);
    }
  }

  lemma {:induction false} InvRun(b: UsageBits, s: System, acts: seq<Action>)
    requires Inv(b, s) && Runs(b, s, acts)
    ensures Inv(b, Run(b, s, acts))
    decreases |acts|
  {
    if acts != [] {
      InvStep(b, s, acts[0]);
      InvRun(b, Apply(b, s, acts[0]), acts[1..]);
    }
  }

  // ---------------------------------------------------------------- one call alone

  /** A section that meets a free mutex and runs alone publishes its effect, and hands over to the next
      section of the call or ends it. */
  lemma SectionAlone(b: UsageBits, s: System, t: nat)
    requires s.owner == None && Pc(s, t).Blocked?
    ensures Enabled(s, Acquire(t))
    ensures var s1 := Apply(b, s, Acquire(t));
      Enabled(s1, Load(t)) &&
      var s2 := Apply(b, s1, Load(t));
      Enabled(s2, Save(t)) &&
      var s3 := Apply(b, s2, Save(t));
      Enabled(s3, Release(t)) && AfterSection(b, s, t) == Apply(b, s3, Release(t))
    ensures var pc, e := Pc(s, t), AfterSection(b, s, t);
      var (status, shared) := RunSection(b, s.shared, pc.section);
      && e.shared == shared && e.owner == None
      && e.log == s.log + [Entry(t, pc.section, status)]
      && Pc(e, t) == (match NextSection(pc.call, pc.section, status)
                      case Some(section) => Blocked(pc.call, section)
                      case None => Idle)
  {}

  function AfterSection(b: UsageBits, s: System, t: nat): System
    requires s.owner == None && Pc(s, t).Blocked?
  {
    Apply(b, Apply(b, Apply(b, Apply(b, s, Acquire(t)), Load(t)), Save(t)), Release(t))
  }

  /** A register call alone: without a device it fails and changes nothing; with one it goes on to register,
      in a second hold of the mutex. */
  lemma RegisterAlone(b: UsageBits, s: System, t: nat, call: Call)
    requires s.owner == None && Pc(s, t) == Idle && call.RegisterCall?
    ensures Enabled(s, Start(t, call))
    ensures var s1 := Apply(b, s, Start(t, call));
      s1.owner == None && Pc(s1, t).Blocked? &&
      var s2 := AfterSection(b, s1, t);
      if s.shared.device == None && call.dev == None
      then
        && Pc(s2, t) == Idle && s2.owner == None && s2.shared == s.shared
        && s2.log[|s2.log| - 1].status == InvalidArgument
      else
        && s2.owner == None && Pc(s2, t).Blocked? && s2.shared.registry == s.shared.registry
        && var s3 := AfterSection(b, s2, t);
           && Pc(s3, t) == Idle && s3.shared.device.Some?
           && s3.shared.registry == Reg.Register(s.shared.registry, call.h, call.imported).1
           && s3.log[|s3.log| - 1].status == Reg.Register(s.shared.registry, call.h, call.imported).0
  {
    var s1 := Apply(b, s, Start(t, call));
    SectionAlone(b, s1, t);
    if s.shared.device.Some? || call.dev.Some? {
      SectionAlone(b, AfterSection(b, s1, t), t);
    }
  }

  // ---------------------------------------------------------------- results

  /** Every interleaving leaves the shared state, and has returned the results, of running its critical
      sections one after the other in the order in which the mutex was taken. */
  lemma InterleavingIsSequential(b: UsageBits, acts: seq<Action>)
    requires Runs(b, Initial(), acts)
    ensures var e := Run(b, Initial(), acts);
      && e.shared == Sequential(b, Initial().shared, e.log)
      && SameResults(b, Initial().shared, e.log)
      && (e.owner == None ==> ThreadsOf(e.log) == e.acquired)
      && ThreadsOf(e.log) <= e.acquired
  {
    InvRun(b, Initial(), acts);
  }

  lemma {:induction false} DeviceCreatedOnce(b: UsageBits, sh: Shared, log: seq<Entry>)
    ensures Creations(b, sh, log)
         == (if sh.device == None && Sequential(b, sh, log).device.Some? then 1 else 0)
    ensures sh.device.Some? ==> Sequential(b, sh, log).device == sh.device
    decreases |log|
  {
    if log != [] {
      var before := log[..|log| - 1];
      DeviceCreatedOnce(b, sh, before);
      SectionKeepsDevice(b, Sequential(b, sh, before), log[|log| - 1].section);
    }
  }

  /** In every interleaving the device is created at most once, and every create or import of a buffer
      happens with the device present. */
  lemma DeviceIsThereWhenNeeded(b: UsageBits, acts: seq<Action>)
    requires Runs(b, Initial(), acts)
    ensures var e := Run(b, Initial(), acts);
      && Creations(b, Initial().shared, e.log) == (if e.shared.device.Some? then 1 else 0)
      && DeviceFound(b, Initial().shared, e.log)
      && (forall t :: t in e.threads && e.threads[t].Loaded? && UsesDevice(e.threads[t].section) ==>
            e.threads[t].copy.device.Some?)
  {
    InvRun(b, Initial(), acts);
    DeviceCreatedOnce(b, Initial().shared, Run(b, Initial(), acts).log);
  }

  /** The registry seen through the mutex: the operations of the log, in order, on the empty registry. */
  function OpsOf(log: seq<Entry>): seq<Reg.Op> {
    if log == [] then []
    else OpsOf(log[..|log| - 1])
         + (if log[|log| - 1].section.OpSection? then [log[|log| - 1].section.op] else [])
  }

  lemma {:induction false} DoAllAppend(b: UsageBits, g: Reg.Registry, ops: seq<Reg.Op>, op: Reg.Op)
    ensures Proofs.DoAll(b, g, ops + [op]) == Reg.Do(b, Proofs.DoAll(b, g, ops), op).1
    decreases |ops|
  {
    if ops == [] {
      assert ([op])[1..] == [];
    } else {
      assert (ops + [op])[1..] == ops[1..] + [op];
      DoAllAppend(b, Reg.Do(b, g, ops[0]).1, ops[1..], op);
    }
  }

  lemma {:induction false} SequentialRegistry(b: UsageBits, sh: Shared, log: seq<Entry>)
    ensures Sequential(b, sh, log).registry == Proofs.DoAll(b, sh.registry, OpsOf(log))
    decreases |log|
  {
    if log != [] {
      var before, last := log[..|log| - 1], log[|log| - 1];
      SequentialRegistry(b, sh, before);
      if last.section.OpSection? {
        DoAllAppend(b, sh.registry, OpsOf(before), last.section.op);
      } else {
        assert OpsOf(log) == OpsOf(before) + [] == OpsOf(before);
      }
    }
  }

  /** So under every interleaving each buffer keeps to the lock automaton; and, if the library and the allocator
      keep to their side, live handles stay separate, every bo is accounted for, and the registry is conserved
      exactly if the operations, in mutex order, created no buffer on a stale key. */
  lemma ThreadsConserveRegistry(b: UsageBits, acts: seq<Action>)
    requires Runs(b, Initial(), acts)
    ensures Proofs.RecordsWellFormed(b, Run(b, Initial(), acts).shared.registry)
    ensures var e := Run(b, Initial(), acts);
      Proofs.PlausibleRun(b, Reg.EMPTY, OpsOf(e.log)) ==>
        && Reg.Separate(e.shared.registry)
        && Reg.ConservedBut(e.shared.registry, Proofs.LeakedBy(b, Reg.EMPTY, {}, OpsOf(e.log)))
        && (Reg.Conserved(e.shared.registry) <==> Proofs.LeakedBy(b, Reg.EMPTY, {}, OpsOf(e.log)) == {})
  {
    InvRun(b, Initial(), acts);
    var log := Run(b, Initial(), acts).log;
    SequentialRegistry(b, Initial().shared, log);
    Proofs.RunKeepsRecords(b, Reg.EMPTY, OpsOf(log));
    if Proofs.PlausibleRun(b, Reg.EMPTY, OpsOf(log)) {
      Proofs.RunConservesIffNothingLeaked(b, OpsOf(log));
      var leaked := Proofs.LeakedBy(b, Reg.EMPTY, {}, OpsOf(log));
      Proofs.ConservedIsSeparate(Run(b, Initial(), acts).shared.registry, leaked);
    }
  }
}

/** What the calls made with a handle say of it, and of the registry, without looking at the map. */
module GbmHistory {
  import opened Options
  import opened GbmFormats
  import opened GbmLocks
  import opened GbmRegistry
  import opened GbmRegistryProofs

  // ---------------------------------------------------------------- bound, stale or neither

  /** What the calls made with a handle say of it, without looking at the map: not bound; bound, and locked or
      not since by a call that passed the usage check; or freed, locked or unlocked while it was not bound. */
  datatype History = Unbound | Bound(locked: bool) | Strayed

  function NextHistory(b: UsageBits, past: History, op: Op): History {
    match past
    case Unbound =>
      (match op
       case CreateOp(_, bo) => if bo.Some? then Bound(false) else Unbound
       case RegisterOp(h, bo) => if h != 0 && bo.Some? then Bound(false) else Unbound
       case _ => Strayed)
    case Bound(locked) =>
      (match op
       case FreeOp(_) => Unbound
       case LockOp(_, own, usage, _) => Bound(locked || Permitted(b, own, usage))
       case _ => past)
    case Strayed => Strayed
  }

  function HistoryOf(b: UsageBits, past: History, ops: seq<Op>, h: Handle): History
    decreases |ops|
  {
    if ops == [] then past
    else HistoryOf(b, if ops[0].h == h then NextHistory(b, past, ops[0]) else past, ops[1..], h)
  }

  predicate TellsBinding(g: Registry, past: History, h: Handle) {
    (h in LiveMap(g) <==> past.Bound?) && (h in Stale(g) <==> past.Strayed?)
  }

  lemma BindingStep(b: UsageBits, g: Registry, past: History, op: Op, h: Handle)
    requires TellsBinding(g, past, h)
    ensures TellsBinding(Do(b, g, op).1, if op.h == h then NextHistory(b, past, op) else past, h)
  {
    match op
    case CreateOp(k, bo) =>
      if bo.Some? {
        MakeBoKeepsEntries(g, bo.value);
        EmplaceIsPlain(MakeBo(g, bo.value), k, bo.value);
      }
    case RegisterOp(k, bo) =>
      if bo.Some? {
        MakeBoKeepsEntries(g, bo.value);
        EmplaceIsPlain(MakeBo(g, bo.value), k, bo.value);
      }
    case FreeOp(k) => FreeIsPlain(g, k);
    case _ => LookupIsPlain(g, op.h);
  }

  /** Over any run the calls made with a handle, by themselves, say whether it is live or stale: other handles,
      the library's answers to locks and the order of other calls do not matter. */
  lemma {:induction false} HistoryTellsBinding(b: UsageBits, g: Registry, past: History, ops: seq<Op>, h: Handle)
    requires TellsBinding(g, past, h)
    ensures TellsBinding(DoAll(b, g, ops), HistoryOf(b, past, ops, h), h)
    decreases |ops|
  {
    if ops != [] {
      BindingStep(b, g, past, ops[0], h);
      var next := if ops[0].h == h then NextHistory(b, past, ops[0]) else past;
      HistoryTellsBinding(b, Do(b, g, ops[0]).1, next, ops[1..], h);
    }
  }

  /** A free, lock or unlock of `h`. */
  predicate Probes(op: Op, h: Handle) {
    op.h == h && (op.FreeOp? || op.LockOp? || op.UnlockOp?)
  }

  /** Call number `i` of the run probes `h` while it is not bound. */
  predicate StraysAt(b: UsageBits, g: Registry, ops: seq<Op>, h: Handle, i: int) {
    0 <= i < |ops| && Probes(ops[i], h) && h !in LiveMap(DoAll(b, g, ops[..i]))
  }

  lemma StraysLater(b: UsageBits, g: Registry, ops: seq<Op>, h: Handle, i: int)
    requires 0 < i < |ops|
    ensures StraysAt(b, g, ops, h, i) <==> StraysAt(b, Do(b, g, ops[0]).1, ops[1..], h, i - 1)
  {
    assert ops[..i][1..] == ops[1..][..i - 1] && ops[..i][0] == ops[0];
  }

  /** A key is stale after a run exactly if it was before, or some free, lock or unlock of it came while it was
      not bound; from the empty registry, exactly if such a call came. */
  lemma {:induction false} StaleIffStrayCall(b: UsageBits, g: Registry, ops: seq<Op>, h: Handle)
    ensures h in Stale(DoAll(b, g, ops)) <==> h in Stale(g) || exists i :: StraysAt(b, g, ops, h, i)
    decreases |ops|
  {
    if ops != [] {
      var g1 := Do(b, g, ops[0]).1;
      assert ops[..0] == [] && (StraysAt(b, g, ops, h, 0) <==> Probes(ops[0], h) && h !in LiveMap(g));
      StaleIffStrayCall(b, g1, ops[1..], h);
      OneCallStrays(b, g, ops[0], h);
      if i :| StraysAt(b, g, ops, h, i) && i > 0 {
        StraysLater(b, g, ops, h, i);
      }
      if j :| StraysAt(b, g1, ops[1..], h, j) {
        StraysLater(b, g, ops, h, j + 1);
      }
    }
  }

  lemma OneCallStrays(b: UsageBits, g: Registry, op: Op, h: Handle)
    ensures h in Stale(Do(b, g, op).1) <==> h in Stale(g) || (Probes(op, h) && h !in LiveMap(g))
  {
    var past := if h in LiveMap(g) then Bound(false) else if h in Stale(g) then Strayed else Unbound;
    BindingStep(b, g, past, op, h);
  }

  /** So after any run from the empty registry, registering an importable buffer is refused exactly if its
      handle is bound or has strayed. */
  lemma RegisterRefusedIff(b: UsageBits, ops: seq<Op>, h: Handle, id: BoId)
    requires h != 0
    ensures Register(DoAll(b, EMPTY, ops), h, Some(id)).0 == Done <==> HistoryOf(b, Unbound, ops, h) == Unbound
  {
    HistoryTellsBinding(b, EMPTY, Unbound, ops, h);
  }

  /** One unlock of an unknown handle is enough to have its registration refused for ever. */
  lemma StrayUnlockBlocksRegister(b: UsageBits, h: Handle, id: BoId, ops: seq<Op>)
    requires h != 0
    ensures Register(EMPTY, h, Some(id)).0 == Done
    ensures h !in LiveMap(DoAll(b, EMPTY, [UnlockOp(h)] + ops))
    ensures Register(DoAll(b, EMPTY, [UnlockOp(h)] + ops), h, Some(id)).0 == InvalidArgument
  {
    assert ([UnlockOp(h)] + ops)[1..] == ops;
    StrayedForEver(b, ops, h);
    HistoryTellsBinding(b, EMPTY, Unbound, [UnlockOp(h)] + ops, h);
  }

  lemma {:induction false} StrayedForEver(b: UsageBits, ops: seq<Op>, h: Handle)
    ensures HistoryOf(b, Strayed, ops, h) == Strayed
    decreases |ops|
  {
    if ops != [] {
      StrayedForEver(b, ops[1..], h);
    }
  }

  predicate TellsRecord(g: Registry, past: History, h: Handle) {
    past.Bound? ==> (RecordOf(g, h).Some? <==> past.locked)
  }

  lemma OwnRecordStep(b: UsageBits, g: Registry, past: History, op: Op, h: Handle)
    requires Separate(g) && Plausible(g, op) && op.h == h
    requires TellsBinding(g, past, h) && TellsRecord(g, past, h)
    ensures TellsRecord(Do(b, g, op).1, NextHistory(b, past, op), h)
  {
    LookupIsPlain(g, h);
    if (op.CreateOp? || op.RegisterOp?) && op.bo.Some? {
      MakeBoKeepsEntries(g, op.bo.value);
      EmplaceIsPlain(MakeBo(g, op.bo.value), h, op.bo.value);
    }
  }

  lemma {:induction false} HistoryTellsRecord(b: UsageBits, g: Registry, past: History, ops: seq<Op>, h: Handle)
    requires Separate(g) && PlausibleRun(b, g, ops)
    requires TellsBinding(g, past, h) && TellsRecord(g, past, h)
    ensures TellsRecord(DoAll(b, g, ops), HistoryOf(b, past, ops, h), h)
    decreases |ops|
  {
    if ops != [] {
      OpKeepsSeparate(b, g, ops[0]);
      BindingStep(b, g, past, ops[0], h);
      if ops[0].h == h {
        OwnRecordStep(b, g, past, ops[0], h);
      } else if h in LiveMap(g) {
        OtherHandlesUntouched(b, g, ops[0], h);
      }
      var next := if ops[0].h == h then NextHistory(b, past, ops[0]) else past;
      HistoryTellsRecord(b, Do(b, g, ops[0]).1, next, ops[1..], h);
    }
  }

  /** After any run, unlock reads through a null record exactly if the handle is bound and no lock of it has
      passed the usage check since it was bound; a lock that was refused there does not help, one that failed
      later does. It reports an error exactly if the handle is not bound. */
  lemma UnlockFaultsIffNeverLocked(b: UsageBits, ops: seq<Op>, h: Handle)
    requires PlausibleRun(b, EMPTY, ops)
    ensures var status, past := Unlock(b, DoAll(b, EMPTY, ops), h).0, HistoryOf(b, Unbound, ops, h);
      (status == NullDereference <==> past == Bound(false)) && (status == InvalidArgument <==> !past.Bound?)
  {
    assert Separate(EMPTY);
    RunKeepsSeparate(b, EMPTY, ops);
    HistoryTellsBinding(b, EMPTY, Unbound, ops, h);
    HistoryTellsRecord(b, EMPTY, Unbound, ops, h);
    UnlockFaultsIffNoRecord(b, DoAll(b, EMPTY, ops), h);
  }

  /** The simplest such run: create a buffer and unlock it. */
  lemma UnlockAfterCreateFaults(b: UsageBits, h: Handle, id: BoId)
    requires h != 0
    ensures Unlock(b, DoAll(b, EMPTY, [CreateOp(h, Some(id))]), h).0 == NullDereference
  {
    var ops := [CreateOp(h, Some(id))];
    assert ops[1..] == [] && PlausibleRun(b, Do(b, EMPTY, ops[0]).1, ops[1..]);
    UnlockFaultsIffNeverLocked(b, ops, h);
  }

  // ---------------------------------------------------------------- which runs leak

  /** Call number `i` of a run from the empty registry makes a bo for a handle that has strayed. */
  predicate CreatesOnStrayed(b: UsageBits, ops: seq<Op>, i: int) {
    && 0 <= i < |ops| && ops[i].CreateOp? && ops[i].bo.Some?
    && HistoryOf(b, Unbound, ops[..i], ops[i].h) == Strayed
  }

  lemma {:induction false} PlausibleAt(b: UsageBits, g: Registry, ops: seq<Op>, i: nat)
    requires PlausibleRun(b, g, ops) && i < |ops|
    ensures Plausible(DoAll(b, g, ops[..i]), ops[i])
    decreases i
  {
    if i > 0 {
      assert ops[..i][1..] == ops[1..][..i - 1] && ops[..i][0] == ops[0];
      PlausibleAt(b, Do(b, g, ops[0]).1, ops[1..], i - 1);
    }
  }

  /** So a run leaks exactly if it creates a buffer on a handle that was once freed, locked or unlocked while it
      was not bound: the calls alone say so. */
  lemma RunConservesIffNoCreateOnStrayed(b: UsageBits, ops: seq<Op>)
    requires PlausibleRun(b, EMPTY, ops)
    ensures Conserved(DoAll(b, EMPTY, ops)) <==> !exists i :: CreatesOnStrayed(b, ops, i)
  {
    RunConservesIffNothingLeaked(b, ops);
    LeakedIffLeaksAt(b, EMPTY, {}, ops);
    forall i | 0 <= i < |ops|
      ensures LeaksAt(b, EMPTY, ops, i) <==> CreatesOnStrayed(b, ops, i)
    {
      HistoryTellsBinding(b, EMPTY, Unbound, ops[..i], ops[i].h);
      PlausibleAt(b, EMPTY, ops, i);
    }
  }

  /** A real sequence that leaks: a buffer is created, unregistered and then freed, and the allocator hands its
      address out again. The free finds no bo, but its lookup leaves the null entry on which the next create
      fails to bind. */
  lemma UnregisterThenFreeLeaksNextBuffer(b: UsageBits, h: Handle, first: BoId, second: BoId)
    requires h != 0 && first != second
    ensures var ops := [CreateOp(h, Some(first)), FreeOp(h), FreeOp(h), CreateOp(h, Some(second))];
      PlausibleRun(b, EMPTY, ops) && LeakedBy(b, EMPTY, {}, ops) == {second} && !Conserved(DoAll(b, EMPTY, ops))
  {
    var ops := [CreateOp(h, Some(first)), FreeOp(h), FreeOp(h), CreateOp(h, Some(second))];
    var g1 := Do(b, EMPTY, ops[0]).1;
    var g2 := Do(b, g1, ops[1]).1;
    var g3 := Do(b, g2, ops[2]).1;
    var g4 := Do(b, g3, ops[3]).1;
    assert ops[1..][0] == FreeOp(h) && ops[1..][1..] == ops[2..] && ops[2..][1..] == ops[3..] && ops[3..][1..] == [];
    assert g3.made == {first} && h in Stale(g3);
    var none: set<BoId> := {};
    assert none + none == none && none + {second} == {second};
    assert PlausibleRun(b, g4, []) && LeakedBy(b, g4, {second}, []) == {second};
    assert PlausibleRun(b, g3, ops[3..]) && LeakedBy(b, g3, {}, ops[3..]) == {second};
    assert PlausibleRun(b, g2, ops[2..]) && LeakedBy(b, g2, {}, ops[2..]) == {second};
    assert PlausibleRun(b, g1, ops[1..]) && LeakedBy(b, g1, {}, ops[1..]) == {second};
    assert LeakedBy(b, EMPTY, {}, ops) == {second};
    RunConservesIffNothingLeaked(b, ops);
  }
}

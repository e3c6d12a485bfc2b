/** Conservation and refinement of the buffer registry. */
module GbmRegistryProofs {
  import opened Options
  import opened GbmFormats
  import opened GbmLocks
  import opened GbmRegistry
  import Runs = GbmLockRuns

  // ---------------------------------------------------------------- the plain map

  /** The same operation on a map without null values. */
  function PlainDo(m: map<Handle, BoId>, op: Op): map<Handle, BoId> {
    match op
    case CreateOp(h, bo) => if bo.Some? then m[h := bo.value] else m
    case RegisterOp(h, bo) => if h != 0 && h !in m && bo.Some? then m[h := bo.value] else m
    case FreeOp(h) => m - {h}
    case LockOp(_, _, _, _) => m
    case UnlockOp(_) => m
  }

  lemma LookupIsPlain(g: Registry, h: Handle)
    ensures Lookup(g, h).0 == (if h in LiveMap(g) then Some(LiveMap(g)[h]) else None)
    ensures LiveMap(Lookup(g, h).1) == LiveMap(g)
    ensures Stale(Lookup(g, h).1) == Stale(g) + (if h in LiveMap(g) then {} else {h})
    ensures Lookup(g, h).1 == g.(entries := Lookup(g, h).1.entries)
  {}

  lemma FreeIsPlain(g: Registry, h: Handle)
    ensures LiveMap(Free(g, h)) == LiveMap(g) - {h}
    ensures Stale(Free(g, h)) == Stale(g) + (if h in LiveMap(g) then {} else {h})
  {
    LookupIsPlain(g, h);
  }

  lemma EmplaceIsPlain(g: Registry, h: Handle, id: BoId)
    ensures h !in g.entries ==> LiveMap(Emplace(g, h, id)) == LiveMap(g)[h := id]
    ensures h in g.entries ==> Emplace(g, h, id) == g
    ensures Stale(Emplace(g, h, id)) == Stale(g)
  {}

  lemma MakeBoKeepsEntries(g: Registry, id: BoId)
    ensures LiveMap(MakeBo(g, id)) == LiveMap(g) && Stale(MakeBo(g, id)) == Stale(g)
  {}

  /** The one way the null entries show: a key in Stale makes register refuse, and makes create hand out
      a handle that is not bound. */
  predicate TripsOnStale(g: Registry, op: Op) {
    match op
    case CreateOp(h, bo) => bo.Some? && h in Stale(g)
    case RegisterOp(h, bo) => h != 0 && bo.Some? && h in Stale(g)
    case _ => false
  }

  /** Refinement: the live part behaves like a plain partial map if and only if the operation does not
      trip on a stale key; when it does, it leaves the live part as it was. */
  lemma RefinesPlainMap(b: UsageBits, g: Registry, op: Op)
    requires Plausible(g, op)
    ensures LiveMap(Do(b, g, op).1) == PlainDo(LiveMap(g), op) <==> !TripsOnStale(g, op)
    ensures TripsOnStale(g, op) ==> LiveMap(Do(b, g, op).1) == LiveMap(g)
    ensures op.RegisterOp? ==>
      && (Do(b, g, op).0 == Done <==> op.h != 0 && op.h !in LiveMap(g) && op.bo.Some? && !TripsOnStale(g, op))
      && (Do(b, g, op).0 == Done || Do(b, g, op).0 == InvalidArgument)
  {
    var live := LiveMap(g);
    match op
    case CreateOp(h, bo) =>
      if bo.Some? {
        MakeBoKeepsEntries(g, bo.value);
        EmplaceIsPlain(MakeBo(g, bo.value), h, bo.value);
        assert h in PlainDo(live, op);
      }
    case RegisterOp(h, bo) =>
      if bo.Some? {
        MakeBoKeepsEntries(g, bo.value);
        EmplaceIsPlain(MakeBo(g, bo.value), h, bo.value);
        assert h != 0 && h !in live ==> h in PlainDo(live, op);
      }
    case FreeOp(h) => FreeIsPlain(g, h);
    case LockOp(h, _, _, _) => LookupIsPlain(g, h);
    case UnlockOp(h) => LookupIsPlain(g, h);
  }

  /** Stale keys are never removed and are never live. */
  lemma StaleGrows(b: UsageBits, g: Registry, op: Op)
    ensures Stale(g) <= Stale(Do(b, g, op).1)
    ensures Stale(g) !! LiveMap(g).Keys
    ensures Stale(Do(b, g, op).1) - Stale(g) <= (if op.h in LiveMap(g) then {} else {op.h})
  {
    LookupIsPlain(g, op.h);
    match op
    case CreateOp(h, bo) =>
      if bo.Some? {
        MakeBoKeepsEntries(g, bo.value);
        EmplaceIsPlain(MakeBo(g, bo.value), h, bo.value);
      }
    case RegisterOp(h, bo) =>
      if bo.Some? {
        MakeBoKeepsEntries(g, bo.value);
        EmplaceIsPlain(MakeBo(g, bo.value), h, bo.value);
      }
    case FreeOp(h) => FreeIsPlain(g, h);
    case _ =>
  }

  // ---------------------------------------------------------------- conservation, one operation

  lemma ValuesBind(live: map<Handle, BoId>, h: Handle, id: BoId)
    requires h !in live
    ensures live[h := id].Values == live.Values + {id}
    ensures |live[h := id]| == |live| + 1
  {
    var live1 := live[h := id];
    assert live1[h] == id;
    forall x | x in live.Values
      ensures x in live1.Values
    {
      var k :| k in live && live[k] == x;
      assert live1[k] == x;
    }
    assert live1.Keys == live.Keys + {h};
  }

  lemma ValuesUnbind(live: map<Handle, BoId>, h: Handle)
    requires h in live && Injective(live)
    ensures (live - {h}).Values == live.Values - {live[h]}
    ensures |live - {h}| == |live| - 1 && Injective(live - {h})
  {
    var live1 := live - {h};
    forall x | x in live.Values && x != live[h]
      ensures x in live1.Values
    {
      var k :| k in live && live[k] == x;
      assert live1[k] == x;
    }
    assert live1.Keys == live.Keys - {h};
  }

  lemma LedgerMake(current: set<BoId>, made: set<BoId>, destroyed: seq<BoId>, id: BoId)
    requires Ledger(current, made, destroyed) && id !in made
    ensures Ledger(current + {id}, made + {id}, destroyed)
  {
    assert id !in current && id !in destroyed;
  }

  lemma LedgerDestroy(current: set<BoId>, made: set<BoId>, destroyed: seq<BoId>, id: BoId)
    requires Ledger(current, made, destroyed) && id in current
    ensures Ledger(current - {id}, made, destroyed + [id])
  {
    assert forall x :: x in destroyed + [id] <==> x in destroyed || x == id;
  }

  lemma AccountBind(live: map<Handle, BoId>, leaked: set<BoId>, current: set<BoId>, h: Handle, id: BoId)
    requires Accounted(live, leaked, current) && h !in live && id !in current
    ensures Accounted(live[h := id], leaked, current + {id})
  {
    ValuesBind(live, h, id);
    InjectiveBind(live, h, id);
    assert id !in leaked;
    assert live.Values + {id} + leaked == (live.Values + leaked) + {id};
  }

  lemma InjectiveBind(live: map<Handle, BoId>, h: Handle, id: BoId)
    requires Injective(live) && h !in live && id !in live.Values
    ensures Injective(live[h := id])
  {
    assert forall k :: k in live ==> live[k] in live.Values;
  }

  lemma LeakSets(values: set<BoId>, leaked: set<BoId>, id: BoId)
    requires values !! leaked && id !in values + leaked
    ensures values !! leaked + {id} && values + (leaked + {id}) == (values + leaked) + {id}
    ensures |leaked + {id}| == |leaked| + 1 && |(values + leaked) + {id}| == |values + leaked| + 1
  {}

  lemma AccountLeak(live: map<Handle, BoId>, leaked: set<BoId>, current: set<BoId>, id: BoId)
    requires Accounted(live, leaked, current) && id !in current
    ensures Accounted(live, leaked + {id}, current + {id})
  {
    var values := live.Values;
    LeakSets(values, leaked, id);
  }

  lemma AccountUnbind(live: map<Handle, BoId>, leaked: set<BoId>, current: set<BoId>, h: Handle)
    requires Accounted(live, leaked, current) && h in live
    ensures live[h] in current && Accounted(live - {h}, leaked, current - {live[h]})
  {
    ValuesUnbind(live, h);
    assert live[h] in live.Values;
  }

  lemma BindShape(g: Registry, h: Handle, id: BoId)
    ensures var g1 := Emplace(MakeBo(g, id), h, id);
      && LiveMap(g1) == (if h in g.entries then LiveMap(g) else LiveMap(g)[h := id])
      && g1.bos == g.bos[id := None]
      && g1.made == g.made + {id} && g1.destroyed == g.destroyed
  {
    MakeBoKeepsEntries(g, id);
    EmplaceIsPlain(MakeBo(g, id), h, id);
  }

  lemma BindKeepsConserved(g: Registry, leaked: set<BoId>, h: Handle, id: BoId)
    requires ConservedBut(g, leaked) && id !in g.made
    ensures ConservedBut(Emplace(MakeBo(g, id), h, id), if h in g.entries then leaked + {id} else leaked)
  {
    BindShape(g, h, id);
    var current := g.bos.Keys;
    assert Emplace(MakeBo(g, id), h, id).bos.Keys == current + {id};
    LedgerMake(current, g.made, g.destroyed, id);
    NotCurrent(g, leaked, id);
    if h in g.entries {
      AccountLeak(LiveMap(g), leaked, current, id);
    } else {
      AccountBind(LiveMap(g), leaked, current, h, id);
    }
  }

  lemma NotCurrent(g: Registry, leaked: set<BoId>, id: BoId)
    requires ConservedBut(g, leaked) && id !in g.made
    ensures id !in g.bos.Keys
  {}

  lemma UnbindKeepsConserved(g: Registry, leaked: set<BoId>, h: Handle)
    requires ConservedBut(g, leaked)
    ensures ConservedBut(Free(g, h), leaked)
  {
    FreeIsPlain(g, h);
    LookupIsPlain(g, h);
    if h in LiveMap(g) {
      AccountUnbind(LiveMap(g), leaked, g.bos.Keys, h);
      LedgerDestroy(g.bos.Keys, g.made, g.destroyed, LiveMap(g)[h]);
      assert Free(g, h).bos.Keys == g.bos.Keys - {LiveMap(g)[h]};
    } else {
      assert LiveMap(g) - {h} == LiveMap(g);
    }
  }

  lemma LocksKeepLedger(b: UsageBits, g: Registry, op: Op)
    requires op.LockOp? || op.UnlockOp?
    ensures var g1 := Do(b, g, op).1;
      LiveMap(g1) == LiveMap(g) && g1.bos.Keys == g.bos.Keys && g1.made == g.made && g1.destroyed == g.destroyed
  {
    LookupIsPlain(g, op.h);
  }

  /** The bo that an operation leaks: one made for a create whose handle is already a key. */
  function LeakOf(g: Registry, op: Op): set<BoId> {
    if op.CreateOp? && op.bo.Some? && op.h in g.entries then {op.bo.value} else {}
  }

  lemma PlusLeakOf(g: Registry, leaked: set<BoId>, op: Op)
    ensures leaked + LeakOf(g, op)
         == if op.CreateOp? && op.bo.Some? && op.h in g.entries then leaked + {op.bo.value} else leaked
  {}

  lemma NonCreateKeepsConserved(b: UsageBits, g: Registry, leaked: set<BoId>, op: Op)
    requires ConservedBut(g, leaked) && Plausible(g, op) && !op.CreateOp?
    ensures ConservedBut(Do(b, g, op).1, leaked)
  {
    match op
    case RegisterOp(h, bo) =>
      if h != 0 && h !in g.entries && bo.Some? {
        BindKeepsConserved(g, leaked, h, bo.value);
      }
    case FreeOp(h) => UnbindKeepsConserved(g, leaked, h);
    case _ => LocksKeepLedger(b, g, op);
  }

  /** Every operation keeps every bo accounted for, and leaks exactly what LeakOf says. */
  lemma OpKeepsConserved(b: UsageBits, g: Registry, leaked: set<BoId>, op: Op)
    requires ConservedBut(g, leaked) && Plausible(g, op)
    ensures ConservedBut(Do(b, g, op).1, leaked + LeakOf(g, op))
  {
    PlusLeakOf(g, leaked, op);
    if op.CreateOp? {
      if op.bo.Some? {
        BindKeepsConserved(g, leaked, op.h, op.bo.value);
      }
    } else {
      NonCreateKeepsConserved(b, g, leaked, op);
    }
  }

  /** What is leaked is determined by the registry. */
  lemma LeakedIsUnique(g: Registry, leaked: set<BoId>, other: set<BoId>)
    requires ConservedBut(g, leaked) && ConservedBut(g, other)
    ensures leaked == other && forall id :: id in leaked <==> id in other
  {
    var live := LiveMap(g).Values;
    assert leaked == g.bos.Keys - live && other == g.bos.Keys - live;
  }

  /** A create that gets a bo keeps conservation if and only if its handle is no key at all. On a stale key the
      new bo is leaked: made, never bound, never destroyed. */
  lemma CreateConservesIffFreshKey(b: UsageBits, g: Registry, h: Handle, id: BoId)
    requires Conserved(g) && Plausible(g, CreateOp(h, Some(id)))
    ensures Conserved(Do(b, g, CreateOp(h, Some(id))).1) <==> h !in g.entries
    ensures h in g.entries ==> id !in LiveMap(Do(b, g, CreateOp(h, Some(id))).1).Values
  {
    var g1 := Do(b, g, CreateOp(h, Some(id))).1;
    OpKeepsConserved(b, g, {}, CreateOp(h, Some(id)));
    assert ConservedBut(g1, LeakOf(g, CreateOp(h, Some(id)))) by {
      assert {} + LeakOf(g, CreateOp(h, Some(id))) == LeakOf(g, CreateOp(h, Some(id)));
    }
    if h in g.entries && Conserved(g1) {
      LeakedIsUnique(g1, {id}, {});
    }
  }

  lemma EmptyIsConserved()
    ensures Conserved(EMPTY)
  {
    assert LiveMap(EMPTY) == map[];
  }

  // ---------------------------------------------------------------- isolation

  lemma ConservedIsSeparate(g: Registry, leaked: set<BoId>)
    requires ConservedBut(g, leaked)
    ensures Separate(g)
  {
    assert forall h :: h in LiveMap(g) ==> LiveMap(g)[h] in LiveMap(g).Values;
  }

  lemma BindKeepsSeparate(g: Registry, h: Handle, id: BoId)
    requires Separate(g) && id !in g.made
    ensures Separate(Emplace(MakeBo(g, id), h, id))
  {
    BindShape(g, h, id);
  }

  /** Live handles stay separate whatever has leaked. */
  lemma OpKeepsSeparate(b: UsageBits, g: Registry, op: Op)
    requires Separate(g) && Plausible(g, op)
    ensures Separate(Do(b, g, op).1)
  {
    match op
    case CreateOp(h, bo) =>
      if bo.Some? {
        BindKeepsSeparate(g, h, bo.value);
      }
    case RegisterOp(h, bo) =>
      if h != 0 && h !in g.entries && bo.Some? {
        BindKeepsSeparate(g, h, bo.value);
      }
    case FreeOp(h) =>
      FreeIsPlain(g, h);
      LookupIsPlain(g, h);
    case LockOp(_, _, _, _) => LocksKeepLedger(b, g, op);
    case UnlockOp(_) => LocksKeepLedger(b, g, op);
  }

  lemma LockTouchesOneRecord(b: UsageBits, g: Registry, op: Op, id: BoId)
    requires op.LockOp? || op.UnlockOp?
    requires id in g.bos && (op.h in LiveMap(g) ==> LiveMap(g)[op.h] != id)
    ensures var g1 := Do(b, g, op).1;
      LiveMap(g1) == LiveMap(g) && id in g1.bos && g1.bos[id] == g.bos[id]
  {
    LookupIsPlain(g, op.h);
  }

  lemma CreateTouchesOneHandle(b: UsageBits, g: Registry, op: Op, k: Handle)
    requires op.CreateOp? || op.RegisterOp?
    requires Separate(g) && Plausible(g, op) && k != op.h && k in LiveMap(g)
    ensures var g1 := Do(b, g, op).1;
      k in LiveMap(g1) && LiveMap(g1)[k] == LiveMap(g)[k] && RecordOf(g1, k) == RecordOf(g, k)
  {
    var id := LiveMap(g)[k];
    assert id in g.bos && id in g.made;
    if op.bo.Some? {
      MakeBoKeepsEntries(g, op.bo.value);
      EmplaceIsPlain(MakeBo(g, op.bo.value), op.h, op.bo.value);
    }
  }

  lemma FreeTouchesOneHandle(g: Registry, h: Handle, k: Handle)
    requires Separate(g) && k != h && k in LiveMap(g)
    ensures var g1 := Free(g, h);
      k in LiveMap(g1) && LiveMap(g1)[k] == LiveMap(g)[k] && RecordOf(g1, k) == RecordOf(g, k)
  {
    LookupIsPlain(g, h);
    FreeIsPlain(g, h);
  }

  /** Isolation: an operation on one handle leaves every other live handle bound to the same bo, with the
      same lock record. */
  lemma OtherHandlesUntouched(b: UsageBits, g: Registry, op: Op, k: Handle)
    requires Separate(g) && Plausible(g, op) && k != op.h && k in LiveMap(g)
    ensures var g1 := Do(b, g, op).1;
      k in LiveMap(g1) && LiveMap(g1)[k] == LiveMap(g)[k] && RecordOf(g1, k) == RecordOf(g, k)
  {
    match op
    case CreateOp(_, _) => CreateTouchesOneHandle(b, g, op, k);
    case RegisterOp(_, _) => CreateTouchesOneHandle(b, g, op, k);
    case FreeOp(h) => FreeTouchesOneHandle(g, h, k);
    case _ => LockTouchesOneRecord(b, g, op, LiveMap(g)[k]);
  }

  lemma UnlockFaultsIffNoRecord(b: UsageBits, g: Registry, h: Handle)
    requires Separate(g)
    ensures Unlock(b, g, h).0 == NullDereference <==> h in LiveMap(g) && RecordOf(g, h) == None
    ensures Unlock(b, g, h).0 == InvalidArgument <==> h !in LiveMap(g)
  {
    LookupIsPlain(g, h);
  }

  // ---------------------------------------------------------------- whole runs

  predicate PlausibleRun(b: UsageBits, g: Registry, ops: seq<Op>)
    decreases |ops|
  {
    ops == [] || (Plausible(g, ops[0]) && PlausibleRun(b, Do(b, g, ops[0]).1, ops[1..]))
  }

  function DoAll(b: UsageBits, g: Registry, ops: seq<Op>): Registry
    decreases |ops|
  {
    if ops == [] then g else DoAll(b, Do(b, g, ops[0]).1, ops[1..])
  }

  /** `leaked` and the bos that the creates of a run leak. */
  function LeakedBy(b: UsageBits, g: Registry, leaked: set<BoId>, ops: seq<Op>): set<BoId>
    decreases |ops|
  {
    if ops == [] then leaked else LeakedBy(b, Do(b, g, ops[0]).1, leaked + LeakOf(g, ops[0]), ops[1..])
  }

  /** Over any run: distinct live handles have distinct bos, each bo is destroyed at most once and is then
      unreachable, bos made minus bos destroyed is the number of live handles plus that of the bos leaked, those
      are the bos made for creates on keys already there, and stale keys only accumulate. */
  lemma {:induction false} RunKeepsLedger(b: UsageBits, g: Registry, leaked: set<BoId>, ops: seq<Op>)
    requires ConservedBut(g, leaked) && PlausibleRun(b, g, ops)
    ensures ConservedBut(DoAll(b, g, ops), LeakedBy(b, g, leaked, ops))
    ensures Stale(g) <= Stale(DoAll(b, g, ops))
    decreases |ops|
  {
    if ops != [] {
      OpKeepsConserved(b, g, leaked, ops[0]);
      StaleGrows(b, g, ops[0]);
      RunKeepsLedger(b, Do(b, g, ops[0]).1, leaked + LeakOf(g, ops[0]), ops[1..]);
    }
  }

  /** Call number `i` of the run makes a bo for a handle that is already a key. */
  predicate LeaksAt(b: UsageBits, g: Registry, ops: seq<Op>, i: int) {
    0 <= i < |ops| && LeakOf(DoAll(b, g, ops[..i]), ops[i]) != {}
  }

  lemma LeaksLater(b: UsageBits, g: Registry, ops: seq<Op>, i: int)
    requires 0 < i < |ops|
    ensures LeaksAt(b, g, ops, i) <==> LeaksAt(b, Do(b, g, ops[0]).1, ops[1..], i - 1)
  {
    assert ops[..i][1..] == ops[1..][..i - 1] && ops[..i][0] == ops[0];
  }

  lemma {:induction false} LeakedIffLeaksAt(b: UsageBits, g: Registry, leaked: set<BoId>, ops: seq<Op>)
    ensures LeakedBy(b, g, leaked, ops) != {} <==> leaked != {} || exists i :: LeaksAt(b, g, ops, i)
    decreases |ops|
  {
    if ops != [] {
      var g1 := Do(b, g, ops[0]).1;
      assert ops[..0] == [] && (LeaksAt(b, g, ops, 0) <==> LeakOf(g, ops[0]) != {});
      assert leaked + LeakOf(g, ops[0]) == {} <==> leaked == {} && LeakOf(g, ops[0]) == {};
      LeakedIffLeaksAt(b, g1, leaked + LeakOf(g, ops[0]), ops[1..]);
      if i :| LeaksAt(b, g, ops, i) && i > 0 {
        LeaksLater(b, g, ops, i);
      }
      if j :| LeaksAt(b, g1, ops[1..], j) {
        LeaksLater(b, g, ops, j + 1);
      }
    }
  }

  /** After any run from the empty registry, bos made minus bos destroyed is live handles plus leaked bos, and
      the registry is conserved exactly if nothing was leaked. */
  lemma RunConservesIffNothingLeaked(b: UsageBits, ops: seq<Op>)
    requires PlausibleRun(b, EMPTY, ops)
    ensures var g, leaked := DoAll(b, EMPTY, ops), LeakedBy(b, EMPTY, {}, ops);
      && ConservedBut(g, leaked)
      && |g.made| - |g.destroyed| == |LiveMap(g)| + |leaked|
      && (Conserved(g) <==> leaked == {})
  {
    var g, leaked := DoAll(b, EMPTY, ops), LeakedBy(b, EMPTY, {}, ops);
    EmptyIsConserved();
    RunKeepsLedger(b, EMPTY, {}, ops);
    if Conserved(g) {
      LeakedIsUnique(g, leaked, {});
    }
  }

  /** The handle separation that every run keeps. */
  lemma {:induction false} RunKeepsSeparate(b: UsageBits, g: Registry, ops: seq<Op>)
    requires Separate(g) && PlausibleRun(b, g, ops)
    ensures Separate(DoAll(b, g, ops))
    decreases |ops|
  {
    if ops != [] {
      OpKeepsSeparate(b, g, ops[0]);
      RunKeepsSeparate(b, Do(b, g, ops[0]).1, ops[1..]);
    }
  }

  function PlainDoAll(m: map<Handle, BoId>, ops: seq<Op>): map<Handle, BoId>
    decreases |ops|
  {
    if ops == [] then m else PlainDoAll(PlainDo(m, ops[0]), ops[1..])
  }

  predicate NeverTrips(b: UsageBits, g: Registry, ops: seq<Op>)
    decreases |ops|
  {
    ops == [] || (!TripsOnStale(g, ops[0]) && NeverTrips(b, Do(b, g, ops[0]).1, ops[1..]))
  }

  /** The live map of any run is that of the same operations on a plain map, as long as no operation
      trips on a stale key. */
  lemma {:induction false} RunRefinesPlainMap(b: UsageBits, g: Registry, ops: seq<Op>)
    requires PlausibleRun(b, g, ops) && NeverTrips(b, g, ops)
    ensures LiveMap(DoAll(b, g, ops)) == PlainDoAll(LiveMap(g), ops)
    decreases |ops|
  {
    if ops != [] {
      RefinesPlainMap(b, g, ops[0]);
      RunRefinesPlainMap(b, Do(b, g, ops[0]).1, ops[1..]);
    }
  }

  // ---------------------------------------------------------------- lock records across the registry

  /** Every lock record in the registry is one the automaton describes. */
  ghost predicate RecordsWellFormed(b: UsageBits, g: Registry) {
    forall id :: id in g.bos && g.bos[id].Some? ==> WellFormed(b, g.bos[id].value)
  }

  lemma OpKeepsRecords(b: UsageBits, g: Registry, op: Op)
    requires RecordsWellFormed(b, g)
    ensures RecordsWellFormed(b, Do(b, g, op).1)
  {
    var bo := Lookup(g, op.h).0;
    if bo.Some? && bo.value in g.bos {
      match op {
        case LockOp(_, _, usage, answer) =>
          LockRefines(b, RecordOrFresh(g.bos[bo.value]), usage, answer);
        case UnlockOp(_) =>
          if g.bos[bo.value].Some? {
            UnlockRefines(b, g.bos[bo.value].value);
          }
        case _ =>
      }
    }
  }

  /** So in every reachable registry every buffer's map data is set exactly while the CPU holds it, alone. */
  lemma {:induction false} RunKeepsRecords(b: UsageBits, g: Registry, ops: seq<Op>)
    requires RecordsWellFormed(b, g)
    ensures RecordsWellFormed(b, DoAll(b, g, ops))
    decreases |ops|
  {
    if ops != [] {
      OpKeepsRecords(b, g, ops[0]);
      RunKeepsRecords(b, Do(b, g, ops[0]).1, ops[1..]);
    }
  }

  /** The calls of a run that concern the buffer bound to `h`. */
  function OnBuffer(ops: seq<Op>, h: Handle): seq<Runs.BufferOp>
    decreases |ops|
  {
    if ops == [] then []
    else
      (match ops[0]
       case LockOp(k, _, usage, answer) => if k == h then [Runs.LockOp(usage, answer)] else []
       case UnlockOp(k) => if k == h then [Runs.UnlockOp] else []
       case _ => [])
      + OnBuffer(ops[1..], h)
  }

  /** `h` is not freed, and the usage stored in its handle is `own`. */
  predicate Keeps(ops: seq<Op>, h: Handle, own: Usage) {
    forall op :: op in ops ==> op != FreeOp(h) && (op.LockOp? && op.h == h ==> op.own == own)
  }

  function BufferRecord(g: Registry, h: Handle): LockRecord {
    RecordOrFresh(RecordOf(g, h))
  }

  lemma OwnOpsStep(b: UsageBits, g: Registry, op: Op, h: Handle, own: Usage)
    requires Separate(g) && Plausible(g, op)
    requires h in LiveMap(g) && Keeps([op], h, own)
    ensures h in LiveMap(Do(b, g, op).1)
    ensures BufferRecord(Do(b, g, op).1, h) == Runs.Exec(b, own, BufferRecord(g, h), OnBuffer([op], h))
  {
    assert op in [op];
    assert [op][1..] == [];
    if op.h != h {
      OtherHandlesUntouched(b, g, op, h);
    } else {
      LookupIsPlain(g, h);
    }
  }

  lemma {:induction false} ExecAppend(
    b: UsageBits, own: Usage, r: LockRecord, ops: seq<Runs.BufferOp>, more: seq<Runs.BufferOp>)
    ensures Runs.Exec(b, own, r, ops + more) == Runs.Exec(b, own, Runs.Exec(b, own, r, ops), more)
    decreases |ops|
  {
    if ops == [] {
      assert ops + more == more;
    } else {
      assert (ops + more)[1..] == ops[1..] + more;
      ExecAppend(b, own, Runs.Step(b, own, r, ops[0]).record, ops[1..], more);
    }
  }

  lemma OnBufferHead(ops: seq<Op>, h: Handle)
    requires ops != []
    ensures OnBuffer(ops, h) == OnBuffer([ops[0]], h) + OnBuffer(ops[1..], h)
  {
    assert [ops[0]][1..] == [];
    assert OnBuffer([], h) == [];
  }

  lemma KeepsSplits(ops: seq<Op>, h: Handle, own: Usage)
    requires ops != [] && Keeps(ops, h, own)
    ensures Keeps([ops[0]], h, own) && Keeps(ops[1..], h, own)
  {}

  /** Locality: whatever runs on other handles in between, the lock record of a bound buffer is the one
      that its own locks and unlocks alone would give. So every fact about runs on one buffer holds of
      each buffer of a shared registry. */
  lemma {:induction false} BufferSeesOnlyItsOwnCalls(b: UsageBits, g: Registry, ops: seq<Op>, h: Handle, own: Usage)
    requires Separate(g) && PlausibleRun(b, g, ops)
    requires h in LiveMap(g) && Keeps(ops, h, own)
    ensures h in LiveMap(DoAll(b, g, ops))
    ensures BufferRecord(DoAll(b, g, ops), h) == Runs.Exec(b, own, BufferRecord(g, h), OnBuffer(ops, h))
    decreases |ops|
  {
    if ops == [] {
    } else {
      var g1 := Do(b, g, ops[0]).1;
      KeepsSplits(ops, h, own);
      OpKeepsSeparate(b, g, ops[0]);
      OwnOpsStep(b, g, ops[0], h, own);
      BufferSeesOnlyItsOwnCalls(b, g1, ops[1..], h, own);
      var first := OnBuffer([ops[0]], h);
      OnBufferHead(ops, h);
      ExecAppend(b, own, BufferRecord(g, h), first, OnBuffer(ops[1..], h));
    }
  }

  /** A buffer whose own calls in a run are balanced ends the run with the lock record it started with,
      whatever happens to other buffers meanwhile. */
  lemma BalancedCallsRestoreBuffer(b: UsageBits, g: Registry, ops: seq<Op>, h: Handle, own: Usage)
    requires Separate(g) && RecordsWellFormed(b, g) && PlausibleRun(b, g, ops)
    requires h in LiveMap(g) && Keeps(ops, h, own)
    requires Runs.Balanced(b, own, BufferRecord(g, h), OnBuffer(ops, h), 0)
    ensures BufferRecord(DoAll(b, g, ops), h) == BufferRecord(g, h)
  {
    BufferSeesOnlyItsOwnCalls(b, g, ops, h, own);
    assert WellFormed(b, BufferRecord(g, h));
    Runs.BalancedRunRestores(b, own, BufferRecord(g, h), OnBuffer(ops, h));
  }
}

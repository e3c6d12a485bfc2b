/** The per-buffer lock record of gralloc/gralloc_gbm.cpp and the automaton it implements. */
module GbmLocks {
  import opened Options
  import opened GbmFormats

  /** A pointer; 0 is NULL. */
  type Address = nat

  /** struct bo_data_t */
  datatype LockRecord = LockRecord(mapData: Address, lockCount: nat, lockedFor: Usage)

  const FRESH := LockRecord(0, 0, {})

  datatype Status = Done | InvalidArgument | OutOfMemory | NullDereference

  /** What gbm_bo_map does: it succeeds with a non-null address and non-null map data, or fails and
      leaves the map data null. */
  datatype MapOutcome = Mapped(address: Address, data: Address) | MapFailed
  {
    predicate Valid() {
      Mapped? ==> address != 0 && data != 0
    }
  }

  type ValidMap = m: MapOutcome | m.Valid() witness MapFailed

  predicate Sw(b: UsageBits, usage: Usage) {
    Has(usage, b.swWriteMask + b.swReadMask)
  }

  predicate Subset(usage: Usage, within: Usage) {
    usage <= within
  }

  /** The check on the buffer's own usage before a lock. */
  predicate Permitted(b: UsageBits, bufferUsage: Usage, usage: Usage) {
    || Subset(usage, bufferUsage)
    || Has(bufferUsage, b.swReadOften) || Has(bufferUsage, b.hwFb) || Has(bufferUsage, b.hwTexture)
  }

  /** Which bits of a buffer's own usage let every lock pass; without them only usages within the buffer's own
      pass. */
  predicate Opens(b: UsageBits, bit: nat) {
    bit in b.swReadOften || bit in b.hwFb || bit in b.hwTexture
  }

  lemma PermittedIff(b: UsageBits, own: Usage)
    ensures (forall usage :: Permitted(b, own, usage)) <==> exists bit :: bit in own && Opens(b, bit)
    ensures !(exists bit :: bit in own && Opens(b, bit)) ==> forall usage :: Permitted(b, own, usage) <==> usage <= own
  {
    if bit :| bit in own && Opens(b, bit) {
      assert bit in own * b.swReadOften || bit in own * b.hwFb || bit in own * b.hwTexture;
    } else {
      assert own * b.swReadOften == {} && own * b.hwFb == {} && own * b.hwTexture == {};
      var beyond := Bound(own);
      assert !Permitted(b, own, {beyond});
    }
  }

  /** A number above all bits of the usage. */
  ghost function Bound(own: Usage): (r: nat)
    ensures forall bit :: bit in own ==> bit < r
  {
    if own == {} then 0
    else
      var bit :| bit in own;
      assert forall k :: k in own ==> k == bit || k in own - {bit};
      var rest := Bound(own - {bit});
      if bit < rest then rest else bit + 1
  }

  /** The outcome of a lock or unlock: status, new record, the address handed out, and the map data
      created (for a lock) or given back to gbm_bo_unmap (for an unlock). */
  datatype Outcome = Outcome(status: Status, record: LockRecord, address: Address, mapping: Option<Address>)

  /** gbm_map, given what the library answers. */
  function MapRecord(r: LockRecord, answer: ValidMap): Outcome {
    if r.mapData != 0 then Outcome(InvalidArgument, r, 0, None)
    else
      match answer
      case Mapped(address, data) => Outcome(Done, r.(mapData := data), address, Some(data))
      case MapFailed => Outcome(OutOfMemory, r, 0, None)
  }

  /** gralloc_gbm_bo_lock from the point where the lock record exists. */
  function LockRecordFor(b: UsageBits, r: LockRecord, usage: Usage, answer: ValidMap): Outcome {
    if r.lockCount != 0 && !Subset(usage, r.lockedFor) then Outcome(InvalidArgument, r, 0, None)
    else
      var wanted := usage + r.lockedFor;
      if Sw(b, wanted) then
        var o := MapRecord(r, answer);
        if o.status != Done then o
        else o.(record := LockRecord(o.record.mapData, r.lockCount + 1, r.lockedFor + wanted))
      else Outcome(Done, LockRecord(r.mapData, r.lockCount + 1, r.lockedFor + wanted), 0, None)
  }

  /** Whether a lock that maps asks for write access. */
  predicate MapsForWrite(b: UsageBits, r: LockRecord, usage: Usage) {
    Has(usage + r.lockedFor, b.swWriteMask)
  }

  /** The rectangle of a lock, and what gbm_map asks of the library: an extent from the origin, for reading or
      for reading and writing. */
  datatype Rect = Rect(x: nat, y: nat, w: nat, h: nat)

  datatype MapRequest = MapRequest(extent: (nat, nat), write: bool)

  /** What a lock asks of the library, if it gets as far as asking. */
  function LockAsks(b: UsageBits, r: LockRecord, usage: Usage, format: HalFormat, rect: Rect): Option<MapRequest> {
    if (r.lockCount == 0 || Subset(usage, r.lockedFor)) && Sw(b, usage + r.lockedFor) && r.mapData == 0
    then Some(MapRequest(MapExtent(format, rect.x, rect.y, rect.w, rect.h), MapsForWrite(b, r, usage)))
    else None
  }

  /** gralloc_gbm_bo_unlock from the point where the lock record is at hand. */
  function UnlockRecord(b: UsageBits, r: LockRecord): Outcome {
    if r.lockCount == 0 then Outcome(Done, r, 0, None)
    else
      var mapped := Sw(b, r.lockedFor);
      var count := r.lockCount - 1;
      Outcome(Done,
              LockRecord(if mapped then 0 else r.mapData, count, if count == 0 then {} else r.lockedFor),
              0, if mapped then Some(r.mapData) else None)
  }

  // ---------------------------------------------------------------- usage facts

  lemma SwOfUnion(b: UsageBits, u: Usage, v: Usage)
    ensures Sw(b, u + v) <==> Sw(b, u) || Sw(b, v)
  {
    HasOfUnion(u, v, b.swWriteMask + b.swReadMask);
  }

  // ---------------------------------------------------------------- the automaton

  /** What the code implements: CPU mappings are exclusive, GPU-only locks are shared. */
  datatype Mode = Unlocked | CpuLocked(usage: Usage) | SharedHw(usage: Usage, holders: nat)

  function NextLock(b: UsageBits, m: Mode, usage: Usage, answer: ValidMap): (Status, Mode) {
    match m
    case Unlocked =>
      if !Sw(b, usage) then (Done, SharedHw(usage, 1))
      else if answer.Mapped? then (Done, CpuLocked(usage))
      else (OutOfMemory, Unlocked)
    case CpuLocked(_) => (InvalidArgument, m)
    case SharedHw(first, n) =>
      if Subset(usage, first) then (Done, SharedHw(first, n + 1)) else (InvalidArgument, m)
  }

  function NextUnlock(m: Mode): Mode {
    match m
    case Unlocked => Unlocked
    case CpuLocked(_) => Unlocked
    case SharedHw(first, n) => if n <= 1 then Unlocked else SharedHw(first, n - 1)
  }

  /** What every record reached from FRESH satisfies. */
  predicate WellFormed(b: UsageBits, r: LockRecord) {
    && (r.mapData != 0 <==> r.lockCount >= 1 && Sw(b, r.lockedFor))
    && (Sw(b, r.lockedFor) ==> r.lockCount == 1)
    && (r.lockCount == 0 ==> r.lockedFor == {})
  }

  function ModeOf(b: UsageBits, r: LockRecord): Mode {
    if r.lockCount == 0 then Unlocked
    else if Sw(b, r.lockedFor) then CpuLocked(r.lockedFor)
    else SharedHw(r.lockedFor, r.lockCount)
  }

  lemma LockUnlocked(b: UsageBits, r: LockRecord, usage: Usage, answer: ValidMap)
    requires WellFormed(b, r) && r.lockCount == 0
    ensures r == FRESH
    ensures LockRecordFor(b, r, usage, answer)
         == if !Sw(b, usage) then Outcome(Done, LockRecord(0, 1, usage), 0, None)
            else match answer
                 case Mapped(address, data) => Outcome(Done, LockRecord(data, 1, usage), address, Some(data))
                 case MapFailed => Outcome(OutOfMemory, r, 0, None)
  {
    assert usage + r.lockedFor == usage && r.lockedFor + usage == usage;
  }

  lemma LockHeld(b: UsageBits, r: LockRecord, usage: Usage, answer: ValidMap)
    requires WellFormed(b, r) && r.lockCount != 0
    ensures LockRecordFor(b, r, usage, answer)
         == if Sw(b, r.lockedFor) || !Subset(usage, r.lockedFor) then Outcome(InvalidArgument, r, 0, None)
            else Outcome(Done, r.(lockCount := r.lockCount + 1), 0, None)
    ensures Subset(usage, r.lockedFor) && Sw(b, usage) ==> Sw(b, r.lockedFor)
  {
    if Subset(usage, r.lockedFor) {
      SwOfUnion(b, usage, r.lockedFor);
      assert usage + r.lockedFor == r.lockedFor;
    }
  }

  /** The record refines the automaton at every lock: same status, same next mode, and nothing changes
      on a refusal. */
  lemma LockRefines(b: UsageBits, r: LockRecord, usage: Usage, answer: ValidMap)
    requires WellFormed(b, r)
    ensures var o := LockRecordFor(b, r, usage, answer);
      && WellFormed(b, o.record)
      && (o.status, ModeOf(b, o.record)) == NextLock(b, ModeOf(b, r), usage, answer)
      && (o.status != Done ==> o.record == r && o.mapping == None && o.address == 0)
      && (o.mapping.Some? <==> o.status == Done && Sw(b, usage))
      && (o.mapping.Some? ==> r.mapData == 0 && o.mapping.value == o.record.mapData != 0)
      && (o.mapping.Some? ==> answer.Mapped? && o.address == answer.address && o.mapping.value == answer.data)
      && (o.mapping == None ==> o.address == 0)
      && (o.mapping == None ==> o.record.mapData == r.mapData)
  {
    if r.lockCount == 0 {
      LockUnlocked(b, r, usage, answer);
    } else {
      LockHeld(b, r, usage, answer);
    }
  }

  lemma UnlockRefines(b: UsageBits, r: LockRecord)
    requires WellFormed(b, r)
    ensures var o := UnlockRecord(b, r);
      && WellFormed(b, o.record)
      && o.status == Done
      && ModeOf(b, o.record) == NextUnlock(ModeOf(b, r))
      && (o.mapping.Some? <==> ModeOf(b, r).CpuLocked?)
      && (o.mapping.Some? ==> o.mapping.value == r.mapData != 0 && o.record.mapData == 0)
      && (o.mapping == None ==> o.record.mapData == r.mapData)
      && (o.record.lockCount != 0 ==> o.record.lockedFor == r.lockedFor)
  {}

  /** A CPU-locked buffer refuses every further lock, even with the very same usage. */
  lemma CpuLockIsExclusive(b: UsageBits, r: LockRecord, usage: Usage, answer: ValidMap)
    requires WellFormed(b, r) && Sw(b, r.lockedFor)
    ensures r.lockCount == 1
    ensures LockRecordFor(b, r, usage, answer) == Outcome(InvalidArgument, r, 0, None)
  {
    LockHeld(b, r, usage, answer);
  }

  /** Access is as asked: the library is asked to map exactly when an unlocked buffer is locked with a software
      bit, so once per epoch; a mapping exists exactly if it was asked for and granted; write access is asked for
      exactly when the lock's own usage has a software write bit, so a read-only lock never gets it; and a usage
      of hardware bits alone never maps. */
  lemma MappingMatchesUsage(
    b: UsageBits, r: LockRecord, usage: Usage, answer: ValidMap, format: HalFormat, rect: Rect)
    requires b.Valid() && WellFormed(b, r)
    ensures var o, asked := LockRecordFor(b, r, usage, answer), LockAsks(b, r, usage, format, rect);
      && (asked.Some? <==> ModeOf(b, r) == Unlocked && Sw(b, usage))
      && (o.mapping.Some? <==> asked.Some? && answer.Mapped?)
      && (o.status == OutOfMemory <==> asked.Some? && answer.MapFailed?)
      && (asked.Some? ==> (asked.value.write <==> Has(usage, b.swWriteMask)))
      && (asked.Some? && usage <= b.swReadMask ==> !asked.value.write)
      && (usage <= b.cursor + b.hwTexture + b.hwRender + b.hwFb + b.hwComposer ==> o.mapping == None)
  {
    LockRefines(b, r, usage, answer);
    if r.lockCount == 0 {
      assert usage + r.lockedFor == usage;
    } else {
      LockHeld(b, r, usage, answer);
    }
    assert usage <= b.swReadMask ==> usage * b.swWriteMask == {};
    var hardware := b.cursor + b.hwTexture + b.hwRender + b.hwFb + b.hwComposer;
    assert usage <= hardware ==> usage * (b.swWriteMask + b.swReadMask) <= hardware * (b.swReadMask + b.swWriteMask);
  }
}

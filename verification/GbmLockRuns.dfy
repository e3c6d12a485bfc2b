/** Runs of locks and unlocks on one buffer. */
module GbmLockRuns {
  import opened Options
  import opened GbmFormats
  import opened GbmLocks

  datatype BufferOp = LockOp(usage: Usage, answer: ValidMap) | UnlockOp

  /** One call on a buffer whose own usage is `own`: the usage check, then the lock record. */
  function Step(b: UsageBits, own: Usage, r: LockRecord, op: BufferOp): Outcome {
    match op
    case LockOp(usage, answer) =>
      if Permitted(b, own, usage) then LockRecordFor(b, r, usage, answer)
      else Outcome(InvalidArgument, r, 0, None)
    case UnlockOp => UnlockRecord(b, r)
  }

  function Exec(b: UsageBits, own: Usage, r: LockRecord, ops: seq<BufferOp>): LockRecord
    decreases |ops|
  {
    if ops == [] then r else Exec(b, own, Step(b, own, r, ops[0]).record, ops[1..])
  }

  lemma StepKeepsWellFormed(b: UsageBits, own: Usage, r: LockRecord, op: BufferOp)
    requires WellFormed(b, r)
    ensures WellFormed(b, Step(b, own, r, op).record)
  {
    match op
    case LockOp(usage, answer) => LockRefines(b, r, usage, answer);
    case UnlockOp => UnlockRefines(b, r);
  }

  /** In every reachable state the map data is set exactly while the CPU holds the buffer, and then it
      holds it alone. */
  lemma {:induction false} ExecKeepsWellFormed(b: UsageBits, own: Usage, r: LockRecord, ops: seq<BufferOp>)
    requires WellFormed(b, r)
    ensures WellFormed(b, Exec(b, own, r, ops))
    decreases |ops|
  {
    if ops != [] {
      StepKeepsWellFormed(b, own, r, ops[0]);
      ExecKeepsWellFormed(b, own, Step(b, own, r, ops[0]).record, ops[1..]);
    }
  }

  // ---------------------------------------------------------------- balanced runs

  function Delta(op: BufferOp, o: Outcome): int {
    match op
    case LockOp(_, _) => if o.status == Done then 1 else 0
    case UnlockOp => -1
  }

  /** Every unlock of the run undoes a successful lock of the run, and in the end all are undone.
      Refused locks may come anywhere. */
  predicate Balanced(b: UsageBits, own: Usage, r: LockRecord, ops: seq<BufferOp>, depth: nat)
    decreases |ops|
  {
    if ops == [] then depth == 0
    else
      var o := Step(b, own, r, ops[0]);
      depth + Delta(ops[0], o) >= 0 && Balanced(b, own, o.record, ops[1..], depth + Delta(ops[0], o))
  }

  /** The record `depth` successful locks above `start`. */
  predicate Above(b: UsageBits, start: LockRecord, r: LockRecord, depth: nat) {
    && WellFormed(b, r)
    && match ModeOf(b, start)
       case Unlocked => r.lockCount == depth
       case CpuLocked(_) => depth == 0 && r == start
       case SharedHw(_, n) => r == start.(lockCount := n + depth)
  }

  lemma AboveStep(b: UsageBits, own: Usage, start: LockRecord, r: LockRecord, op: BufferOp, depth: nat)
    requires WellFormed(b, start) && Above(b, start, r, depth)
    requires depth + Delta(op, Step(b, own, r, op)) >= 0
    ensures Above(b, start, Step(b, own, r, op).record, depth + Delta(op, Step(b, own, r, op)))
  {
    StepKeepsWellFormed(b, own, r, op);
    match op
    case LockOp(usage, answer) =>
      LockRefines(b, r, usage, answer);
      if r.lockCount != 0 {
        LockHeld(b, r, usage, answer);
      }
    case UnlockOp => UnlockRefines(b, r);
  }

  lemma {:induction false} BalancedFrom(
    b: UsageBits, own: Usage, start: LockRecord, r: LockRecord, ops: seq<BufferOp>, depth: nat)
    requires WellFormed(b, start) && Above(b, start, r, depth) && Balanced(b, own, r, ops, depth)
    ensures Exec(b, own, r, ops) == start
    decreases |ops|
  {
    if ops == [] {
    } else {
      var o := Step(b, own, r, ops[0]);
      AboveStep(b, own, start, r, ops[0], depth);
      BalancedFrom(b, own, start, o.record, ops[1..], depth + Delta(ops[0], o));
    }
  }

  /** Any balanced run, with any refused locks in between, restores the record exactly, from whatever
      mode it starts in. */
  lemma BalancedRunRestores(b: UsageBits, own: Usage, r: LockRecord, ops: seq<BufferOp>)
    requires WellFormed(b, r) && Balanced(b, own, r, ops, 0)
    ensures Exec(b, own, r, ops) == r
  {
    BalancedFrom(b, own, r, r, ops, 0);
  }

  // ---------------------------------------------------------------- maps and unmaps

  /** The map data created by the successful gbm_bo_map calls of the run, in order. */
  function Maps(b: UsageBits, own: Usage, r: LockRecord, ops: seq<BufferOp>): seq<Address>
    decreases |ops|
  {
    if ops == [] then []
    else
      var o := Step(b, own, r, ops[0]);
      (if ops[0].LockOp? && o.mapping.Some? then [o.mapping.value] else []) + Maps(b, own, o.record, ops[1..])
  }

  /** The map data handed to gbm_bo_unmap during the run, in order. */
  function Unmaps(b: UsageBits, own: Usage, r: LockRecord, ops: seq<BufferOp>): seq<Address>
    decreases |ops|
  {
    if ops == [] then []
    else
      var o := Step(b, own, r, ops[0]);
      (if ops[0].UnlockOp? && o.mapping.Some? then [o.mapping.value] else []) + Unmaps(b, own, o.record, ops[1..])
  }

  function Outstanding(r: LockRecord): seq<Address> {
    if r.mapData == 0 then [] else [r.mapData]
  }

  /** Conservation of mappings over any run: what was outstanding or has been mapped is, in order, what
      has been unmapped followed by what is outstanding now. So maps minus unmaps is the change in
      whether map data is set, every mapping is given back at most once, and never a null one. */
  lemma {:induction false} MappingsAreConserved(b: UsageBits, own: Usage, r: LockRecord, ops: seq<BufferOp>)
    requires WellFormed(b, r)
    ensures Outstanding(r) + Maps(b, own, r, ops) == Unmaps(b, own, r, ops) + Outstanding(Exec(b, own, r, ops))
    ensures 0 !in Unmaps(b, own, r, ops)
    decreases |ops|
  {
    if ops == [] {
    } else {
      var o := Step(b, own, r, ops[0]);
      StepKeepsWellFormed(b, own, r, ops[0]);
      MappingsAreConserved(b, own, o.record, ops[1..]);
      var maps, unmaps := Maps(b, own, o.record, ops[1..]), Unmaps(b, own, o.record, ops[1..]);
      var end := Outstanding(Exec(b, own, r, ops));
      assert Outstanding(o.record) + maps == unmaps + end;
      match ops[0]
      case LockOp(usage, answer) =>
        LockRefines(b, r, usage, answer);
        assert Outstanding(r) + Maps(b, own, r, ops) == Outstanding(o.record) + maps;
      case UnlockOp =>
        UnlockRefines(b, r);
        assert Unmaps(b, own, r, ops) + end == Outstanding(r) + (unmaps + end);
    }
  }

  lemma MapsMinusUnmaps(b: UsageBits, own: Usage, ops: seq<BufferOp>)
    ensures |Maps(b, own, FRESH, ops)| - |Unmaps(b, own, FRESH, ops)|
         == (if Exec(b, own, FRESH, ops).mapData != 0 then 1 else 0)
  {
    MappingsAreConserved(b, own, FRESH, ops);
    assert Outstanding(FRESH) == [];
    assert |Maps(b, own, FRESH, ops)|
        == |Unmaps(b, own, FRESH, ops)| + |Outstanding(Exec(b, own, FRESH, ops))|;
  }

  // ---------------------------------------------------------------- epochs

  /** The buffer stays locked throughout the run. */
  predicate StaysLocked(b: UsageBits, own: Usage, r: LockRecord, ops: seq<BufferOp>)
    decreases |ops|
  {
    r.lockCount != 0 && (ops == [] || StaysLocked(b, own, Step(b, own, r, ops[0]).record, ops[1..]))
  }

  lemma {:induction false} LockedRunKeepsUsage(b: UsageBits, own: Usage, r: LockRecord, ops: seq<BufferOp>)
    requires WellFormed(b, r) && StaysLocked(b, own, r, ops)
    ensures Exec(b, own, r, ops).lockedFor == r.lockedFor
    decreases |ops|
  {
    if ops != [] {
      StepKeepsWellFormed(b, own, r, ops[0]);
      match ops[0] {
        case LockOp(usage, answer) => LockHeld(b, r, usage, answer);
        case UnlockOp => UnlockRefines(b, r);
      }
      LockedRunKeepsUsage(b, own, Step(b, own, r, ops[0]).record, ops[1..]);
    }
  }

  /** locked_for is the usage of the lock that opened the current epoch: whatever follows the first
      successful lock of an unlocked buffer, as long as the buffer stays locked. */
  lemma EpochUsage(b: UsageBits, own: Usage, r: LockRecord, usage: Usage, answer: ValidMap, ops: seq<BufferOp>)
    requires WellFormed(b, r) && r.lockCount == 0
    requires var first := Step(b, own, r, LockOp(usage, answer));
      first.status == Done && StaysLocked(b, own, first.record, ops)
    ensures Exec(b, own, r, [LockOp(usage, answer)] + ops).lockedFor == usage
  {
    var lock := LockOp(usage, answer);
    var first := Step(b, own, r, lock);
    LockUnlocked(b, r, usage, answer);
    StepKeepsWellFormed(b, own, r, lock);
    LockedRunKeepsUsage(b, own, first.record, ops);
    assert ([lock] + ops)[1..] == ops;
  }
}

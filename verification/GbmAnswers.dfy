/** What the calls of the registry answer. */
module GbmAnswers {
  import opened Options
  import opened GbmFormats
  import opened GbmLocks
  import opened GbmRegistry
  import opened GbmRegistryProofs

  // ---------------------------------------------------------------- create

  /** A create that gets a bo hands out its handle, and one that gets none hands out nothing; the handle handed
      out is bound to that bo exactly if it was no key before. */
  lemma CreateAnswers(b: UsageBits, g: Registry, h: Handle, bo: Option<BoId>)
    requires Plausible(g, CreateOp(h, bo))
    ensures var (result, g1) := Create(g, h, bo);
      && (result != 0 <==> g1.made != g.made)
      && (result != 0 <==> Do(b, g, CreateOp(h, bo)).0 == Done)
      && (result == 0 <==> Do(b, g, CreateOp(h, bo)).0 == OutOfMemory)
      && (result != 0 ==> result == h && g1.made == g.made + {bo.value})
      && (result != 0 ==> (h in LiveMap(g1) && LiveMap(g1)[h] == bo.value <==> h !in Stale(g)))
      && (result == 0 ==> g1 == g)
  {
    if bo.Some? {
      assert bo.value in g.made + {bo.value};
      MakeBoKeepsEntries(g, bo.value);
      EmplaceIsPlain(MakeBo(g, bo.value), h, bo.value);
    }
  }

  // ---------------------------------------------------------------- lock and unlock

  /** A lock succeeds exactly if the buffer is live and its count has gone up by one. */
  lemma LockSucceedsIffCounted(
    b: UsageBits, g: Registry, h: Handle, own: Usage, usage: Usage, answer: ValidMap)
    requires Separate(g)
    ensures var (status, g1) := Lock(b, g, h, own, usage, answer);
      status == Done <==> h in LiveMap(g) && BufferRecord(g1, h).lockCount == BufferRecord(g, h).lockCount + 1
  {
    LookupIsPlain(g, h);
  }

  /** A lock of a live buffer answers as the automaton in its mode does, if the usage check lets it pass, and is
      refused without a trace otherwise; a lock of any other handle is refused. */
  lemma LockAnswersAutomaton(b: UsageBits, g: Registry, h: Handle, own: Usage, usage: Usage, answer: ValidMap)
    requires Separate(g) && RecordsWellFormed(b, g)
    ensures var (status, g1) := Lock(b, g, h, own, usage, answer);
      var mode, mode1 := ModeOf(b, BufferRecord(g, h)), ModeOf(b, BufferRecord(g1, h));
      && (h !in LiveMap(g) ==> status == InvalidArgument && g1.bos == g.bos)
      && (h in LiveMap(g) && !Permitted(b, own, usage) ==> status == InvalidArgument && g1.bos == g.bos)
      && (h in LiveMap(g) && Permitted(b, own, usage) ==> (status, mode1) == NextLock(b, mode, usage, answer))
  {
    LookupIsPlain(g, h);
    if h in LiveMap(g) {
      assert WellFormed(b, BufferRecord(g, h));
      LockRefines(b, BufferRecord(g, h), usage, answer);
    }
  }

  /** An unlock of a live buffer that has a record succeeds, follows the automaton, and gives back exactly the
      mapping of a CPU lock, which is not null. */
  lemma UnlockAnswersAutomaton(b: UsageBits, g: Registry, h: Handle)
    requires Separate(g) && RecordsWellFormed(b, g)
    ensures var (status, g1) := Unlock(b, g, h);
      var mode, mode1 := ModeOf(b, BufferRecord(g, h)), ModeOf(b, BufferRecord(g1, h));
      && (h !in LiveMap(g) ==> status == InvalidArgument)
      && (status != Done ==> g1.bos == g.bos && GivenBack(b, g, h) == None)
      && (h in LiveMap(g) && RecordOf(g, h).Some? ==> status == Done && mode1 == NextUnlock(mode))
      && GivenBack(b, g, h) == (if h in LiveMap(g) && mode.CpuLocked? then Some(BufferRecord(g, h).mapData) else None)
      && GivenBack(b, g, h) != Some(0)
  {
    LookupIsPlain(g, h);
    if h in LiveMap(g) && RecordOf(g, h).Some? {
      UnlockRefines(b, BufferRecord(g, h));
    }
  }

  // ---------------------------------------------------------------- the locks of a run

  /** The answers to the locks of `h` in a run, in order. */
  function LockAnswers(b: UsageBits, g: Registry, ops: seq<Op>, h: Handle): seq<Status>
    decreases |ops|
  {
    if ops == [] then []
    else
      var (status, g1) := Do(b, g, ops[0]);
      (if ops[0].LockOp? && ops[0].h == h then [status] else []) + LockAnswers(b, g1, ops[1..], h)
  }

  /** What the automaton, starting in `mode`, answers to the locks of `h` when only the locks and unlocks of `h`
      reach it. */
  function AutomatonAnswers(b: UsageBits, own: Usage, mode: Mode, ops: seq<Op>, h: Handle): seq<Status>
    decreases |ops|
  {
    if ops == [] then []
    else if ops[0].h == h && ops[0].LockOp? then
      var (status, mode1) :=
        if Permitted(b, own, ops[0].usage) then NextLock(b, mode, ops[0].usage, ops[0].answer)
        else (InvalidArgument, mode);
      [status] + AutomatonAnswers(b, own, mode1, ops[1..], h)
    else if ops[0].h == h && ops[0].UnlockOp? then AutomatonAnswers(b, own, NextUnlock(mode), ops[1..], h)
    else AutomatonAnswers(b, own, mode, ops[1..], h)
  }

  lemma OtherOpsKeepMode(b: UsageBits, g: Registry, op: Op, h: Handle)
    requires Separate(g) && Plausible(g, op) && h in LiveMap(g) && op != FreeOp(h)
    requires op.h != h || op.CreateOp? || op.RegisterOp?
    ensures h in LiveMap(Do(b, g, op).1) && BufferRecord(Do(b, g, op).1, h) == BufferRecord(g, h)
  {
    if op.h != h {
      OtherHandlesUntouched(b, g, op, h);
    }
  }

  lemma UnlockMode(b: UsageBits, g: Registry, h: Handle)
    requires Separate(g) && RecordsWellFormed(b, g) && h in LiveMap(g)
    ensures var g1 := Unlock(b, g, h).1;
      h in LiveMap(g1) && ModeOf(b, BufferRecord(g1, h)) == NextUnlock(ModeOf(b, BufferRecord(g, h)))
  {
    LookupIsPlain(g, h);
    UnlockAnswersAutomaton(b, g, h);
  }

  /** In any run over a shared registry every lock of a live buffer is answered as the automaton answers that
      buffer's own calls. */
  lemma {:induction false} RunAnswersAutomaton(b: UsageBits, g: Registry, ops: seq<Op>, h: Handle, own: Usage)
    requires Separate(g) && RecordsWellFormed(b, g) && PlausibleRun(b, g, ops)
    requires h in LiveMap(g) && Keeps(ops, h, own)
    ensures LockAnswers(b, g, ops, h) == AutomatonAnswers(b, own, ModeOf(b, BufferRecord(g, h)), ops, h)
    decreases |ops|
  {
    if ops != [] {
      var op, g1 := ops[0], Do(b, g, ops[0]).1;
      KeepsSplits(ops, h, own);
      assert op in ops;
      OpKeepsSeparate(b, g, op);
      OpKeepsRecords(b, g, op);
      if op.h == h && op.LockOp? {
        LookupIsPlain(g, h);
        LockAnswersAutomaton(b, g, h, own, op.usage, op.answer);
      } else if op.h == h && op.UnlockOp? {
        UnlockMode(b, g, h);
      } else {
        OtherOpsKeepMode(b, g, op, h);
      }
      RunAnswersAutomaton(b, g1, ops[1..], h, own);
    }
  }
}

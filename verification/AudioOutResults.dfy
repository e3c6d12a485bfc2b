/** The promises of the audio output streams, over all reachable states and runs. */
module AudioOutResults {
  import opened Options
  import opened AudioPosition
  import opened AudioOut
  import opened AudioOutProofs

  // ---------------------------------------------------------------- safety

  /** A stream inside pcm_mmap_write has its pcm open and is not in standby, and nobody else is inside any
      section of that stream. */
  lemma WritesGoToAnOpenPcm(outAll: set<nat>, s: System, t: ThreadId)
    requires Reachable(outAll, s) && PcOf(s, t).Writing?
    ensures PcOf(s, t).id in s.streams
    ensures var stream := s.streams[PcOf(s, t).id];
      stream.pcm == Open && !stream.standby && !stream.unavailable && stream.owner == Some(t)
    ensures forall u :: u != t && HoldsStream(PcOf(s, u)) ==> Target(PcOf(s, u)) != Target(PcOf(s, t))
  {
    ReachableInv(outAll, s);
    assert Owns(s, t, PcOf(s, t).id);
    assert StreamOk(s.streams[PcOf(s, t).id], HolderOf(s, PcOf(s, t).id));
    forall u | u != t && HoldsStream(PcOf(s, u))
      ensures Target(PcOf(s, u)) != Target(PcOf(s, t))
    {
      assert Owns(s, u, Target(PcOf(s, u)).value);
    }
  }

  /** Every lock is released on every path: a thread that is back outside owns no mutex. */
  lemma IdleThreadsOwnNothing(outAll: set<nat>, s: System, t: ThreadId, id: StreamId)
    requires Reachable(outAll, s) && PcOf(s, t) == Idle
    ensures s.deviceOwner != Some(t) && !Owns(s, t, id)
  {
    ReachableInv(outAll, s);
  }

  // ---------------------------------------------------------------- no deadlock

  /** The step thread `t` would take next. */
  function Next(s: System, t: ThreadId): Action
    requires TargetExists(s, PcOf(s, t))
  {
    match PcOf(s, t)
    case Idle => DropDevice(t)
    case WantDevice(_) => LockDevice(t)
    case WantStream(_) => LockStream(t)
    case Both(Write(_, _)) => Check(t, true)
    case Both(Standby(_)) => if StreamOf(s, t).standby then StayStandby(t) else ClosePcm(t)
    case Both(Route(_, _)) => SetRoute(t)
    case Opened(_, _) => MarkRunning(t)
    case Ready(_, _) => LetDeviceGo(t)
    case Refused(_, _) => LetDeviceGo(t)
    case Writing(id, frames, sent) =>
      if sent == frames then Finish(t)
      else if StreamOf(s, t).queued < RING_FRAMES then Push(t, 1)
      else Play(id, 1)
    case Leaving(_, _, _) => Leave(t)
    case PcmClosed(_) => ClearPcm(t)
    case PcmCleared(_) => MarkStandby(t)
    case UnlockStream(_, _) => DropStream(t)
    case UnlockDevice => DropDevice(t)
  }

  /** The thread that thread `t` is waiting for, directly or through one other; `t` itself if it can move. */
  function Blocker(s: System, t: ThreadId): ThreadId {
    var u := if PcOf(s, t).WantDevice? && s.deviceOwner.Some? then s.deviceOwner.value else t;
    var pc := PcOf(s, u);
    if pc.WantStream? && pc.call.id in s.streams && s.streams[pc.call.id].owner.Some?
    then s.streams[pc.call.id].owner.value
    else u
  }

  /** A thread that waits for no owned mutex can move. */
  lemma CanMove(s: System, u: ThreadId)
    requires Inv(s) && PcOf(s, u) != Idle
    requires PcOf(s, u).WantDevice? ==> s.deviceOwner == None
    requires PcOf(s, u).WantStream? ==> TargetExists(s, PcOf(s, u)) && StreamOf(s, u).owner == None
    ensures TargetExists(s, PcOf(s, u)) && Enabled(s, Next(s, u))
  {
    var pc := PcOf(s, u);
    assert TargetExists(s, pc);
    if pc.Writing? {
      assert Owns(s, u, pc.id);
      assert StreamOk(s.streams[pc.id], pc);
    }
  }

  lemma BlockerWaitsForNobody(s: System, t: ThreadId)
    requires LockInv(s) && PcOf(s, t) != Idle
    ensures var pc := PcOf(s, Blocker(s, t));
      && pc != Idle
      && (pc.WantDevice? ==> s.deviceOwner == None)
      && (pc.WantStream? ==> TargetExists(s, pc) && StreamOf(s, Blocker(s, t)).owner == None)
  {
    var u := if PcOf(s, t).WantDevice? && s.deviceOwner.Some? then s.deviceOwner.value else t;
    var pc := PcOf(s, u);
    assert TargetExists(s, pc);
    if pc.WantStream? && s.streams[pc.call.id].owner.Some? {
      assert HoldsStream(PcOf(s, s.streams[pc.call.id].owner.value));
    }
  }

  /** No deadlock: whatever thread is inside a call, following who waits for whom at most twice leads to a
      thread whose next step is enabled (for a write into a full ring, the hardware's). */
  lemma NoDeadlock(outAll: set<nat>, s: System, t: ThreadId)
    requires Reachable(outAll, s) && PcOf(s, t) != Idle
    ensures var u := Blocker(s, t);
      PcOf(s, u) != Idle && TargetExists(s, PcOf(s, u)) && Enabled(s, Next(s, u))
  {
    ReachableInv(outAll, s);
    BlockerWaitsForNobody(s, t);
    CanMove(s, Blocker(s, t));
  }

  // ---------------------------------------------------------------- unavailable streams

  predicate Frozen(s: System, id: StreamId, written: uint32, total: nat) {
    && id in s.streams
    && s.streams[id].unavailable && s.streams[id].standby
    && s.streams[id].written == written && s.streams[id].total == total
  }

  lemma FrozenStep(outAll: set<nat>, s: System, a: Action, id: StreamId, written: uint32, total: nat)
    requires Inv(s) && Enabled(s, a) && Frozen(s, id, written, total)
    ensures Frozen(Apply(outAll, s, a), id, written, total)
  {
    assert StreamOk(s.streams[id], HolderOf(s, id));
    if Elsewhere(s, a, id) {
      OtherStreamsUntouched(outAll, s, a, id);
    } else if !a.Play? {
      HolderIsActor(outAll, s, a, id);
    }
  }

  /** Once pcm_open has failed, the stream stays unavailable and in standby, and nothing is ever added to
      `written` again. */
  lemma {:induction false} UnavailableForEver(outAll: set<nat>, s: System, acts: seq<Action>, id: StreamId)
    requires Inv(s) && Runs(outAll, s, acts) && id in s.streams && s.streams[id].unavailable
    ensures Frozen(Run(outAll, s, acts), id, s.streams[id].written, s.streams[id].total)
    decreases |acts|
  {
    assert StreamOk(s.streams[id], HolderOf(s, id));
    if acts != [] {
      FrozenStep(outAll, s, acts[0], id, s.streams[id].written, s.streams[id].total);
      InvStep(outAll, s, acts[0]);
      UnavailableForEver(outAll, Apply(outAll, s, acts[0]), acts[1..], id);
    }
  }

  // ---------------------------------------------------------------- frame conservation

  /** Frames are conserved: what was pushed has been heard (played or dropped at standby) or is queued,
      and what was counted in `written` falls short of what was pushed by the write in flight only. */
  lemma FramesAreConserved(outAll: set<nat>, s: System, id: StreamId)
    requires Reachable(outAll, s) && id in s.streams
    ensures var stream := s.streams[id];
      && stream.total + InFlight(HolderOf(s, id)) == stream.heard + stream.queued
      && stream.queued <= RING_FRAMES
      && stream.written == stream.total % UINT32
  {
    ReachableInv(outAll, s);
    assert StreamOk(s.streams[id], HolderOf(s, id));
  }

  predicate Grows(before: Stream, after: Stream) {
    before.total <= after.total && before.heard <= after.heard && before.pushed <= after.pushed
  }

  lemma GrowStep(outAll: set<nat>, s: System, a: Action, id: StreamId)
    requires LockInv(s) && Enabled(s, a) && id in s.streams
    ensures id in Apply(outAll, s, a).streams
    ensures Grows(s.streams[id], Apply(outAll, s, a).streams[id])
  {
    if Elsewhere(s, a, id) {
      OtherStreamsUntouched(outAll, s, a, id);
    }
  }

  lemma {:induction false} GrowRun(outAll: set<nat>, s: System, acts: seq<Action>, id: StreamId)
    requires Inv(s) && Runs(outAll, s, acts) && id in s.streams
    ensures id in Run(outAll, s, acts).streams
    ensures Grows(s.streams[id], Run(outAll, s, acts).streams[id])
    decreases |acts|
  {
    if acts != [] {
      InvStep(outAll, s, acts[0]);
      GrowStep(outAll, s, acts[0], id);
      GrowRun(outAll, Apply(outAll, s, acts[0]), acts[1..], id);
    }
  }

  // ---------------------------------------------------------------- presentation position

  /** The position query takes no lock: it tests the pcm and reads the ring in one state, and `written` in a
      later one. With a pcm that is closed but still pointed to the source has no defined result. */
  function Sample(width: SizeWidth, ring: Stream, later: Stream): Option<nat>
    requires ring.pcm != Closed && ring.queued <= RING_FRAMES
  {
    Query(width, ring.pcm == Open, later.written, Some(RING_FRAMES - ring.queued))
  }

  /** The frames a query claims: heard at its first read, plus counted by its second, minus pushed by its
      first. */
  function Claimed(ring: Stream, later: Stream): int {
    ring.heard + later.total - ring.pushed
  }

  /** A claim of `value` frames, `counted` being the frames written, as a query of the given width returns it:
      modulo 2^32, and in 64 bits only if no multiple of 2^32 lies above `value` and not above `counted`. */
  function Returned(width: SizeWidth, value: int, counted: nat): Option<nat> {
    if width == Bits32 || value / UINT32 == counted / UINT32 then Some(value % UINT32) else None
  }

  /** Below 2^32 frames a claim is returned as it is, unless it is negative. */
  lemma ReturnedBelowWrap(width: SizeWidth, value: int, counted: nat)
    requires -UINT32 <= value <= counted < UINT32
    ensures Returned(width, value, counted)
         == if value >= 0 then Some(value) else if width == Bits32 then Some(value + UINT32) else None
  {}

  /** Subtracting at most 2^32 from a residue borrows exactly when a multiple of 2^32 is crossed. */
  lemma BorrowIffCrossed(total: nat, queued: nat)
    requires queued < UINT32
    ensures var value, written := total - queued, total % UINT32;
      && (queued <= written <==> value / UINT32 == total / UINT32)
      && value % UINT32 == (if queued <= written then written - queued else written - queued + UINT32)
      && (value % UINT32 <= written <==> queued <= written)
  {
    var k, written := total / UINT32, total % UINT32;
    assert total == k * UINT32 + written;
    if queued <= written {
      QuotientOf(total - queued, k, written - queued);
    } else {
      QuotientOf(total - queued, k - 1, written - queued + UINT32);
    }
  }

  lemma QuotientOf(value: int, k: int, rest: nat)
    requires value == k * UINT32 + rest && rest < UINT32
    ensures value / UINT32 == k && value % UINT32 == rest
  {}

  lemma SampleIsClaim(width: SizeWidth, ring: Stream, later: Stream)
    requires ring.pcm != Closed && ring.queued <= RING_FRAMES && ring.pushed == ring.heard + ring.queued
    requires later.written == later.total % UINT32
    ensures Sample(width, ring, later)
         == if ring.pcm == Open then Returned(width, Claimed(ring, later), later.total) else None
  {
    Position64IsExact(later.written, RING_FRAMES, RING_FRAMES - ring.queued);
    Position32IsModular(later.written, RING_FRAMES, RING_FRAMES - ring.queued);
    BorrowIffCrossed(later.total, ring.queued);
    assert width == Bits32 || width == Bits64;
  }

  lemma ReachableStream(outAll: set<nat>, s: System, id: StreamId)
    requires Reachable(outAll, s) && id in s.streams
    ensures StreamOk(s.streams[id], HolderOf(s, id)) && s.streams[id].queued <= RING_FRAMES
  {
    ReachableInv(outAll, s);
  }

  /** A stream at both ends of a run. */
  lemma StreamsOfRun(outAll: set<nat>, s: System, acts: seq<Action>, id: StreamId)
    requires Reachable(outAll, s) && Runs(outAll, s, acts) && id in s.streams
    ensures id in Run(outAll, s, acts).streams
    ensures var e := Run(outAll, s, acts);
      && StreamOk(s.streams[id], HolderOf(s, id)) && StreamOk(e.streams[id], HolderOf(e, id))
      && Grows(s.streams[id], e.streams[id])
  {
    ReachableInv(outAll, s);
    InvRun(outAll, s, acts);
    GrowRun(outAll, s, acts, id);
  }

  lemma ClaimBounds(ring: Stream, holder: Pc, later: Stream, laterHolder: Pc)
    requires StreamOk(ring, holder) && StreamOk(later, laterHolder) && Grows(ring, later)
    ensures ring.heard - InFlight(holder) <= Claimed(ring, later) <= later.total
    ensures Claimed(ring, later) > ring.heard <==> later.total > ring.pushed
  {}

  /** What the query returns, whatever happens between its two reads and however often `written` has wrapped:
      without a pcm nothing; otherwise its claim, which is short of the frames heard at the first read by no
      more than the write then in flight, runs ahead of them exactly when a later write has been counted
      meanwhile, and never exceeds the frames counted. */
  lemma SampleIsHeardUpToWritesInFlight(outAll: set<nat>, s: System, acts: seq<Action>, id: StreamId, width: SizeWidth)
    requires Reachable(outAll, s) && Runs(outAll, s, acts) && id in s.streams && s.streams[id].pcm != Closed
    ensures id in Run(outAll, s, acts).streams && s.streams[id].queued <= RING_FRAMES
    ensures
      var ring, later := s.streams[id], Run(outAll, s, acts).streams[id];
      var value := Claimed(ring, later);
      && ring.heard - InFlight(HolderOf(s, id)) <= value <= later.total
      && (value > ring.heard <==> later.total > ring.pushed)
      && Sample(width, ring, later) == (if ring.pcm == Open then Returned(width, value, later.total) else None)
      && (later.total < UINT32 ==>
            Returned(width, value, later.total)
              == if value >= 0 then Some(value) else if width == Bits32 then Some(value + UINT32) else None)
  {
    StreamsOfRun(outAll, s, acts, id);
    var e := Run(outAll, s, acts);
    ClaimBounds(s.streams[id], HolderOf(s, id), e.streams[id], HolderOf(e, id));
    SampleIsClaim(width, s.streams[id], e.streams[id]);
    if e.streams[id].total < UINT32 {
      ReturnedBelowWrap(width, Claimed(s.streams[id], e.streams[id]), e.streams[id].total);
    }
  }

  /** A stream that can be asked for its position, with no write in flight. */
  predicate Quiet(s: System, id: StreamId) {
    id in s.streams && s.streams[id].pcm != Closed && InFlight(HolderOf(s, id)) == 0
  }

  lemma QuietStream(stream: Stream, holder: Pc)
    requires StreamOk(stream, holder) && InFlight(holder) == 0 && stream.pcm != Closed
    ensures Sample(Bits32, stream, stream) == if stream.pcm == Open then Some(stream.heard % UINT32) else None
    ensures Sample(Bits64, stream, stream)
         == if stream.pcm == Open && stream.heard / UINT32 == stream.total / UINT32
            then Some(stream.heard % UINT32) else None
    ensures stream.heard % UINT32 <= stream.written <==> stream.heard / UINT32 == stream.total / UINT32
  {
    SampleIsClaim(Bits32, stream, stream);
    SampleIsClaim(Bits64, stream, stream);
    assert Claimed(stream, stream) == stream.heard;
    BorrowIffCrossed(stream.total, stream.queued);
  }

  /** With no write in flight and both reads in one state, the query of an open pcm returns the frames heard,
      modulo 2^32. With a 64-bit size_t it succeeds, and with a 32-bit one it stays at or below `written`, if
      and only if no multiple of 2^32 lies between the frames heard and the frames written. Without a pcm,
      as in standby, it fails. */
  lemma QuietSampleIsHeard(outAll: set<nat>, s: System, id: StreamId)
    requires Reachable(outAll, s) && Quiet(s, id)
    ensures var stream := s.streams[id];
      var unwrapped := stream.heard / UINT32 == stream.total / UINT32;
      && stream.queued <= RING_FRAMES
      && (Sample(Bits32, stream, stream).Some? <==> stream.pcm == Open)
      && (Sample(Bits64, stream, stream).Some? <==> stream.pcm == Open && unwrapped)
      && (stream.pcm == Open ==> Sample(Bits32, stream, stream).value == stream.heard % UINT32)
      && (stream.pcm == Open && unwrapped ==> Sample(Bits64, stream, stream).value == stream.heard % UINT32)
      && (stream.pcm == Open ==> (Sample(Bits32, stream, stream).value <= stream.written <==> unwrapped))
  {
    ReachableStream(outAll, s, id);
    QuietStream(s.streams[id], HolderOf(s, id));
  }

  lemma ResiduesOrdered(a: nat, b: nat)
    requires a <= b
    ensures a / UINT32 == b / UINT32 ==> a % UINT32 <= b % UINT32
    ensures b - a < UINT32 && a / UINT32 != b / UINT32 ==> a % UINT32 > b % UINT32
  {
    var i, j := a / UINT32, b / UINT32;
    assert a == i * UINT32 + a % UINT32 && b == j * UINT32 + b % UINT32;
    if i < j {
      assert (i + 1) * UINT32 <= j * UINT32;
    }
  }

  /** When the position goes backwards: of two quiet samples of an open pcm, taken less than 2^32 heard frames
      apart, the later is at least the earlier if and only if the frames heard did not pass a multiple of 2^32
      in between. So the position never decreases, and never exceeds `written`, for as long as fewer than 2^32
      frames have been counted. */
  lemma PositionDecreasesIffHeardWraps(outAll: set<nat>, s: System, acts: seq<Action>, id: StreamId, width: SizeWidth)
    requires Reachable(outAll, s) && Runs(outAll, s, acts) && Quiet(s, id) && Quiet(Run(outAll, s, acts), id)
    ensures s.streams[id].queued <= RING_FRAMES && Run(outAll, s, acts).streams[id].queued <= RING_FRAMES
    ensures var before, after := s.streams[id], Run(outAll, s, acts).streams[id];
      var p, q := Sample(width, before, before), Sample(width, after, after);
      var sameLap := before.heard / UINT32 == after.heard / UINT32;
      && before.heard <= after.heard
      && (p.Some? && q.Some? && sameLap ==> p.value <= q.value)
      && (p.Some? && q.Some? && after.heard - before.heard < UINT32 ==> (p.value <= q.value <==> sameLap))
      && (after.total < UINT32 ==>
            && (p.Some? <==> before.pcm == Open) && (q.Some? <==> after.pcm == Open)
            && (p.Some? && q.Some? ==> p.value <= q.value <= after.written))
  {
    StreamsOfRun(outAll, s, acts, id);
    var e := Run(outAll, s, acts);
    QuietPair(s.streams[id], HolderOf(s, id), e.streams[id], HolderOf(e, id), width);
  }

  lemma QuietPair(before: Stream, holder: Pc, after: Stream, laterHolder: Pc, width: SizeWidth)
    requires StreamOk(before, holder) && InFlight(holder) == 0 && before.pcm != Closed
    requires StreamOk(after, laterHolder) && InFlight(laterHolder) == 0 && after.pcm != Closed
    requires Grows(before, after)
    ensures var p, q := Sample(width, before, before), Sample(width, after, after);
      var sameLap := before.heard / UINT32 == after.heard / UINT32;
      && (p.Some? && q.Some? && sameLap ==> p.value <= q.value)
      && (p.Some? && q.Some? && after.heard - before.heard < UINT32 ==> (p.value <= q.value <==> sameLap))
      && (after.total < UINT32 ==>
            && (p.Some? <==> before.pcm == Open) && (q.Some? <==> after.pcm == Open)
            && (p.Some? && q.Some? ==> p.value <= q.value <= after.written))
  {
    SampleIsClaim(width, before, before);
    SampleIsClaim(width, after, after);
    assert Claimed(before, before) == before.heard && Claimed(after, after) == after.heard;
    ReturnedOrder(width, before.heard, before.total, after.heard, after.total);
  }

  lemma ReturnedOrder(width: SizeWidth, heard: nat, total: nat, laterHeard: nat, laterTotal: nat)
    requires heard <= total <= laterTotal && heard <= laterHeard <= laterTotal
    ensures var p, q := Returned(width, heard, total), Returned(width, laterHeard, laterTotal);
      var sameLap := heard / UINT32 == laterHeard / UINT32;
      && (p.Some? && q.Some? && sameLap ==> p.value <= q.value)
      && (p.Some? && q.Some? && laterHeard - heard < UINT32 ==> (p.value <= q.value <==> sameLap))
      && (laterTotal < UINT32 ==> p.Some? && q.Some? && p.value <= q.value <= laterTotal % UINT32)
  {
    ResiduesOrdered(heard, laterHeard);
    if laterTotal < UINT32 {
      ReturnedBelowWrap(width, heard, total);
      ReturnedBelowWrap(width, laterHeard, laterTotal);
    }
  }

  // ---------------------------------------------------------------- where the position is wrong

  lemma {:induction false} RunSnoc(outAll: set<nat>, s: System, acts: seq<Action>, a: Action)
    requires Runs(outAll, s, acts) && Enabled(Run(outAll, s, acts), a)
    ensures Runs(outAll, s, acts + [a])
    ensures Run(outAll, s, acts + [a]) == Apply(outAll, Run(outAll, s, acts), a)
    decreases |acts|
  {
    if acts == [] {
      assert acts + [a] == [a];
      assert [a][1..] == [];
      assert Runs(outAll, Apply(outAll, s, a), []);
    } else {
      assert (acts + [a])[1..] == acts[1..] + [a];
      RunSnoc(outAll, Apply(outAll, s, acts[0]), acts[1..], a);
    }
  }

  lemma ReachStep(outAll: set<nat>, s: System, a: Action)
    requires Reachable(outAll, s) && Enabled(s, a)
    ensures Reachable(outAll, Apply(outAll, s, a))
  {
    var ids: set<StreamId>, acts: seq<Action> :|
      Runs(outAll, Initial(ids), acts) && s == Run(outAll, Initial(ids), acts);
    RunSnoc(outAll, Initial(ids), acts, a);
  }

  lemma {:induction false} ReachRun(outAll: set<nat>, s: System, acts: seq<Action>)
    requires Reachable(outAll, s) && Runs(outAll, s, acts)
    ensures Reachable(outAll, Run(outAll, s, acts))
    decreases |acts|
  {
    if acts != [] {
      ReachStep(outAll, s, acts[0]);
      ReachRun(outAll, Apply(outAll, s, acts[0]), acts[1..]);
    }
  }

  /** Thread 1 has not called yet, and nobody has used stream 1. */
  predicate SecondUntouched(s: System) {
    1 in s.streams && s.streams[1] == NEW_STREAM && PcOf(s, 1) == Idle
  }

  lemma BeginStarts(outAll: set<nat>, call: Call)
    requires call.id == 0
    ensures var s := Initial({0, 1});
      && Enabled(s, Begin(0, call)) && Enabled(Apply(outAll, s, Begin(0, call)), LockDevice(0))
      && var s2 := Apply(outAll, Apply(outAll, s, Begin(0, call)), LockDevice(0));
         && 0 in s2.streams && s2.streams[0] == NEW_STREAM && PcOf(s2, 0) == WantStream(call)
         && SecondUntouched(s2)
  {}

  lemma LockStarts(outAll: set<nat>, s: System, call: Call)
    requires 0 in s.streams && s.streams[0] == NEW_STREAM && PcOf(s, 0) == WantStream(call) && call.id == 0
    requires SecondUntouched(s)
    ensures Enabled(s, LockStream(0))
    ensures var s1 := Apply(outAll, s, LockStream(0));
      && 0 in s1.streams && PcOf(s1, 0) == Both(call) && s1.streams[0] == NEW_STREAM.(owner := Some(0))
      && SecondUntouched(s1)
  {}

  lemma FirstCall(outAll: set<nat>, call: Call) returns (s: System)
    requires call.id == 0
    ensures Reachable(outAll, s) && 0 in s.streams
    ensures PcOf(s, 0) == Both(call) && s.streams[0] == NEW_STREAM.(owner := Some(0)) && SecondUntouched(s)
  {
    var s0 := Initial({0, 1});
    assert Runs(outAll, s0, []) && s0 == Run(outAll, s0, []);
    assert Reachable(outAll, s0);
    BeginStarts(outAll, call);
    ReachStep(outAll, s0, Begin(0, call));
    var s1 := Apply(outAll, s0, Begin(0, call));
    ReachStep(outAll, s1, LockDevice(0));
    var s2 := Apply(outAll, s1, LockDevice(0));
    LockStarts(outAll, s2, call);
    ReachStep(outAll, s2, LockStream(0));
    s := Apply(outAll, s2, LockStream(0));
  }

  lemma CheckStarts(outAll: set<nat>, s: System, frames: nat)
    requires 0 in s.streams && s.streams[0] == NEW_STREAM.(owner := Some(0)) && PcOf(s, 0) == Both(Write(0, frames))
    requires SecondUntouched(s)
    ensures Enabled(s, Check(0, true))
    ensures var s1 := Apply(outAll, s, Check(0, true));
      && 0 in s1.streams && s1.streams[0] == NEW_STREAM.(owner := Some(0), pcm := Open)
      && PcOf(s1, 0) == Opened(0, frames) && SecondUntouched(s1)
  {}

  lemma MarkStarts(outAll: set<nat>, s: System, frames: nat)
    requires 0 in s.streams && PcOf(s, 0) == Opened(0, frames) && SecondUntouched(s)
    ensures Enabled(s, MarkRunning(0)) && Enabled(Apply(outAll, s, MarkRunning(0)), LetDeviceGo(0))
    ensures var s1 := Apply(outAll, Apply(outAll, s, MarkRunning(0)), LetDeviceGo(0));
      && 0 in s1.streams && s1.streams[0] == s.streams[0].(standby := false)
      && PcOf(s1, 0) == Writing(0, frames, 0) && s1.deviceOwner == None && SecondUntouched(s1)
  {}

  /** The first write of thread 0 on stream 0 of two, up to the moment it is inside pcm_mmap_write. */
  lemma FirstWrite(outAll: set<nat>, frames: nat) returns (s: System)
    ensures Reachable(outAll, s) && 0 in s.streams
    ensures PcOf(s, 0) == Writing(0, frames, 0) && s.deviceOwner == None && SecondUntouched(s)
    ensures s.streams[0] == Stream(Some(0), Open, false, false, 0, 0, 0, 0, 0, NEW_VIEW)
  {
    var s0 := FirstCall(outAll, Write(0, frames));
    CheckStarts(outAll, s0, frames);
    ReachStep(outAll, s0, Check(0, true));
    var s1 := Apply(outAll, s0, Check(0, true));
    MarkStarts(outAll, s1, frames);
    ReachStep(outAll, s1, MarkRunning(0));
    var s2 := Apply(outAll, s1, MarkRunning(0));
    ReachStep(outAll, s2, LetDeviceGo(0));
    s := Apply(outAll, s2, LetDeviceGo(0));
  }

  /** A query that races with the very first write reads a ring that is ahead of `written`. With a 64-bit
      size_t it fails; with a 32-bit one it succeeds and reports 4294967295 frames presented when none has
      been. */
  lemma FirstWriteFoolsThe32BitQuery(outAll: set<nat>) returns (s: System)
    ensures Reachable(outAll, s) && 0 in s.streams && s.streams[0].queued <= RING_FRAMES
    ensures s.streams[0].heard == 0 && s.streams[0].total == 0 && s.streams[0].pcm == Open
    ensures Sample(Bits64, s.streams[0], s.streams[0]) == None
    ensures Sample(Bits32, s.streams[0], s.streams[0]) == Some(4294967295)
  {
    var s0 := FirstWrite(outAll, 1);
    PushesAhead(outAll, s0);
    ReachStep(outAll, s0, Push(0, 1));
    s := Apply(outAll, s0, Push(0, 1));
    SampleIsClaim(Bits32, s.streams[0], s.streams[0]);
    SampleIsClaim(Bits64, s.streams[0], s.streams[0]);
  }

  lemma PushesAhead(outAll: set<nat>, s: System)
    requires 0 in s.streams && PcOf(s, 0) == Writing(0, 1, 0)
    requires s.streams[0] == Stream(Some(0), Open, false, false, 0, 0, 0, 0, 0, NEW_VIEW)
    ensures Enabled(s, Push(0, 1))
    ensures var s1 := Apply(outAll, s, Push(0, 1));
      0 in s1.streams && s1.streams[0] == s.streams[0].(queued := 1, pushed := 1)
  {}

  /** In general, an instantaneous query of an open pcm gives the frames heard less those of the write in
      flight: with a 32-bit size_t exactly if that is between 0 and 2^32, and with a 64-bit one it succeeds
      exactly if no multiple of 2^32 lies between that and the frames counted. Otherwise the 32-bit position
      exceeds `written`. Below 2^32 frames, either goes wrong exactly when the write in flight outnumbers the
      frames heard. */
  lemma RacingSampleIsSaneIffHeardCoversFlight(outAll: set<nat>, s: System, id: StreamId)
    requires Reachable(outAll, s) && id in s.streams && s.streams[id].pcm == Open
    ensures var stream, flight := s.streams[id], InFlight(HolderOf(s, id));
      var value := stream.heard - flight;
      && stream.queued <= RING_FRAMES
      && (Sample(Bits32, stream, stream) == Some(value) <==> 0 <= value < UINT32)
      && (Sample(Bits64, stream, stream).Some? <==> value / UINT32 == stream.total / UINT32)
      && (Sample(Bits32, stream, stream).value > stream.written <==> value / UINT32 != stream.total / UINT32)
      && (stream.total < UINT32 ==> (value / UINT32 == stream.total / UINT32 <==> flight <= stream.heard))
  {
    ReachableStream(outAll, s, id);
    RacingStream(s.streams[id], HolderOf(s, id));
  }

  lemma RacingStream(stream: Stream, holder: Pc)
    requires StreamOk(stream, holder) && stream.pcm == Open
    ensures var value := stream.heard - InFlight(holder);
      && (Sample(Bits32, stream, stream) == Some(value) <==> 0 <= value < UINT32)
      && (Sample(Bits64, stream, stream).Some? <==> value / UINT32 == stream.total / UINT32)
      && (Sample(Bits32, stream, stream).value > stream.written <==> value / UINT32 != stream.total / UINT32)
      && (stream.total < UINT32 ==> (value / UINT32 == stream.total / UINT32 <==> InFlight(holder) <= stream.heard))
  {
    SampleIsClaim(Bits32, stream, stream);
    SampleIsClaim(Bits64, stream, stream);
    var value := stream.heard - InFlight(holder);
    assert Claimed(stream, stream) == value == stream.total - stream.queued;
    BorrowIffCrossed(stream.total, stream.queued);
    ResidueIsItself(value);
  }

  lemma ResidueIsItself(value: int)
    ensures value % UINT32 == value <==> 0 <= value < UINT32
  {}

  lemma PushAll(outAll: set<nat>, s: System, n: nat)
    requires 0 in s.streams && s.streams[0].queued == 0 && PcOf(s, 0) == Writing(0, n, 0) && 0 < n <= RING_FRAMES
    ensures Enabled(s, Push(0, n)) && Enabled(Apply(outAll, s, Push(0, n)), Finish(0))
    ensures var e := Apply(outAll, Apply(outAll, s, Push(0, n)), Finish(0));
      && 0 in e.streams
      && e.streams[0] == CountedStream(s.streams[0].(queued := n, pushed := s.streams[0].pushed + n), n)
  {}

  lemma StraddleValue(ring: Stream, later: Stream, n: nat)
    requires ring.queued == 0 && ring.pushed == 0 && ring.heard == 0 && ring.written == 0 && ring.total == 0
    requires n <= RING_FRAMES && ring.pcm == Open && later == CountedStream(ring.(queued := n, pushed := n), n)
    ensures later.heard == 0 && Sample(Bits64, ring, later) == Some(n)
  {
    SampleIsClaim(Bits64, ring, later);
  }

  /** The two reads of one query can straddle a write: then it reports frames as presented that are all
      still in the ring, for any write that fits the ring. */
  lemma StraddlingQueryRunsAhead(outAll: set<nat>, n: nat) returns (s: System, e: System)
    requires 0 < n <= RING_FRAMES
    ensures Reachable(outAll, s) && Enabled(s, Push(0, n)) && Enabled(Apply(outAll, s, Push(0, n)), Finish(0))
    ensures e == Apply(outAll, Apply(outAll, s, Push(0, n)), Finish(0))
    ensures 0 in s.streams && 0 in e.streams && s.streams[0].queued <= RING_FRAMES && s.streams[0].pcm == Open
    ensures e.streams[0].heard == 0 && Sample(Bits64, s.streams[0], e.streams[0]) == Some(n)
  {
    s := FirstWrite(outAll, n);
    PushAll(outAll, s, n);
    var s1 := Apply(outAll, s, Push(0, n));
    e := Apply(outAll, s1, Finish(0));
    StraddleValue(s.streams[0], e.streams[0], n);
  }

  // ---------------------------------------------------------------- where the position goes backwards

  /** Stream 0 open and running, with thread 0 at `pc` and all other locks free. */
  predicate Running(s: System, device: Option<ThreadId>, pc: Pc, queued: nat, heard: nat, total: nat) {
    && 0 in s.streams && s.deviceOwner == device && PcOf(s, 0) == pc
    && var stream := s.streams[0];
       && stream.owner == (if HoldsStream(pc) then Some(0) else None)
       && stream.pcm == Open && !stream.standby && !stream.unavailable
       && stream.queued == queued && stream.heard == heard && stream.total == total
       && stream.pushed == heard + queued && stream.written == total % UINT32
  }

  const FULL := Write(0, RING_FRAMES)

  lemma EnterRunning(outAll: set<nat>, s: System, heard: nat, total: nat) returns (acts: seq<Action>)
    requires Running(s, None, Idle, 0, heard, total)
    ensures Runs(outAll, s, acts) && Running(Run(outAll, s, acts), Some(0), WantStream(FULL), 0, heard, total)
  {
    var s1 := Apply(outAll, s, Begin(0, FULL));
    acts := [Begin(0, FULL)] + [LockDevice(0)];
    assert [Begin(0, FULL)][1..] == [] && Runs(outAll, s1, []);
    RunSnoc(outAll, s, [Begin(0, FULL)], LockDevice(0));
  }

  lemma RunSnocTwice(outAll: set<nat>, s: System, acts: seq<Action>, a: Action, b: Action)
    requires Runs(outAll, s, acts) && Enabled(Run(outAll, s, acts), a)
    requires Enabled(Apply(outAll, Run(outAll, s, acts), a), b)
    ensures Runs(outAll, s, acts + [a] + [b])
    ensures Run(outAll, s, acts + [a] + [b]) == Apply(outAll, Apply(outAll, Run(outAll, s, acts), a), b)
  {
    RunSnoc(outAll, s, acts, a);
    RunSnoc(outAll, s, acts + [a], b);
  }

  lemma LockAndCheck(outAll: set<nat>, s: System, heard: nat, total: nat)
    requires Running(s, Some(0), WantStream(FULL), 0, heard, total)
    ensures Enabled(s, LockStream(0)) && Enabled(Apply(outAll, s, LockStream(0)), Check(0, true))
    ensures var e := Apply(outAll, Apply(outAll, s, LockStream(0)), Check(0, true));
      Running(e, Some(0), Ready(0, RING_FRAMES), 0, heard, total)
  {}

  lemma LetGoAndPush(outAll: set<nat>, s: System, heard: nat, total: nat)
    requires Running(s, Some(0), Ready(0, RING_FRAMES), 0, heard, total)
    ensures Enabled(s, LetDeviceGo(0))
    ensures Running(Apply(outAll, s, LetDeviceGo(0)), None, Writing(0, RING_FRAMES, 0), 0, heard, total)
  {}

  lemma PushAndFinish(outAll: set<nat>, s: System, heard: nat)
    requires Running(s, None, Writing(0, RING_FRAMES, 0), 0, heard, heard)
    ensures Enabled(s, Push(0, RING_FRAMES)) && Enabled(Apply(outAll, s, Push(0, RING_FRAMES)), Finish(0))
    ensures var e := Apply(outAll, Apply(outAll, s, Push(0, RING_FRAMES)), Finish(0));
      Running(e, None, Leaving(0, RING_FRAMES, true), RING_FRAMES, heard, heard + RING_FRAMES)
  {
    assert (heard % UINT32 + RING_FRAMES) % UINT32 == (heard + RING_FRAMES) % UINT32;
  }

  lemma LeaveRunning(outAll: set<nat>, s: System, heard: nat, total: nat)
    requires Running(s, None, Leaving(0, RING_FRAMES, true), RING_FRAMES, heard, total)
    ensures Enabled(s, Leave(0)) && Running(Apply(outAll, s, Leave(0)), None, Idle, RING_FRAMES, heard, total)
  {}

  lemma PlayAll(outAll: set<nat>, s: System, heard: nat, total: nat)
    requires Running(s, None, Idle, RING_FRAMES, heard, total)
    ensures Enabled(s, Play(0, RING_FRAMES))
    ensures Running(Apply(outAll, s, Play(0, RING_FRAMES)), None, Idle, 0, heard + RING_FRAMES, total)
  {}

  /** From inside pcm_mmap_write to the ring full and nobody in a call. */
  lemma FillRing(outAll: set<nat>, s: System, before: seq<Action>, heard: nat) returns (acts: seq<Action>)
    requires Runs(outAll, s, before)
    requires Running(Run(outAll, s, before), None, Writing(0, RING_FRAMES, 0), 0, heard, heard)
    ensures Runs(outAll, s, acts)
    ensures Running(Run(outAll, s, acts), None, Idle, RING_FRAMES, heard, heard + RING_FRAMES)
  {
    PushAndFinish(outAll, Run(outAll, s, before), heard);
    RunSnocTwice(outAll, s, before, Push(0, RING_FRAMES), Finish(0));
    var pushed := before + [Push(0, RING_FRAMES)] + [Finish(0)];
    LeaveRunning(outAll, Run(outAll, s, pushed), heard, heard + RING_FRAMES);
    RunSnoc(outAll, s, pushed, Leave(0));
    acts := pushed + [Leave(0)];
  }

  /** One more write of a ring-full. */
  lemma WriteRing(outAll: set<nat>, s: System, heard: nat) returns (acts: seq<Action>)
    requires Running(s, None, Idle, 0, heard, heard)
    ensures Runs(outAll, s, acts)
    ensures Running(Run(outAll, s, acts), None, Idle, RING_FRAMES, heard, heard + RING_FRAMES)
  {
    var entered := EnterRunning(outAll, s, heard, heard);
    LockAndCheck(outAll, Run(outAll, s, entered), heard, heard);
    RunSnocTwice(outAll, s, entered, LockStream(0), Check(0, true));
    var checked := entered + [LockStream(0)] + [Check(0, true)];
    LetGoAndPush(outAll, Run(outAll, s, checked), heard, heard);
    RunSnoc(outAll, s, checked, LetDeviceGo(0));
    acts := FillRing(outAll, s, checked + [LetDeviceGo(0)], heard);
  }

  /** A full ring that has been written by a run from a reachable state, and is then played out. */
  lemma PlayedOut(outAll: set<nat>, start: System, acts: seq<Action>, heard: nat) returns (s: System)
    requires Reachable(outAll, start) && Runs(outAll, start, acts)
    requires Running(Run(outAll, start, acts), None, Idle, RING_FRAMES, heard, heard + RING_FRAMES)
    ensures Reachable(outAll, s) && Running(s, None, Idle, 0, heard + RING_FRAMES, heard + RING_FRAMES)
  {
    var full := Run(outAll, start, acts);
    ReachRun(outAll, start, acts);
    PlayAll(outAll, full, heard, heard + RING_FRAMES);
    ReachStep(outAll, full, Play(0, RING_FRAMES));
    s := Apply(outAll, full, Play(0, RING_FRAMES));
  }

  lemma FirstRingful(outAll: set<nat>) returns (s: System)
    ensures Reachable(outAll, s) && Running(s, None, Idle, 0, RING_FRAMES, RING_FRAMES)
  {
    var start := FirstWrite(outAll, RING_FRAMES);
    assert Runs(outAll, start, []) && Run(outAll, start, []) == start;
    var acts := FillRing(outAll, start, [], 0);
    s := PlayedOut(outAll, start, acts, 0);
  }

  function Ringfuls(k: nat): nat {
    k * RING_FRAMES
  }

  /** A stream that has written and played `k + 1` ring-fulls and has nothing queued. */
  lemma {:induction false} RingfulsHeard(outAll: set<nat>, k: nat) returns (s: System)
    ensures Reachable(outAll, s) && Running(s, None, Idle, 0, Ringfuls(k + 1), Ringfuls(k + 1))
    decreases k
  {
    if k == 0 {
      s := FirstRingful(outAll);
    } else {
      var start := RingfulsHeard(outAll, k - 1);
      var acts := WriteRing(outAll, start, Ringfuls(k));
      s := PlayedOut(outAll, start, acts, Ringfuls(k));
      assert Ringfuls(k + 1) == Ringfuls(k) + RING_FRAMES;
    }
  }

  lemma RunningSample(s: System, queued: nat, heard: nat, total: nat)
    requires Running(s, None, Idle, queued, heard, total) && queued <= RING_FRAMES && total == heard + queued
    ensures Quiet(s, 0)
    ensures Sample(Bits32, s.streams[0], s.streams[0]) == Returned(Bits32, heard, total)
    ensures Sample(Bits64, s.streams[0], s.streams[0]) == Returned(Bits64, heard, total)
  {
    SampleIsClaim(Bits32, s.streams[0], s.streams[0]);
    SampleIsClaim(Bits64, s.streams[0], s.streams[0]);
  }

  const LAST_RING := UINT32 - RING_FRAMES

  /** It does go backwards: a stream that has played all but the last ring-full of 2^32 frames reports
      4294965248; once the next ring-full is written the 64-bit query fails; and when that has been played,
      both report 0. No write is in flight at any of the three samples. */
  lemma WrapMakesPositionDrop(outAll: set<nat>)
      returns (s: System, acts: seq<Action>, middle: System, after: System)
    ensures Reachable(outAll, s) && Runs(outAll, s, acts) && middle == Run(outAll, s, acts)
    ensures Enabled(middle, Play(0, RING_FRAMES)) && after == Apply(outAll, middle, Play(0, RING_FRAMES))
    ensures Quiet(s, 0) && Quiet(middle, 0) && Quiet(after, 0)
    ensures s.streams[0].queued <= RING_FRAMES && middle.streams[0].queued <= RING_FRAMES
    ensures after.streams[0].queued <= RING_FRAMES
    ensures forall width :: Sample(width, s.streams[0], s.streams[0]) == Some(4294965248)
    ensures Sample(Bits64, middle.streams[0], middle.streams[0]) == None
    ensures forall width :: Sample(width, after.streams[0], after.streams[0]) == Some(0)
  {
    s := RingfulsHeard(outAll, 2097150);
    RunningSample(s, 0, LAST_RING, LAST_RING);
    acts := WriteRing(outAll, s, LAST_RING);
    middle := Run(outAll, s, acts);
    RunningSample(middle, RING_FRAMES, LAST_RING, UINT32);
    PlayAll(outAll, middle, LAST_RING, UINT32);
    after := Apply(outAll, middle, Play(0, RING_FRAMES));
    RunningSample(after, 0, UINT32, UINT32);
    forall width: SizeWidth
      ensures Sample(width, s.streams[0], s.streams[0]) == Some(4294965248)
      ensures Sample(width, after.streams[0], after.streams[0]) == Some(0)
    {
      assert width == Bits32 || width == Bits64;
    }
  }
}

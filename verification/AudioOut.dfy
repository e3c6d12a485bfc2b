/** The output streams of audio/audio_hw.c: any number of threads in out_write, out_standby and
    out_set_parameters on any number of streams of one device. The device mutex is always taken before a
    stream mutex, and out_write lets go of the device mutex before it writes. */
module AudioOut {
  import opened Options
  import opened AudioPosition

  type ThreadId = nat
  type StreamId = nat

  /** What out->pcm points to; a closed pcm that the stream still points to is Closed. */
  datatype Pcm = NoPcm | Open | Closed

  /** struct alsa_stream_out, its mutex, the kernel ring behind it (`queued` is buffer size minus avail),
      and history: three counters in frames (pushed into the ring; heard, that is played, or dropped when
      the pcm was closed; and added to `written`, without its wrap-around), and the view of the stream when
      its mutex was last taken. */
  datatype Stream = Stream(
    owner: Option<ThreadId>, pcm: Pcm, standby: bool, unavailable: bool, written: uint32,
    queued: nat, pushed: nat, heard: nat, total: nat, entry: View)

  /** The fields the stream's own functions read and write under its mutex. */
  datatype View = View(pcm: Pcm, standby: bool, unavailable: bool, written: uint32)

  const NEW_VIEW := View(NoPcm, true, false, 0)
  const NEW_STREAM := Stream(None, NoPcm, true, false, 0, 0, 0, 0, 0, NEW_VIEW)

  function ViewOf(stream: Stream): View {
    View(stream.pcm, stream.standby, stream.unavailable, stream.written)
  }

  /** The stream as out_write leaves it when it runs alone, and whether the frames were accepted: `opens` is
      what pcm_open would do, `accepts` what pcm_mmap_write would. */
  function AfterWrite(v: View, frames: nat, opens: bool, accepts: bool): (bool, View) {
    if v.standby && v.unavailable then (false, v)
    else if v.standby && !opens then (false, v.(pcm := Closed, unavailable := true))
    else
      var running := if v.standby then v.(pcm := Open, standby := false) else v;
      if accepts then (true, running.(written := (running.written + frames) % UINT32)) else (false, running)
  }

  /** The stream as do_output_standby leaves it. */
  function AfterStandby(v: View): View {
    if v.standby then v else v.(pcm := NoPcm, standby := true)
  }

  datatype Call =
    | Write(id: StreamId, frames: nat)
    | Standby(id: StreamId)
    | Route(id: StreamId, value: set<nat>)  // set_parameters with a routing value, as the set of its bits

  /** Where a thread stands. The comments say which mutexes it holds. */
  datatype Pc =
    | Idle
    | WantDevice(call: Call)
    | WantStream(call: Call)                   // device
    | Both(call: Call)                         // device, stream
    | Opened(id: StreamId, frames: nat)        // device, stream: pcm open, still marked standby
    | Ready(id: StreamId, frames: nat)         // device, stream
    | Refused(id: StreamId, frames: nat)       // device, stream: start_output_stream failed
    | Writing(id: StreamId, frames: nat, sent: nat)  // stream: inside pcm_mmap_write
    | Leaving(id: StreamId, frames: nat, accepted: bool)  // stream
    | PcmClosed(id: StreamId)                  // device, stream: pcm closed, pointer still set
    | PcmCleared(id: StreamId)                 // device, stream: pointer cleared, not yet marked standby
    | UnlockStream(id: StreamId, standby: bool)  // device, stream: standby or set_parameters is done
    | UnlockDevice                             // device

  datatype System = System(
    deviceOwner: Option<ThreadId>, devices: set<nat>, active: Option<StreamId>,
    streams: map<StreamId, Stream>, threads: map<ThreadId, Pc>)

  datatype Action =
    | Begin(t: ThreadId, call: Call)
    | LockDevice(t: ThreadId)
    | LockStream(t: ThreadId)
    | Check(t: ThreadId, opens: bool)  // out_write: is the stream running, and if not, does pcm_open work
    | MarkRunning(t: ThreadId)
    | LetDeviceGo(t: ThreadId)
    | Push(t: ThreadId, frames: nat)   // pcm_mmap_write moves some frames into the ring
    | Finish(t: ThreadId)              // pcm_mmap_write returns 0
    | Fail(t: ThreadId)                // pcm_mmap_write fails, having transferred nothing
    | Leave(t: ThreadId)
    | ClosePcm(t: ThreadId)
    | ClearPcm(t: ThreadId)
    | MarkStandby(t: ThreadId)
    | StayStandby(t: ThreadId)         // do_output_standby on a stream already in standby
    | SetRoute(t: ThreadId)
    | DropStream(t: ThreadId)
    | DropDevice(t: ThreadId)
    | Play(id: StreamId, frames: nat)  // the hardware consumes frames from the ring

  function PcOf(s: System, t: ThreadId): Pc {
    if t in s.threads then s.threads[t] else Idle
  }

  function Initial(ids: set<StreamId>): System {
    System(None, {}, None, map id | id in ids :: NEW_STREAM, map[])
  }

  /** The stream a thread works on. */
  function Target(pc: Pc): Option<StreamId> {
    match pc
    case Idle => None
    case WantDevice(call) => Some(call.id)
    case WantStream(call) => Some(call.id)
    case Both(call) => Some(call.id)
    case UnlockDevice => None
    case _ => Some(pc.id)
  }

  predicate HoldsDevice(pc: Pc) {
    pc.WantStream? || pc.Both? || pc.Opened? || pc.Ready? || pc.Refused? || pc.PcmClosed? || pc.PcmCleared?
    || pc.UnlockStream? || pc.UnlockDevice?
  }

  predicate HoldsStream(pc: Pc) {
    pc.Both? || pc.Opened? || pc.Ready? || pc.Refused? || pc.Writing? || pc.Leaving? || pc.PcmClosed?
    || pc.PcmCleared? || pc.UnlockStream?
  }

  predicate TargetExists(s: System, pc: Pc) {
    Target(pc).Some? ==> Target(pc).value in s.streams
  }

  /** The stream action `a` works on, where there is one. */
  function StreamOf(s: System, t: ThreadId): Stream
    requires Target(PcOf(s, t)).Some? && TargetExists(s, PcOf(s, t))
  {
    s.streams[Target(PcOf(s, t)).value]
  }

  predicate Enabled(s: System, a: Action) {
    if a.Play? then a.id in s.streams && s.streams[a.id].pcm == Open && 0 < a.frames <= s.streams[a.id].queued
    else
      var pc := PcOf(s, a.t);
      TargetExists(s, pc) &&
      match a
      case Begin(_, call) => pc == Idle && call.id in s.streams
      case LockDevice(_) => pc.WantDevice? && s.deviceOwner == None
      case LockStream(_) => pc.WantStream? && StreamOf(s, a.t).owner == None
      case Check(_, _) => pc.Both? && pc.call.Write?
      case MarkRunning(_) => pc.Opened?
      case LetDeviceGo(_) => pc.Ready? || pc.Refused?
      case Push(_, frames) =>
        && pc.Writing? && 0 < frames <= pc.frames - pc.sent
        && StreamOf(s, a.t).queued + frames <= RING_FRAMES
      case Finish(_) => pc.Writing? && pc.sent == pc.frames
      case Fail(_) => pc.Writing? && pc.sent == 0
      case Leave(_) => pc.Leaving?
      case ClosePcm(_) => pc.Both? && pc.call.Standby? && !StreamOf(s, a.t).standby
      case ClearPcm(_) => pc.PcmClosed?
      case MarkStandby(_) => pc.PcmCleared?
      case StayStandby(_) => pc.Both? && pc.call.Standby? && StreamOf(s, a.t).standby
      case SetRoute(_) => pc.Both? && pc.call.Route?
      case DropStream(_) => pc.UnlockStream?
      case DropDevice(_) => pc.UnlockDevice?
  }

  /** The new routing: the output bits are replaced, unless the value is zero or already set. */
  function Rerouted(outAll: set<nat>, devices: set<nat>, value: set<nat>): set<nat> {
    if devices * outAll != value && value != {} then devices - outAll + value else devices
  }

  function Move(s: System, t: ThreadId, pc: Pc): System {
    s.(threads := s.threads[t := pc])
  }

  function Update(s: System, t: ThreadId, pc: Pc, id: StreamId, stream: Stream): System {
    s.(threads := s.threads[t := pc], streams := s.streams[id := stream])
  }

  /** pcm_close, the pointer left as it is: what is queued is dropped. */
  function ClosedStream(stream: Stream): Stream {
    stream.(pcm := Closed, heard := stream.heard + stream.queued, queued := 0)
  }

  /** start_output_stream on a stream that is in standby. */
  function StartedStream(stream: Stream, opens: bool): Stream {
    if stream.unavailable then stream
    else if opens then stream.(pcm := Open)
    else stream.(pcm := Closed, unavailable := true)
  }

  /** `frames` more were accepted by pcm_mmap_write. */
  function CountedStream(stream: Stream, frames: nat): Stream {
    stream.(written := (stream.written + frames) % UINT32, total := stream.total + frames)
  }

  function Apply(outAll: set<nat>, s: System, a: Action): System
    requires Enabled(s, a)
  {
    if a.Play? then
      var stream := s.streams[a.id];
      s.(streams := s.streams[a.id := stream.(queued := stream.queued - a.frames, heard := stream.heard + a.frames)])
    else
      var pc := PcOf(s, a.t);
      match a
      case Begin(t, call) => Move(s, t, WantDevice(call))
      case LockDevice(t) => Move(s, t, WantStream(pc.call)).(deviceOwner := Some(t))
      case LockStream(t) =>
        Update(s, t, Both(pc.call), pc.call.id, StreamOf(s, t).(owner := Some(t), entry := ViewOf(StreamOf(s, t))))
      case Check(t, opens) =>
        var id, frames, stream := pc.call.id, pc.call.frames, StreamOf(s, t);
        if !stream.standby then Move(s, t, Ready(id, frames))
        else if stream.unavailable then Move(s, t, Refused(id, frames))
        else if opens then Update(s, t, Opened(id, frames), id, StartedStream(stream, true)).(active := Some(id))
        else Update(s, t, Refused(id, frames), id, StartedStream(stream, false)).(active := None)
      case MarkRunning(t) => Update(s, t, Ready(pc.id, pc.frames), pc.id, StreamOf(s, t).(standby := false))
      case LetDeviceGo(t) =>
        var next := if pc.Ready? then Writing(pc.id, pc.frames, 0) else Leaving(pc.id, pc.frames, false);
        Move(s, t, next).(deviceOwner := None)
      case Push(t, frames) =>
        var stream := StreamOf(s, t);
        Update(s, t, Writing(pc.id, pc.frames, pc.sent + frames), pc.id,
               stream.(queued := stream.queued + frames, pushed := stream.pushed + frames))
      case Finish(t) => Update(s, t, Leaving(pc.id, pc.frames, true), pc.id, CountedStream(StreamOf(s, t), pc.frames))
      case Fail(t) => Move(s, t, Leaving(pc.id, pc.frames, false))
      case Leave(t) => Update(s, t, Idle, pc.id, StreamOf(s, t).(owner := None))
      case ClosePcm(t) => Update(s, t, PcmClosed(pc.call.id), pc.call.id, ClosedStream(StreamOf(s, t)))
      case ClearPcm(t) =>
        Update(s, t, PcmCleared(pc.id), pc.id, StreamOf(s, t).(pcm := NoPcm)).(active := None)
      case MarkStandby(t) => Update(s, t, UnlockStream(pc.id, true), pc.id, StreamOf(s, t).(standby := true))
      case StayStandby(t) => Move(s, t, UnlockStream(pc.call.id, true))
      case SetRoute(t) =>
        Move(s, t, UnlockStream(pc.call.id, false)).(devices := Rerouted(outAll, s.devices, pc.call.value))
      case DropStream(t) => Update(s, t, UnlockDevice, pc.id, StreamOf(s, t).(owner := None))
      case DropDevice(t) => Move(s, t, Idle).(deviceOwner := None)
  }

  predicate Runs(outAll: set<nat>, s: System, acts: seq<Action>)
    decreases |acts|
  {
    acts == [] || (Enabled(s, acts[0]) && Runs(outAll, Apply(outAll, s, acts[0]), acts[1..]))
  }

  function Run(outAll: set<nat>, s: System, acts: seq<Action>): System
    requires Runs(outAll, s, acts)
    decreases |acts|
  {
    if acts == [] then s else Run(outAll, Apply(outAll, s, acts[0]), acts[1..])
  }

  // ---------------------------------------------------------------- the invariant

  predicate TargetsInv(s: System) {
    forall t :: t in s.threads ==> TargetExists(s, s.threads[t])
  }

  predicate DeviceLockInv(s: System) {
    && (forall t :: t in s.threads && HoldsDevice(s.threads[t]) ==> s.deviceOwner == Some(t))
    && (s.deviceOwner.Some? ==> HoldsDevice(PcOf(s, s.deviceOwner.value)))
  }

  /** Thread `t` owns the mutex of stream `id`. */
  predicate Owns(s: System, t: ThreadId, id: StreamId) {
    id in s.streams && s.streams[id].owner == Some(t)
  }

  predicate StreamLockInv(s: System) {
    && (forall t :: t in s.threads && HoldsStream(s.threads[t]) ==> Owns(s, t, Target(s.threads[t]).value))
    && (forall id :: id in s.streams && s.streams[id].owner.Some? ==>
          var pc := PcOf(s, s.streams[id].owner.value);
          HoldsStream(pc) && Target(pc) == Some(id))
  }

  predicate LockInv(s: System) {
    TargetsInv(s) && DeviceLockInv(s) && StreamLockInv(s)
  }

  /** The program counter of the thread that holds the stream's mutex. */
  function HolderOf(s: System, id: StreamId): Pc
    requires id in s.streams
  {
    if s.streams[id].owner.Some? then PcOf(s, s.streams[id].owner.value) else Idle
  }

  /** Frames of a write in progress that are in the ring but not yet in `written`. */
  function InFlight(holder: Pc): nat {
    if holder.Writing? then holder.sent else 0
  }

  predicate StreamOk(stream: Stream, holder: Pc) {
    && stream.queued <= RING_FRAMES
    && stream.pushed == stream.heard + stream.queued
    && stream.pushed == stream.total + InFlight(holder)
    && stream.written == stream.total % UINT32
    && (stream.pcm != Open ==> stream.queued == 0)
    && (stream.unavailable ==> stream.standby && stream.pcm != Open)
    && (holder.Writing? ==> holder.sent <= holder.frames)
    && (match holder
        case Opened(_, _) => stream.pcm == Open && stream.standby
        case PcmClosed(_) => stream.pcm == Closed && !stream.standby
        case PcmCleared(_) => stream.pcm == NoPcm && !stream.standby
        case Ready(_, _) => stream.pcm == Open && !stream.standby
        case Writing(_, _, _) => stream.pcm == Open && !stream.standby
        case _ => stream.pcm == Open <==> !stream.standby)
  }

  predicate Inv(s: System) {
    LockInv(s) && forall id :: id in s.streams ==> StreamOk(s.streams[id], HolderOf(s, id))
  }

  // ---------------------------------------------------------------- atomicity

  /** How far the holder of the mutex has taken the stream from the view it found. */
  predicate EntryOk(stream: Stream, holder: Pc) {
    var v, now := stream.entry, ViewOf(stream);
    match holder
    case Both(_) => now == v
    case Opened(_, _) => v.standby && !v.unavailable && now == v.(pcm := Open)
    case Ready(_, _) => (v.standby ==> !v.unavailable) && now == AfterWrite(v, 0, true, false).1
    case Writing(_, _, _) => (v.standby ==> !v.unavailable) && now == AfterWrite(v, 0, true, false).1
    case Refused(_, frames) => v.standby && now == AfterWrite(v, frames, false, false).1
    case Leaving(_, frames, accepted) =>
      || (accepted, now) == AfterWrite(v, frames, true, accepted)
      || (accepted, now) == AfterWrite(v, frames, false, accepted)
    case PcmClosed(_) => !v.standby && now == v.(pcm := Closed)
    case PcmCleared(_) => !v.standby && now == v.(pcm := NoPcm)
    case UnlockStream(_, standby) => now == if standby then AfterStandby(v) else v
    case _ => true
  }
}

/** The audio device and stream objects, updated in place as the source does. Each call is proved against the
    atomic effect that the interleaved model gives it. */
module AudioStream {
  import opened Options
  import opened AudioPosition
  import Out = AudioOut

  const FRAME_BYTES := 4  // 16-bit stereo
  const CODEC_SAMPLING_RATE := 48000

  /** How long out_write sleeps, in microseconds, when `bytes` could not be written. */
  function SleepMicros(bytes: nat): nat {
    bytes * 1000000 / FRAME_BYTES / CODEC_SAMPLING_RATE
  }

  /** It is the time the frames would have taken to play, rounded down to a microsecond. */
  lemma SleepIsPlayingTime(frames: nat)
    ensures SleepMicros(frames * FRAME_BYTES) * CODEC_SAMPLING_RATE <= frames * 1000000
         < (SleepMicros(frames * FRAME_BYTES) + 1) * CODEC_SAMPLING_RATE
  {
    assert frames * FRAME_BYTES * 1000000 / FRAME_BYTES == frames * 1000000;
  }

  class AudioDevice {
    var locked: bool
    var devices: set<nat>
    var activeOutput: OutputStream?

    constructor ()
      ensures !locked && devices == {} && activeOutput == null
    {
      locked, devices, activeOutput := false, {}, null;
    }
  }

  class OutputStream {
    const dev: AudioDevice
    var locked: bool
    var pcm: Out.Pcm
    var unavailable: bool
    var standby: bool
    var writeThreshold: nat
    var startThreshold: nat
    var written: uint32

    ghost function Shown(): Out.View
      reads this`pcm, this`standby, this`unavailable, this`written
    {
      Out.View(pcm, standby, unavailable, written)
    }

    /** adev_open_output_stream */
    constructor (dev: AudioDevice)
      ensures !locked && Shown() == Out.NEW_VIEW && this.dev == dev
    {
      this.dev := dev;
      locked := false;
      pcm, unavailable, standby := Out.NoPcm, false, true;
      writeThreshold, startThreshold, written := 0, 0, 0;
    }

    /** start_output_stream; `opens` says whether pcm_open gives a pcm that is ready. */
    method StartOutputStream(opens: bool) returns (started: bool)
      requires dev.locked && locked && standby
      modifies this`pcm, this`unavailable, this`writeThreshold, this`startThreshold, dev`activeOutput
      ensures started == (!old(unavailable) && opens)
      ensures Shown() == if old(unavailable) then old(Shown())
                         else if opens then old(Shown()).(pcm := Out.Open)
                         else old(Shown()).(pcm := Out.Closed, unavailable := true)
      ensures dev.activeOutput == if old(unavailable) then old(dev.activeOutput) else if opens then this else null
      ensures (writeThreshold, startThreshold)
           == if old(unavailable) then (old(writeThreshold), old(startThreshold)) else (RING_FRAMES, RING_FRAMES)
    {
      if unavailable {
        return false;
      }
      writeThreshold := PLAYBACK_PERIOD_COUNT * PERIOD_SIZE;
      startThreshold := PLAYBACK_PERIOD_COUNT * PERIOD_SIZE;
      pcm := Out.Open;
      if !opens {
        pcm := Out.Closed;
        dev.activeOutput := null;
        unavailable := true;
        return false;
      }
      dev.activeOutput := this;
      started := true;
    }

    /** do_output_standby */
    method DoOutputStandby()
      requires dev.locked && locked
      modifies this`pcm, this`standby, dev`activeOutput
      ensures Shown() == Out.AfterStandby(old(Shown()))
      ensures dev.activeOutput == if old(standby) then old(dev.activeOutput) else null
    {
      if !standby {
        pcm := Out.Closed;
        pcm := Out.NoPcm;
        dev.activeOutput := null;
        standby := true;
      }
    }

    /** out_standby */
    method OutStandby()
      requires !dev.locked && !locked
      modifies this, dev
      ensures !dev.locked && !locked && dev.devices == old(dev.devices)
      ensures Shown() == Out.AfterStandby(old(Shown()))
      ensures dev.activeOutput == if old(standby) then old(dev.activeOutput) else null
      ensures writeThreshold == old(writeThreshold) && startThreshold == old(startThreshold)
    {
      dev.locked := true;
      locked := true;
      DoOutputStandby();
      locked := false;
      dev.locked := false;
    }

    /** out_set_parameters, given the routing value if the parameters name one. */
    method OutSetParameters(outAll: set<nat>, routing: Option<set<nat>>)
      requires !dev.locked && !locked
      modifies this`locked, dev`locked, dev`devices
      ensures !dev.locked && !locked && Shown() == old(Shown())
      ensures dev.devices == if routing.Some? then Out.Rerouted(outAll, old(dev.devices), routing.value)
                             else old(dev.devices)
    {
      if routing.Some? {
        var value := routing.value;
        dev.locked := true;
        locked := true;
        if dev.devices * outAll != value && value != {} {
          dev.devices := dev.devices - outAll;
          dev.devices := dev.devices + value;
        }
        locked := false;
        dev.locked := false;
      }
    }

    /** out_write; `accepts` says whether pcm_mmap_write returns 0. The result is always the byte count, and
        a failed write is slept out for as long as its frames would have taken to play. */
    method OutWrite(bytes: nat, opens: bool, accepts: bool) returns (result: nat, slept: Option<nat>)
      requires !dev.locked && !locked
      modifies this, dev
      ensures !dev.locked && !locked && dev.devices == old(dev.devices)
      ensures result == bytes
      ensures var (ok, v) := Out.AfterWrite(old(Shown()), bytes / FRAME_BYTES, opens, accepts);
        Shown() == v && slept == if ok then None else Some(SleepMicros(bytes))
      ensures dev.activeOutput == if !old(standby) || old(unavailable) then old(dev.activeOutput)
                                  else if opens then this else null
      ensures (writeThreshold, startThreshold)
           == if !old(standby) || old(unavailable) then (old(writeThreshold), old(startThreshold))
              else (RING_FRAMES, RING_FRAMES)
    {
      var outFrames := bytes / FRAME_BYTES;
      var ok := true;
      dev.locked := true;
      locked := true;
      if standby {
        ok := StartOutputStream(opens);
        if ok {
          standby := false;
        }
      }
      dev.locked := false;
      if ok {
        ok := accepts;
        if ok {
          written := (written + outFrames) % UINT32;
        }
      }
      locked := false;
      slept := None;
      if !ok {
        slept := Some(bytes * 1000000 / FRAME_BYTES / CODEC_SAMPLING_RATE);
      }
      result := bytes;
    }

    /** out_get_presentation_position */
    method GetPresentationPosition(width: SizeWidth, avail: Option<uint32>) returns (frames: Option<nat>)
      ensures frames == Query(width, pcm != Out.NoPcm, written, avail)
    {
      frames := None;
      if pcm != Out.NoPcm && avail.Some? {
        var kernelBufferSize: uint32 := PERIOD_SIZE * PLAYBACK_PERIOD_COUNT;
        var signedFrames := SignedFrames(width, written, kernelBufferSize, avail.value);
        if signedFrames >= 0 {
          frames := Some(signedFrames);
        }
      }
    }
  }
}

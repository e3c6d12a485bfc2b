/** The arithmetic of out_get_presentation_position in audio/audio_hw.c, in the widths C gives it. */
module AudioPosition {
  import opened Options

  const UINT32 := 0x1_0000_0000
  const UINT64 := 0x1_0000_0000_0000_0000

  type uint32 = n: int | 0 <= n < 0x1_0000_0000

  const PERIOD_SIZE := 1024
  const PLAYBACK_PERIOD_COUNT := 2

  /** The frames the kernel ring buffer holds. */
  const RING_FRAMES: uint32 := PERIOD_SIZE * PLAYBACK_PERIOD_COUNT

  /** The width of size_t. */
  datatype SizeWidth = Bits32 | Bits64

  /** written - kernel_buffer_size + avail: unsigned int and size_t operands, the sum taken in size_t and
      then stored in an int64_t. */
  function SignedFrames(width: SizeWidth, written: uint32, kernelFrames: uint32, avail: uint32): int {
    match width
    case Bits32 => ((written - kernelFrames) % UINT32 + avail) % UINT32
    case Bits64 =>
      var sum := ((written - kernelFrames) % UINT64 + avail) % UINT64;
      if sum < UINT64 / 2 then sum else sum - UINT64
  }

  /** The frame count reported, or None when the call fails. */
  function Position(width: SizeWidth, written: uint32, kernelFrames: uint32, avail: uint32): Option<nat> {
    var frames := SignedFrames(width, written, kernelFrames, avail);
    if frames >= 0 then Some(frames) else None
  }

  /** out_get_presentation_position: it fails without a pcm or without a timestamp; `avail` is what
      pcm_get_htimestamp reports, if it succeeds. */
  function Query(width: SizeWidth, hasPcm: bool, written: uint32, avail: Option<uint32>): Option<nat> {
    if !hasPcm || avail == None then None else Position(width, written, RING_FRAMES, avail.value)
  }

  /** The query succeeds exactly if there is a pcm, its timestamp can be read, and, with a 64-bit size_t, no more
      frames are queued than written; what it then returns is the position. */
  lemma QuerySucceedsIff(width: SizeWidth, hasPcm: bool, written: uint32, avail: Option<uint32>)
    requires avail.Some? ==> avail.value <= RING_FRAMES
    ensures Query(width, hasPcm, written, avail).Some?
       <==> hasPcm && avail.Some? && (width == Bits32 || RING_FRAMES - avail.value <= written)
    ensures hasPcm && avail.Some? ==>
      Query(width, hasPcm, written, avail) == Position(width, written, RING_FRAMES, avail.value)
  {
    if avail.Some? {
      Position64IsExact(written, RING_FRAMES, avail.value);
      Position32IsModular(written, RING_FRAMES, avail.value);
    }
  }

  /** With a 64-bit size_t the result is the mathematical written - queued, and the call fails exactly when
      that is negative. */
  lemma Position64IsExact(written: uint32, kernelFrames: uint32, avail: uint32)
    requires avail <= kernelFrames
    ensures SignedFrames(Bits64, written, kernelFrames, avail) == written - (kernelFrames - avail)
    ensures Position(Bits64, written, kernelFrames, avail).Some? <==> kernelFrames - avail <= written
  {
    var d := written - kernelFrames;
    if d >= 0 {
      assert d % UINT64 == d;
    } else {
      assert d % UINT64 == d + UINT64;
      if d + avail >= 0 {
        assert (d + UINT64 + avail) % UINT64 == d + avail;
      }
    }
  }

  /** With a 32-bit size_t the call never fails; its result is written - queued modulo 2^32, so it is the
      mathematical value exactly when queued <= written, and otherwise off by 2^32. */
  lemma Position32IsModular(written: uint32, kernelFrames: uint32, avail: uint32)
    requires avail <= kernelFrames
    ensures var queued := kernelFrames - avail;
      Position(Bits32, written, kernelFrames, avail)
        == Some(if queued <= written then written - queued else written - queued + UINT32)
  {
    var d := written - kernelFrames;
    if d >= 0 {
      assert d % UINT32 == d;
      assert d + avail < UINT32;
    } else {
      assert d % UINT32 == d + UINT32;
      if d + avail >= 0 {
        assert (d + UINT32 + avail) % UINT32 == d + avail;
      }
    }
  }

  /** The two widths agree exactly when the 64-bit call succeeds. */
  lemma WidthsAgreeIffNothingBorrowed(written: uint32, kernelFrames: uint32, avail: uint32)
    requires avail <= kernelFrames
    ensures Position(Bits32, written, kernelFrames, avail) == Position(Bits64, written, kernelFrames, avail)
       <==> kernelFrames - avail <= written
  {
    Position64IsExact(written, kernelFrames, avail);
    Position32IsModular(written, kernelFrames, avail);
  }
}

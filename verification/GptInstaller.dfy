/** The flasher's work on real buffers, in place. */
module GptInstaller {
  import opened GptBytes
  import opened GptPatch
  import opened GptProgram
  import opened GptValid
  import opened GptFlash

  /** The lowest byte of the rest, appended to what is written. */
  lemma NextByte(written: Image, value: nat, rest: nat, left: nat, size: nat)
    requires left > 0 && written + LittleEndian(rest, left) == LittleEndian(value, size)
    ensures (written + [rest % 256]) + LittleEndian(rest / 256, left - 1) == LittleEndian(value, size)
  {
    assert LittleEndian(rest, left) == [rest % 256] + LittleEndian(rest / 256, left - 1);
  }

  /** An image that differs from `before` only at `at`, where it holds `bytes`. */
  lemma PutPointwise(before: Image, after: Image, at: nat, bytes: Image)
    requires |after| == |before| && at + |bytes| <= |before|
    requires forall k :: 0 <= k < at || at + |bytes| <= k < |before| ==> after[k] == before[k]
    requires forall k :: 0 <= k < |bytes| ==> after[at + k] == bytes[k]
    ensures after == Put(before, at, bytes)
  {
    forall k | 0 <= k < |before|
      ensures after[k] == Put(before, at, bytes)[k]
    {
      if at <= k < at + |bytes| {
        assert after[at + (k - at)] == bytes[k - at];
      }
    }
  }

  /** Writes the low `size` bytes of `value` at `at`, lowest first. */
  method WriteNumber(img: array<Byte>, at: nat, value: nat, size: nat)
    requires at + size <= img.Length
    modifies img
    ensures img[..] == Put(old(img[..]), at, LittleEndian(value, size))
  {
    ghost var before, written := img[..], [];
    var rest := value;
    var i := 0;
    while i < size
      invariant 0 <= i <= size && |written| == i
      invariant forall k :: 0 <= k < at || at + i <= k < img.Length ==> img[k] == before[k]
      invariant forall k :: 0 <= k < i ==> img[at + k] == written[k]
      invariant written + LittleEndian(rest, size - i) == LittleEndian(value, size)
    {
      NextByte(written, value, rest, size - i, size);
      var low: Byte := rest % 256;
      img[at + i] := low;
      written := written + [low];
      rest := rest / 256;
      i := i + 1;
    }
    assert written + [] == written;
    PutPointwise(before, img[..], at, written);
  }

  /** Copies `block` to `at`. */
  method WriteBlock(img: array<Byte>, at: nat, block: array<Byte>)
    requires at + block.Length <= img.Length && img != block
    modifies img
    ensures img[..] == Put(old(img[..]), at, block[..])
  {
    ghost var before := img[..];
    var i := 0;
    while i < block.Length
      invariant 0 <= i <= block.Length
      invariant forall k :: 0 <= k < at || at + i <= k < img.Length ==> img[k] == before[k]
      invariant forall k :: 0 <= k < i ==> img[at + k] == block[k]
    {
      img[at + i] := block[i];
      i := i + 1;
    }
    PutPointwise(before, img[..], at, block[..]);
  }

  method PatchInPlace(crc: Crc, img: array<Byte>, p: Patch, n: nat)
    requires Fits(p, img.Length, n)
    modifies img
    ensures img[..] == ApplyPatch(crc, old(img[..]), p, n)
  {
    var value := ValueOf(crc, p, img[..], n);
    WriteNumber(img, At(p, n), value, p.size);
  }

  /** The GPT images of one LUN, as buffers. */
  class LunImages {
    const main: array<Byte>
    const backup: array<Byte>
    const disk: array<Byte>

    ghost predicate Valid() {
      main != backup && main != disk && backup != disk
    }

    ghost function Shown(): Images
      reads main, backup, disk
    {
      Images(main[..], backup[..], disk[..])
    }

    constructor (main: array<Byte>, backup: array<Byte>, disk: array<Byte>)
      requires main != backup && main != disk && backup != disk
      ensures Valid() && this.main == main && this.backup == backup && this.disk == disk
    {
      this.main, this.backup, this.disk := main, backup, disk;
    }

    method PatchOne(crc: Crc, p: Patch, n: nat)
      requires Valid() && WellSized(Shown(), n) && Fits(p, SizeOf(p.target, n), n)
      modifies main, backup, disk
      ensures WellSized(Shown(), n) && Shown() == PatchStep(crc, old(Shown()), p, n)
    {
      match p.target {
        case MainFile => PatchInPlace(crc, main, p, n);
        case BackupFile => PatchInPlace(crc, backup, p, n);
        case Disk => PatchInPlace(crc, disk, p, n);
      }
    }

    /** The patch list, row by row. */
    method RunPatches(crc: Crc, ps: seq<Patch>, n: nat)
      requires Valid() && WellSized(Shown(), n) && ProgramFits(ps, n)
      modifies main, backup, disk
      ensures WellSized(Shown(), n) && Shown() == RunProgram(crc, old(Shown()), ps, n)
    {
      var i := 0;
      while i < |ps|
        invariant 0 <= i <= |ps|
        invariant WellSized(Shown(), n)
        invariant RunProgram(crc, old(Shown()), ps, n) == RunProgram(crc, Shown(), ps[i..], n)
      {
        assert ps[i..][1..] == ps[i + 1..];
        PatchOne(crc, ps[i], n);
        i := i + 1;
      }
    }

    /** The two GPT entries of rawprogram.xml. */
    method FlashTables(n: nat)
      requires Valid() && WellSized(Shown(), n)
      modifies disk
      ensures WellSized(Shown(), n) && disk[..] == Flash(old(Shown()), n)
      ensures main[..] == old(main[..]) && backup[..] == old(backup[..])
    {
      WriteBlock(disk, 0, main);
      WriteBlock(disk, (n - BACKUP_SECTORS) * SECTOR, backup);
    }

    /** Installing one LUN: flash the tables, then run all of its patches. The disk ends with valid tables, in
        step with the patched files. */
    method Install(crc: Crc, l: Lun, n: nat)
      requires Valid() && WellSized(Shown(), n) && DiskOk(n, l) && PreparedFiles(Shown(), n, l)
      modifies main, backup, disk
      ensures WellSized(Shown(), n) && disk[..] == Patched(crc, Flash(old(Shown()), n), n, l)
      ensures disk[..] == Flash(Images(main[..], backup[..], old(disk[..])), n)
      ensures ValidTables(crc, disk[..], n, l.arrayBytes)
    {
      ghost var before := Shown();
      LunPatchesFit(l, n);
      ProgramKeepsDiskInStep(crc, before, l, n);
      PatchedFilesFlashValidTables(crc, before, n, l);
      FlashTables(n);
      assert Shown() == before.(disk := Flash(before, n));
      ProgramSplits(l);
      MixedProgramSeparates(crc, Shown(), LunPatches(l), n);
      RunPatches(crc, LunPatches(l), n);
    }
  }
}

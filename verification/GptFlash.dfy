/** Patching the GPT files and flashing them is flashing them unpatched and patching the disk. */
module GptFlash {
  import opened GptBytes
  import opened GptPatch
  import opened GptProgram
  import opened GptValid

  /** A patch of a file, with places that make sense inside it. */
  predicate FilePatch(p: Patch) {
    && p.target != Disk && p.start.FromStart? && p.start.sector < SectorsOf(p.target)
    && (p.value.CrcOf? ==> p.value.start.FromStart? && p.value.start.sector < SectorsOf(p.target))
  }

  function SectorsOf(target: Target): nat {
    if target == MainFile then MAIN_SECTORS else BACKUP_SECTORS
  }

  /** Where a sector of the file lies on the disk. */
  function OnDisk(target: Target, place: Place): Place {
    if target == BackupFile && place.FromStart? && place.sector < BACKUP_SECTORS
    then FromEnd(BACKUP_SECTORS - place.sector) else place
  }

  /** The disk patch that does to the flashed file what `p` does to the file. */
  function Translate(p: Patch): Patch {
    Patch(Disk, OnDisk(p.target, p.start), p.offset, p.size,
          match p.value
          case CrcOf(start, len) => CrcOf(OnDisk(p.target, start), len)
          case v => v)
  }

  function TranslateAll(ps: seq<Patch>): (r: seq<Patch>)
    ensures |r| == |ps|
    ensures forall i :: 0 <= i < |r| ==> r[i] == Translate(ps[i])
  {
    if ps == [] then [] else [Translate(ps[0])] + TranslateAll(ps[1..])
  }

  /** The disk patches of patch.xml are the file patches, translated, in the same order. */
  lemma DiskPatchesMirrorFilePatches(l: Lun)
    ensures TranslateAll(FilePatches(l)) == DiskPatches(l)
    ensures forall i :: 0 <= i < |FilePatches(l)| ==> FilePatch(FilePatches(l)[i])
  {
    var t, d := TranslateAll(FilePatches(l)), DiskPatches(l);
    forall i | 0 <= i < |d|
      ensures t[i] == d[i]
    {
      assert t[i] == Translate(FilePatches(l)[i]);
    }
  }

  // ---------------------------------------------------------------- one patch

  lemma FlashHoldsMain(im: Images, n: nat, at: nat, len: nat)
    requires WellSized(im, n) && at + len <= |im.main|
    ensures Slice(Flash(im, n), at, len) == Slice(im.main, at, len)
  {
    var d := Put(im.disk, 0, im.main);
    PutElsewhere(d, (n - BACKUP_SECTORS) * SECTOR, im.backup, at, len);
  }

  lemma FlashHoldsBackup(im: Images, n: nat, at: nat, len: nat)
    requires WellSized(im, n) && at + len <= |im.backup|
    ensures Slice(Flash(im, n), (n - BACKUP_SECTORS) * SECTOR + at, len) == Slice(im.backup, at, len)
  {}

  lemma TranslatedFits(p: Patch, n: nat)
    requires FilePatch(p) && Fits(p, SizeOf(p.target, n), n) && n >= MAIN_SECTORS + BACKUP_SECTORS
    ensures Fits(Translate(p), n * SECTOR, n)
    ensures At(Translate(p), n) == At(p, n) + (if p.target == MainFile then 0 else (n - BACKUP_SECTORS) * SECTOR)
  {}

  /** The translated patch computes the same value from the flashed disk. */
  lemma TranslatedValue(crc: Crc, im: Images, p: Patch, n: nat)
    requires WellSized(im, n) && FilePatch(p) && Fits(p, SizeOf(p.target, n), n)
    ensures Fits(Translate(p), n * SECTOR, n)
    ensures ValueOf(crc, Translate(p), Flash(im, n), n)
         == ValueOf(crc, p, if p.target == MainFile then im.main else im.backup, n)
  {
    TranslatedFits(p, n);
    if p.value.CrcOf? {
      var at := SectorOf(p.value.start, n) * SECTOR;
      if p.target == MainFile {
        FlashHoldsMain(im, n, at, p.value.len);
      } else {
        FlashHoldsBackup(im, n, at, p.value.len);
      }
    }
  }

  lemma MainPatchCommutes(crc: Crc, im: Images, p: Patch, n: nat)
    requires WellSized(im, n) && FilePatch(p) && p.target == MainFile && Fits(p, |im.main|, n)
    ensures Fits(Translate(p), n * SECTOR, n)
    ensures Flash(PatchStep(crc, im, p, n), n) == ApplyPatch(crc, Flash(im, n), Translate(p), n)
  {
    TranslatedFits(p, n);
    TranslatedValue(crc, im, p, n);
    var bytes := LittleEndian(ValueOf(crc, p, im.main, n), p.size);
    PutNested(im.disk, 0, im.main, At(p, n), bytes);
    PutsCommute(Put(im.disk, 0, im.main), At(p, n), bytes, (n - BACKUP_SECTORS) * SECTOR, im.backup);
  }

  lemma BackupPatchCommutes(crc: Crc, im: Images, p: Patch, n: nat)
    requires WellSized(im, n) && FilePatch(p) && p.target == BackupFile && Fits(p, |im.backup|, n)
    ensures Fits(Translate(p), n * SECTOR, n)
    ensures Flash(PatchStep(crc, im, p, n), n) == ApplyPatch(crc, Flash(im, n), Translate(p), n)
  {
    TranslatedFits(p, n);
    TranslatedValue(crc, im, p, n);
    var bytes := LittleEndian(ValueOf(crc, p, im.backup, n), p.size);
    PutNested(Put(im.disk, 0, im.main), (n - BACKUP_SECTORS) * SECTOR, im.backup, At(p, n), bytes);
  }

  // ---------------------------------------------------------------- the program

  lemma {:induction false} FilesThenFlash(crc: Crc, im: Images, ps: seq<Patch>, n: nat)
    requires WellSized(im, n) && ProgramFits(ps, n)
    requires forall i :: 0 <= i < |ps| ==> FilePatch(ps[i])
    ensures AllFit(TranslateAll(ps), n * SECTOR, n)
    ensures Flash(RunProgram(crc, im, ps, n), n) == ApplyAll(crc, Flash(im, n), TranslateAll(ps), n)
    decreases |ps|
  {
    if ps != [] {
      var p, rest := ps[0], ps[1..];
      if p.target == MainFile {
        MainPatchCommutes(crc, im, p, n);
      } else {
        BackupPatchCommutes(crc, im, p, n);
      }
      FilesThenFlash(crc, PatchStep(crc, im, p, n), rest, n);
      assert TranslateAll(ps)[0] == Translate(p) && TranslateAll(ps)[1..] == TranslateAll(rest);
      forall i | 0 <= i < |ps|
        ensures Fits(TranslateAll(ps)[i], n * SECTOR, n)
      {
        if i > 0 {
          assert TranslateAll(ps)[i] == TranslateAll(rest)[i - 1];
        }
      }
    }
  }

  lemma {:induction false} OnlyKeepsFit(ps: seq<Patch>, n: nat, disk: bool)
    requires ProgramFits(ps, n)
    ensures ProgramFits(Only(ps, disk), n)
    ensures forall i :: 0 <= i < |Only(ps, disk)| ==> ((Only(ps, disk)[i].target == Disk) == disk)
    decreases |ps|
  {
    if ps != [] {
      OnlyKeepsFit(ps[1..], n, disk);
    }
  }

  /** File patches and disk patches do not see each other: the mixed program does to the disk what its disk
      patches do, and to the files what its file patches do. */
  lemma {:induction false} MixedProgramSeparates(crc: Crc, im: Images, ps: seq<Patch>, n: nat)
    requires WellSized(im, n) && ProgramFits(ps, n)
    ensures ProgramFits(Only(ps, false), n) && AllFit(Only(ps, true), n * SECTOR, n)
    ensures var r := RunProgram(crc, im, ps, n);
      && r.disk == ApplyAll(crc, im.disk, Only(ps, true), n)
      && r == RunProgram(crc, im, Only(ps, false), n).(disk := r.disk)
      && RunProgram(crc, im, Only(ps, false), n).disk == im.disk
    decreases |ps|
  {
    OnlyKeepsFit(ps, n, true);
    OnlyKeepsFit(ps, n, false);
    if ps != [] {
      var p, rest := ps[0], ps[1..];
      var im1 := PatchStep(crc, im, p, n);
      OnlyKeepsFit(rest, n, true);
      OnlyKeepsFit(rest, n, false);
      MixedProgramSeparates(crc, im1, rest, n);
      if p.target == Disk {
        assert Only(ps, true) == [p] + Only(rest, true) && Only(ps, true)[1..] == Only(rest, true);
        assert Only(ps, false) == Only(rest, false);
        DiskDoesNotMatter(crc, im, im1.disk, Only(rest, false), n);
      } else {
        assert Only(ps, false) == [p] + Only(rest, false) && Only(ps, false)[1..] == Only(rest, false);
        assert Only(ps, true) == Only(rest, true);
      }
    }
  }

  lemma {:induction false} DiskDoesNotMatter(crc: Crc, im: Images, disk: Image, ps: seq<Patch>, n: nat)
    requires WellSized(im, n) && |disk| == |im.disk| && ProgramFits(ps, n)
    requires forall i :: 0 <= i < |ps| ==> ps[i].target != Disk
    ensures RunProgram(crc, im.(disk := disk), ps, n) == RunProgram(crc, im, ps, n).(disk := disk)
    ensures RunProgram(crc, im, ps, n).disk == im.disk
    decreases |ps|
  {
    if ps != [] {
      DiskDoesNotMatter(crc, PatchStep(crc, im, ps[0], n), disk, ps[1..], n);
    }
  }

  lemma LunPatchesFit(l: Lun, n: nat)
    requires LunOk(l) && n >= MAIN_SECTORS + BACKUP_SECTORS
    ensures ProgramFits(LunPatches(l), n)
    ensures ProgramFits(FilePatches(l), n) && AllFit(DiskPatches(l), n * SECTOR, n)
  {
    assert ProgramFits(LbaRows(l), n) && ProgramFits(CrcRows(l), n) by {
      assert ProgramFits(PartitionRows(l), n) && ProgramFits(UsableRows(), n) && ProgramFits(PlaceRows(), n);
      assert ProgramFits(ArrayCrcRows(l), n) && ProgramFits(PrimaryCrcRows(), n) && ProgramFits(BackupCrcRows(), n);
    }
  }

  /** The commuting diagram, for every LUN and every disk of at least 11 sectors: patching the two files and
      flashing them gives the same disk as flashing them unpatched and running the disk patches. */
  lemma FlashingCommutesWithPatching(crc: Crc, im: Images, l: Lun, n: nat)
    requires WellSized(im, n) && LunOk(l)
    ensures ProgramFits(FilePatches(l), n) && AllFit(DiskPatches(l), n * SECTOR, n)
    ensures Flash(RunProgram(crc, im, FilePatches(l), n), n) == ApplyAll(crc, Flash(im, n), DiskPatches(l), n)
  {
    LunPatchesFit(l, n);
    DiskPatchesMirrorFilePatches(l);
    FilesThenFlash(crc, im, FilePatches(l), n);
  }

  /** So the whole mixed program, run on files that are already on the disk, leaves a disk that is the
      flashed form of the files it leaves. */
  lemma ProgramKeepsDiskInStep(crc: Crc, im: Images, l: Lun, n: nat)
    requires WellSized(im, n) && LunOk(l)
    ensures ProgramFits(LunPatches(l), n)
    ensures var r := RunProgram(crc, im.(disk := Flash(im, n)), LunPatches(l), n);
      r.disk == Flash(Images(r.main, r.backup, im.disk), n)
  {
    LunPatchesFit(l, n);
    ProgramSplits(l);
    var flashed := im.(disk := Flash(im, n));
    MixedProgramSeparates(crc, flashed, LunPatches(l), n);
    FlashingCommutesWithPatching(crc, im, l, n);
    DiskPatchesMirrorFilePatches(l);
    DiskDoesNotMatter(crc, im, Flash(im, n), FilePatches(l), n);
  }

  // ---------------------------------------------------------------- validity of flashed files

  /** What the unpatched image files hold: the headers at block 1 of the main and block 4 of the backup file,
      with the fields no patch sets already right, of the same disk, and equal partition arrays. */
  predicate PreparedFiles(im: Images, n: nat, l: Lun)
    requires WellSized(im, n) && LunOk(l)
  {
    && FixedFields(im.main, SECTOR, l.arrayBytes) && FixedFields(im.backup, 4 * SECTOR, l.arrayBytes)
    && FieldOf(im.main, SECTOR + 24, 8) == 1
    && FieldOf(im.main, SECTOR + 72, 8) == 2
    && FieldOf(im.backup, 4 * SECTOR + 32, 8) == 1
    && Slice(im.main, SECTOR + 56, 16) == Slice(im.backup, 4 * SECTOR + 56, 16)
    && Slice(im.main, 2 * SECTOR, l.arrayBytes) == Slice(im.backup, 0, l.arrayBytes)
  }

  lemma FlashedHeaders(im: Images, n: nat, l: Lun)
    requires WellSized(im, n) && LunOk(l) && PreparedFiles(im, n, l)
    ensures FixedFields(Flash(im, n), SECTOR, l.arrayBytes) && FixedFields(Flash(im, n), (n - 1) * SECTOR, l.arrayBytes)
  {
    var rest := SECTOR - HEADER_SIZE;
    FlashHoldsMain(im, n, SECTOR, 8);
    FlashHoldsMain(im, n, SECTOR + 8, 4);
    FlashHoldsMain(im, n, SECTOR + 12, 4);
    FlashHoldsMain(im, n, SECTOR + 20, 4);
    FlashHoldsMain(im, n, SECTOR + 40, 8);
    FlashHoldsMain(im, n, SECTOR + 80, 4);
    FlashHoldsMain(im, n, SECTOR + 84, 4);
    FlashHoldsMain(im, n, SECTOR + HEADER_SIZE, rest);
    FixedFieldsCarryOver(im.main, SECTOR, Flash(im, n), SECTOR, l.arrayBytes);
    FlashHoldsBackup(im, n, 4 * SECTOR, 8);
    FlashHoldsBackup(im, n, 4 * SECTOR + 8, 4);
    FlashHoldsBackup(im, n, 4 * SECTOR + 12, 4);
    FlashHoldsBackup(im, n, 4 * SECTOR + 20, 4);
    FlashHoldsBackup(im, n, 4 * SECTOR + 40, 8);
    FlashHoldsBackup(im, n, 4 * SECTOR + 80, 4);
    FlashHoldsBackup(im, n, 4 * SECTOR + 84, 4);
    FlashHoldsBackup(im, n, 4 * SECTOR + HEADER_SIZE, rest);
    FixedFieldsCarryOver(im.backup, 4 * SECTOR, Flash(im, n), (n - 1) * SECTOR, l.arrayBytes);
  }

  lemma FlashedFilesArePrepared(im: Images, n: nat, l: Lun)
    requires WellSized(im, n) && LunOk(l) && PreparedFiles(im, n, l)
    ensures Prepared(Flash(im, n), n, l)
  {
    FlashedHeaders(im, n, l);
    FlashHoldsMain(im, n, SECTOR + 24, 8);
    FlashHoldsMain(im, n, SECTOR + 72, 8);
    FlashHoldsMain(im, n, SECTOR + 56, 16);
    FlashHoldsMain(im, n, 2 * SECTOR, l.arrayBytes);
    FlashHoldsBackup(im, n, 4 * SECTOR + 32, 8);
    FlashHoldsBackup(im, n, 4 * SECTOR + 56, 16);
    FlashHoldsBackup(im, n, 0, l.arrayBytes);
  }

  /** Either way of installing, patched files flashed or flashed files patched, ends in valid tables. */
  lemma PatchedFilesFlashValidTables(crc: Crc, im: Images, n: nat, l: Lun)
    requires WellSized(im, n) && DiskOk(n, l) && PreparedFiles(im, n, l)
    ensures ProgramFits(FilePatches(l), n)
    ensures var e := Flash(RunProgram(crc, im, FilePatches(l), n), n);
      && e == Patched(crc, Flash(im, n), n, l)
      && ValidTables(crc, e, n, l.arrayBytes)
  {
    FlashingCommutesWithPatching(crc, im, l, n);
    FlashedFilesArePrepared(im, n, l);
    PatchedTablesAreValid(crc, Flash(im, n), n, l);
  }

  /** For each of the six LUNs. */
  lemma EveryLunInstallsValidTables(crc: Crc, im: Images, n: nat, i: nat)
    requires i < |LUNS| && WellSized(im, n) && n < 0x1_0000_0000_0000_0000
    requires PreparedFiles(im, n, LUNS[i])
    ensures ProgramFits(LunPatches(LUNS[i]), n)
    ensures var l := LUNS[i];
      var e := RunProgram(crc, im.(disk := Flash(im, n)), LunPatches(l), n);
      && e.disk == Patched(crc, Flash(im, n), n, l)
      && ValidTables(crc, e.disk, n, l.arrayBytes)
      && e.disk == Flash(Images(e.main, e.backup, im.disk), n)
  {
    var l := LUNS[i];
    LunPatchesFit(l, n);
    ProgramKeepsDiskInStep(crc, im, l, n);
    ProgramSplits(l);
    MixedProgramSeparates(crc, im.(disk := Flash(im, n)), LunPatches(l), n);
    PatchedFilesFlashValidTables(crc, im, n, l);
  }

  // ---------------------------------------------------------------- prepared files exist

  /** A header as the image files hold it: signature, revision 1.0, size 92, own and alternate block, first
      usable block 6, array block, and the number and size of entries; every other byte zero. */
  function HeaderByte(l: Lun, i: int, mine: Byte, other: Byte, arrayLba: Byte): Byte
    requires LunOk(l)
  {
    if 0 <= i < 8 then SIGNATURE[i]
    else if i == 10 then 1
    else if i == 12 then 92
    else if i == 24 then mine
    else if i == 32 then other
    else if i == 40 then 6
    else if i == 72 then arrayLba
    else if i == 80 then l.arrayBytes / 128
    else if i == 84 then 128
    else 0
  }

  function TableByte(
    l: Lun, k: nat, at: nat, mine: Byte, other: Byte, arrayLba: Byte, arrayAt: nat, entries: Image): Byte
    requires LunOk(l)
  {
    if arrayAt <= k < arrayAt + |entries| then entries[k - arrayAt] else HeaderByte(l, k - at, mine, other, arrayLba)
  }

  /** A file of `size` bytes with such a header at `at` and `entries` at `arrayAt`. */
  function TableFile(
    l: Lun, size: nat, at: nat, mine: Byte, other: Byte, arrayLba: Byte, arrayAt: nat, entries: Image): (r: Image)
    requires LunOk(l)
    ensures |r| == size
    ensures forall k :: 0 <= k < size && !(arrayAt <= k < arrayAt + |entries|) ==>
      r[k] == HeaderByte(l, k - at, mine, other, arrayLba)
    ensures forall k :: arrayAt <= k < arrayAt + |entries| && k < size ==> r[k] == entries[k - arrayAt]
  {
    seq<Byte>(size, k requires 0 <= k < size => TableByte(l, k, at, mine, other, arrayLba, arrayAt, entries))
  }

  lemma {:induction false} ZeroNumber(bytes: Image)
    requires forall i :: 0 <= i < |bytes| ==> bytes[i] == 0
    ensures Number(bytes) == 0
    decreases |bytes|
  {
    if bytes != [] {
      ZeroNumber(bytes[1..]);
    }
  }

  lemma SmallField(img: Image, at: nat, size: nat)
    requires 0 < size && at + size <= |img| && forall k :: at < k < at + size ==> img[k] == 0
    ensures FieldOf(img, at, size) == img[at]
  {
    var s := Slice(img, at, size);
    forall i | 0 <= i < |s[1..]|
      ensures s[1..][i] == 0
    {
      assert s[1..][i] == img[at + (i + 1)];
    }
    ZeroNumber(s[1..]);
  }

  predicate HoldsHeader(f: Image, l: Lun, at: nat, mine: Byte, other: Byte, arrayLba: Byte)
    requires LunOk(l) && at + SECTOR <= |f|
  {
    forall k :: at <= k < at + SECTOR ==> f[k] == HeaderByte(l, k - at, mine, other, arrayLba)
  }

  lemma HeldFields(f: Image, l: Lun, at: nat, mine: Byte, other: Byte, arrayLba: Byte)
    requires LunOk(l) && at + SECTOR <= |f| && HoldsHeader(f, l, at, mine, other, arrayLba)
    ensures FieldOf(f, at + 24, 8) == mine && FieldOf(f, at + 32, 8) == other && FieldOf(f, at + 72, 8) == arrayLba
    ensures FieldOf(f, at + 12, 4) == HEADER_SIZE && FieldOf(f, at + 20, 4) == 0 && FieldOf(f, at + 40, 8) == 6
    ensures FieldOf(f, at + 80, 4) == l.arrayBytes / 128 && FieldOf(f, at + 84, 4) == 128
  {
    SmallField(f, at + 12, 4);
    SmallField(f, at + 20, 4);
    SmallField(f, at + 24, 8);
    SmallField(f, at + 32, 8);
    SmallField(f, at + 40, 8);
    SmallField(f, at + 72, 8);
    SmallField(f, at + 80, 4);
    SmallField(f, at + 84, 4);
  }

  lemma HeldSlices(f: Image, l: Lun, at: nat, mine: Byte, other: Byte, arrayLba: Byte)
    requires LunOk(l) && at + SECTOR <= |f| && HoldsHeader(f, l, at, mine, other, arrayLba)
    ensures Slice(f, at, 8) == SIGNATURE && FieldOf(f, at + 8, 4) == REVISION
    ensures Slice(f, at + 56, 16) == seq(16, _ => 0)
    ensures Zeroed(Slice(f, at + HEADER_SIZE, SECTOR - HEADER_SIZE))
  {
    assert Slice(f, at, 8) == SIGNATURE;
    assert Slice(f, at + 8, 4) == [0, 0, 1, 0];
    RevisionNumber();
    var rest := Slice(f, at + HEADER_SIZE, SECTOR - HEADER_SIZE);
    forall i | 0 <= i < |rest|
      ensures rest[i] == 0
    {
      assert rest[i] == f[at + (HEADER_SIZE + i)];
    }
  }

  lemma HeldIsFixed(f: Image, l: Lun, at: nat, mine: Byte, other: Byte, arrayLba: Byte)
    requires LunOk(l) && at + SECTOR <= |f| && HoldsHeader(f, l, at, mine, other, arrayLba)
    ensures FixedFields(f, at, l.arrayBytes)
  {
    HeldFields(f, l, at, mine, other, arrayLba);
    HeldSlices(f, l, at, mine, other, arrayLba);
    assert l.arrayBytes / 128 * 128 == l.arrayBytes;
  }

  lemma RevisionNumber()
    ensures Number([0, 0, 1, 0]) == REVISION
  {
    assert Number([0]) == 0;
    assert [1, 0][1..] == [0] && Number([1, 0]) == 1;
    assert [0, 1, 0][1..] == [1, 0] && [0, 0, 1, 0][1..] == [0, 1, 0];
  }

  lemma TableHolds(
    l: Lun, size: nat, at: nat, mine: Byte, other: Byte, arrayLba: Byte, arrayAt: nat, entries: Image)
    requires LunOk(l) && at + SECTOR <= size && arrayAt + |entries| <= size && Disjoint(at, SECTOR, arrayAt, |entries|)
    ensures var f := TableFile(l, size, at, mine, other, arrayLba, arrayAt, entries);
      && FixedFields(f, at, l.arrayBytes)
      && FieldOf(f, at + 24, 8) == mine && FieldOf(f, at + 32, 8) == other && FieldOf(f, at + 72, 8) == arrayLba
      && Slice(f, at + 56, 16) == seq(16, _ => 0)
      && Slice(f, arrayAt, |entries|) == entries
  {
    var f := TableFile(l, size, at, mine, other, arrayLba, arrayAt, entries);
    assert HoldsHeader(f, l, at, mine, other, arrayLba);
    HeldIsFixed(f, l, at, mine, other, arrayLba);
    HeldFields(f, l, at, mine, other, arrayLba);
    HeldSlices(f, l, at, mine, other, arrayLba);
    assert Slice(f, arrayAt, |entries|) == entries;
  }

  /** The preconditions on the image files can be met, for every LUN shape, disk and partition array. */
  lemma PreparedFilesExist(l: Lun, entries: Image, disk: Image, n: nat) returns (im: Images)
    requires LunOk(l) && |entries| == l.arrayBytes
    requires |disk| == n * SECTOR && n >= MAIN_SECTORS + BACKUP_SECTORS
    ensures WellSized(im, n) && im.disk == disk && PreparedFiles(im, n, l)
    ensures Slice(im.main, 2 * SECTOR, l.arrayBytes) == entries
  {
    var main := TableFile(l, MAIN_SECTORS * SECTOR, SECTOR, 1, 0, 2, 2 * SECTOR, entries);
    var backup := TableFile(l, BACKUP_SECTORS * SECTOR, 4 * SECTOR, 0, 1, 0, 0, entries);
    im := Images(main, backup, disk);
    TableHolds(l, |main|, SECTOR, 1, 0, 2, 2 * SECTOR, entries);
    TableHolds(l, |backup|, 4 * SECTOR, 0, 1, 0, 0, entries);
  }
}

/** The patch and program records of installer/db820c and what a flasher does with them. */
module GptPatch {
  import opened GptBytes

  const SECTOR := 4096

  type Checksum = n: int | 0 <= n < 0x1_0000_0000

  /** CRC32 is uninterpreted: any function from byte strings to 32-bit numbers. */
  type Crc = Image -> Checksum

  datatype Target = MainFile | BackupFile | Disk

  /** A sector number: counted from the start, or NUM_DISK_SECTORS minus `back`. */
  datatype Place = FromStart(sector: nat) | FromEnd(back: nat)

  datatype Value = Literal(n: nat) | DiskSectorsMinus(k: nat) | CrcOf(start: Place, len: nat)

  datatype Patch = Patch(target: Target, start: Place, offset: nat, size: nat, value: Value)

  function SectorOf(place: Place, n: nat): int {
    match place
    case FromStart(sector) => sector
    case FromEnd(back) => n - back
  }

  /** The byte position of the patch in its image. */
  function At(p: Patch, n: nat): int {
    SectorOf(p.start, n) * SECTOR + p.offset
  }

  /** The patch stays inside one sector of the image, and so do the bytes it reads. */
  predicate Fits(p: Patch, size: nat, n: nat) {
    && 0 <= SectorOf(p.start, n) && p.offset + p.size <= SECTOR
    && (SectorOf(p.start, n) + 1) * SECTOR <= size
    && (match p.value
        case Literal(_) => true
        case DiskSectorsMinus(k) => k <= n
        case CrcOf(start, len) => 0 <= SectorOf(start, n) && SectorOf(start, n) * SECTOR + len <= size)
  }

  function ValueOf(crc: Crc, p: Patch, img: Image, n: nat): nat
    requires Fits(p, |img|, n)
  {
    match p.value
    case Literal(v) => v
    case DiskSectorsMinus(k) => n - k
    case CrcOf(start, len) => crc(Slice(img, SectorOf(start, n) * SECTOR, len))
  }

  /** One patch on the image it targets, on a disk of `n` sectors. */
  function ApplyPatch(crc: Crc, img: Image, p: Patch, n: nat): (r: Image)
    requires Fits(p, |img|, n)
    ensures |r| == |img|
  {
    Put(img, At(p, n), LittleEndian(ValueOf(crc, p, img, n), p.size))
  }

  predicate AllFit(ps: seq<Patch>, size: nat, n: nat) {
    forall i :: 0 <= i < |ps| ==> Fits(ps[i], size, n)
  }

  /** Patches in order on one image. */
  function ApplyAll(crc: Crc, img: Image, ps: seq<Patch>, n: nat): (r: Image)
    requires AllFit(ps, |img|, n)
    ensures |r| == |img|
    decreases |ps|
  {
    if ps == [] then img else ApplyAll(crc, ApplyPatch(crc, img, ps[0], n), ps[1..], n)
  }

  // ---------------------------------------------------------------- files and disk

  /** The GPT image files and the disk of one LUN. */
  datatype Images = Images(main: Image, backup: Image, disk: Image)

  const MAIN_SECTORS := 6
  const BACKUP_SECTORS := 5

  /** A disk of `n` sectors with room for both tables apart. */
  predicate WellSized(im: Images, n: nat) {
    && |im.main| == MAIN_SECTORS * SECTOR && |im.backup| == BACKUP_SECTORS * SECTOR
    && |im.disk| == n * SECTOR && n >= MAIN_SECTORS + BACKUP_SECTORS
  }

  function SizeOf(target: Target, n: nat): nat {
    match target
    case MainFile => MAIN_SECTORS * SECTOR
    case BackupFile => BACKUP_SECTORS * SECTOR
    case Disk => n * SECTOR
  }

  predicate ProgramFits(ps: seq<Patch>, n: nat) {
    forall i :: 0 <= i < |ps| ==> Fits(ps[i], SizeOf(ps[i].target, n), n)
  }

  function PatchStep(crc: Crc, im: Images, p: Patch, n: nat): Images
    requires WellSized(im, n) && Fits(p, SizeOf(p.target, n), n)
  {
    match p.target
    case MainFile => im.(main := ApplyPatch(crc, im.main, p, n))
    case BackupFile => im.(backup := ApplyPatch(crc, im.backup, p, n))
    case Disk => im.(disk := ApplyPatch(crc, im.disk, p, n))
  }

  /** The whole patch program, file and disk patches mixed as they are listed. */
  function RunProgram(crc: Crc, im: Images, ps: seq<Patch>, n: nat): (r: Images)
    requires WellSized(im, n) && ProgramFits(ps, n)
    ensures WellSized(r, n)
    decreases |ps|
  {
    if ps == [] then im else RunProgram(crc, PatchStep(crc, im, ps[0], n), ps[1..], n)
  }

  /** The two GPT entries of rawprogram.xml: the primary table at sector 0, the backup in the last five. */
  function Flash(im: Images, n: nat): (r: Image)
    requires WellSized(im, n)
    ensures |r| == |im.disk|
  {
    Put(Put(im.disk, 0, im.main), (n - BACKUP_SECTORS) * SECTOR, im.backup)
  }
}

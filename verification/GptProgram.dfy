/** The patches of installer/db820c/patch.xml, LUN by LUN, in the order of the file. */
module GptProgram {
  import opened GptPatch

  /** What differs between LUNs: where the last partition's ending LBA lies in the partition array, and the
      bytes of the array that the CRC covers. */
  datatype Lun = Lun(endOffset: nat, arrayBytes: nat)

  type ValidLun = l: Lun | LunOk(l) witness Lun(40, 512)

  const LUNS: seq<ValidLun> :=
    [Lun(552, 1024), Lun(40, 512), Lun(40, 512), Lun(424, 512), Lun(3880, 4096), Lun(1192, 1536)]

  /** The array is a whole number of 128-byte entries in one sector, and the patched field is the ending LBA
      (at 40) of one of them. */
  predicate LunOk(l: Lun) {
    l.endOffset % 128 == 40 && l.endOffset + 8 <= l.arrayBytes <= SECTOR && l.arrayBytes % 128 == 0
  }

  /** The number, from 1, that the rows of each LUN give the last partition. */
  const LAST_PARTITIONS: seq<nat> := [5, 1, 1, 4, 31, 10]

  /** The number of entries that the headers of each LUN's image files give. */
  const ENTRY_COUNTS: seq<nat> := [8, 4, 4, 4, 32, 12]

  /** In every LUN the patched field is the ending LBA of an entry inside the covered array, the one the rows
      name; and the array covered is that of all entries. */
  lemma LunsAreOk()
    ensures |LUNS| == |LAST_PARTITIONS| == |ENTRY_COUNTS|
    ensures forall i :: 0 <= i < |LUNS| ==> LUNS[i].arrayBytes == ENTRY_COUNTS[i] * 128
    ensures forall i :: 0 <= i < |LUNS| ==> LunOk(LUNS[i]) && LUNS[i].endOffset / 128 + 1 == LAST_PARTITIONS[i]
  {}

  const LAST_USABLE := DiskSectorsMinus(6)
  const LAST := DiskSectorsMinus(1)
  const ARRAY := DiskSectorsMinus(5)

  /** Ending LBA of the last partition. */
  function PartitionRows(l: Lun): seq<Patch> {
    [Patch(MainFile, FromStart(2), l.endOffset, 8, LAST_USABLE),
     Patch(Disk, FromStart(2), l.endOffset, 8, LAST_USABLE),
     Patch(BackupFile, FromStart(0), l.endOffset, 8, LAST_USABLE),
     Patch(Disk, FromEnd(5), l.endOffset, 8, LAST_USABLE)]
  }

  /** LastUsableLBA of both headers. */
  function UsableRows(): seq<Patch> {
    [Patch(MainFile, FromStart(1), 48, 8, LAST_USABLE),
     Patch(Disk, FromStart(1), 48, 8, LAST_USABLE),
     Patch(BackupFile, FromStart(4), 48, 8, LAST_USABLE),
     Patch(Disk, FromEnd(1), 48, 8, LAST_USABLE)]
  }

  /** AlternateLBA of the primary header; MyLBA and PartitionEntryLBA of the backup header. */
  function PlaceRows(): seq<Patch> {
    [Patch(MainFile, FromStart(1), 32, 8, LAST),
     Patch(Disk, FromStart(1), 32, 8, LAST),
     Patch(BackupFile, FromStart(4), 24, 8, LAST),
     Patch(Disk, FromEnd(1), 24, 8, LAST),
     Patch(BackupFile, FromStart(4), 72, 8, ARRAY),
     Patch(Disk, FromEnd(1), 72, 8, ARRAY)]
  }

  /** CRC of the partition array in both headers. */
  function ArrayCrcRows(l: Lun): seq<Patch> {
    [Patch(MainFile, FromStart(1), 88, 4, CrcOf(FromStart(2), l.arrayBytes)),
     Patch(Disk, FromStart(1), 88, 4, CrcOf(FromStart(2), l.arrayBytes)),
     Patch(BackupFile, FromStart(4), 88, 4, CrcOf(FromStart(0), l.arrayBytes)),
     Patch(Disk, FromEnd(1), 88, 4, CrcOf(FromEnd(5), l.arrayBytes))]
  }

  /** CRC of the primary header, over the header with that field zeroed first. */
  function PrimaryCrcRows(): seq<Patch> {
    [Patch(MainFile, FromStart(1), 16, 4, Literal(0)),
     Patch(MainFile, FromStart(1), 16, 4, CrcOf(FromStart(1), 92)),
     Patch(Disk, FromStart(1), 16, 4, Literal(0)),
     Patch(Disk, FromStart(1), 16, 4, CrcOf(FromStart(1), 92))]
  }

  /** CRC of the backup header, likewise. */
  function BackupCrcRows(): seq<Patch> {
    [Patch(BackupFile, FromStart(4), 16, 4, Literal(0)),
     Patch(BackupFile, FromStart(4), 16, 4, CrcOf(FromStart(4), 92)),
     Patch(Disk, FromEnd(1), 16, 4, Literal(0)),
     Patch(Disk, FromEnd(1), 16, 4, CrcOf(FromEnd(1), 92))]
  }

  /** The rows that set LBAs, then the rows that set CRCs. */
  function LbaRows(l: Lun): seq<Patch> {
    PartitionRows(l) + UsableRows() + PlaceRows()
  }

  function CrcRows(l: Lun): seq<Patch> {
    ArrayCrcRows(l) + PrimaryCrcRows() + BackupCrcRows()
  }

  /** The 26 patches of one LUN. */
  function LunPatches(l: Lun): seq<Patch> {
    LbaRows(l) + CrcRows(l)
  }

  /** Those that target the disk, in order. */
  function DiskPatches(l: Lun): seq<Patch> {
    [Patch(Disk, FromStart(2), l.endOffset, 8, LAST_USABLE),
     Patch(Disk, FromEnd(5), l.endOffset, 8, LAST_USABLE),
     Patch(Disk, FromStart(1), 48, 8, LAST_USABLE),
     Patch(Disk, FromEnd(1), 48, 8, LAST_USABLE),
     Patch(Disk, FromStart(1), 32, 8, LAST),
     Patch(Disk, FromEnd(1), 24, 8, LAST),
     Patch(Disk, FromEnd(1), 72, 8, ARRAY),
     Patch(Disk, FromStart(1), 88, 4, CrcOf(FromStart(2), l.arrayBytes)),
     Patch(Disk, FromEnd(1), 88, 4, CrcOf(FromEnd(5), l.arrayBytes)),
     Patch(Disk, FromStart(1), 16, 4, Literal(0)),
     Patch(Disk, FromStart(1), 16, 4, CrcOf(FromStart(1), 92)),
     Patch(Disk, FromEnd(1), 16, 4, Literal(0)),
     Patch(Disk, FromEnd(1), 16, 4, CrcOf(FromEnd(1), 92))]
  }

  /** Those that satisfy `keep`, in order. */
  function Only(ps: seq<Patch>, disk: bool): seq<Patch> {
    if ps == [] then []
    else (if (ps[0].target == Disk) == disk then [ps[0]] else []) + Only(ps[1..], disk)
  }

  lemma {:induction false} OnlyAppend(ps: seq<Patch>, qs: seq<Patch>, disk: bool)
    ensures Only(ps + qs, disk) == Only(ps, disk) + Only(qs, disk)
    decreases |ps|
  {
    if ps == [] {
      assert ps + qs == qs;
    } else {
      assert (ps + qs)[0] == ps[0] && (ps + qs)[1..] == ps[1..] + qs;
      OnlyAppend(ps[1..], qs, disk);
      var head := if (ps[0].target == Disk) == disk then [ps[0]] else [];
      assert Only(ps + qs, disk) == head + (Only(ps[1..], disk) + Only(qs, disk));
    }
  }

  lemma OnlyOne(p: Patch, disk: bool)
    ensures Only([p], disk) == if (p.target == Disk) == disk then [p] else []
  {
    assert [p][1..] == [];
  }

  /** A file patch followed by a disk patch. */
  lemma OnlyPair(p: Patch, q: Patch)
    requires p.target != Disk && q.target == Disk
    ensures Only([p, q], true) == [q] && Only([p, q], false) == [p]
  {
    assert [p, q] == [p] + [q];
    OnlyAppend([p], [q], true);
    OnlyAppend([p], [q], false);
    OnlyOne(p, true);
    OnlyOne(p, false);
    OnlyOne(q, true);
    OnlyOne(q, false);
  }

  /** Two patches of the same kind. */
  lemma OnlyTwins(p: Patch, q: Patch)
    requires (p.target == Disk) == (q.target == Disk)
    ensures Only([p, q], p.target == Disk) == [p, q] && Only([p, q], p.target != Disk) == []
  {
    assert [p, q] == [p] + [q];
    OnlyAppend([p], [q], true);
    OnlyAppend([p], [q], false);
    OnlyOne(p, true);
    OnlyOne(p, false);
    OnlyOne(q, true);
    OnlyOne(q, false);
  }

  /** A block of four: file, disk, file, disk. */
  lemma OnlyMixed(b: seq<Patch>)
    requires |b| == 4 && b[0].target != Disk && b[1].target == Disk && b[2].target != Disk && b[3].target == Disk
    ensures Only(b, true) == [b[1], b[3]] && Only(b, false) == [b[0], b[2]]
  {
    assert b == [b[0], b[1]] + [b[2], b[3]];
    OnlyPair(b[0], b[1]);
    OnlyPair(b[2], b[3]);
    OnlyAppend([b[0], b[1]], [b[2], b[3]], true);
    OnlyAppend([b[0], b[1]], [b[2], b[3]], false);
  }

  /** A block of four: two file patches, then two disk patches. */
  lemma OnlyHalves(b: seq<Patch>)
    requires |b| == 4 && b[0].target != Disk && b[1].target != Disk && b[2].target == Disk && b[3].target == Disk
    ensures Only(b, true) == [b[2], b[3]] && Only(b, false) == [b[0], b[1]]
  {
    assert b == [b[0], b[1]] + [b[2], b[3]];
    OnlyTwins(b[0], b[1]);
    OnlyTwins(b[2], b[3]);
    OnlyAppend([b[0], b[1]], [b[2], b[3]], true);
    OnlyAppend([b[0], b[1]], [b[2], b[3]], false);
  }

  lemma OnlyPlaceRows()
    ensures Only(PlaceRows(), true) == [PlaceRows()[1], PlaceRows()[3], PlaceRows()[5]]
    ensures Only(PlaceRows(), false) == [PlaceRows()[0], PlaceRows()[2], PlaceRows()[4]]
  {
    var b := PlaceRows();
    assert b == b[..4] + [b[4], b[5]];
    OnlyMixed(b[..4]);
    OnlyPair(b[4], b[5]);
    OnlyAppend(b[..4], [b[4], b[5]], true);
    OnlyAppend(b[..4], [b[4], b[5]], false);
  }

  /** The file patches of one LUN, in order. */
  function FilePatches(l: Lun): seq<Patch> {
    [Patch(MainFile, FromStart(2), l.endOffset, 8, LAST_USABLE),
     Patch(BackupFile, FromStart(0), l.endOffset, 8, LAST_USABLE),
     Patch(MainFile, FromStart(1), 48, 8, LAST_USABLE),
     Patch(BackupFile, FromStart(4), 48, 8, LAST_USABLE),
     Patch(MainFile, FromStart(1), 32, 8, LAST),
     Patch(BackupFile, FromStart(4), 24, 8, LAST),
     Patch(BackupFile, FromStart(4), 72, 8, ARRAY),
     Patch(MainFile, FromStart(1), 88, 4, CrcOf(FromStart(2), l.arrayBytes)),
     Patch(BackupFile, FromStart(4), 88, 4, CrcOf(FromStart(0), l.arrayBytes)),
     Patch(MainFile, FromStart(1), 16, 4, Literal(0)),
     Patch(MainFile, FromStart(1), 16, 4, CrcOf(FromStart(1), 92)),
     Patch(BackupFile, FromStart(4), 16, 4, Literal(0)),
     Patch(BackupFile, FromStart(4), 16, 4, CrcOf(FromStart(4), 92))]
  }

  lemma SplitThree(a: seq<Patch>, b: seq<Patch>, c: seq<Patch>, disk: bool)
    ensures Only(a + b + c, disk) == Only(a, disk) + Only(b, disk) + Only(c, disk)
  {
    OnlyAppend(a + b, c, disk);
    OnlyAppend(a, b, disk);
  }

  lemma LbaRowsSplit(l: Lun)
    ensures Only(LbaRows(l), true) == DiskPatches(l)[..7]
    ensures Only(LbaRows(l), false) == FilePatches(l)[..7]
  {
    OnlyMixed(PartitionRows(l));
    OnlyMixed(UsableRows());
    OnlyPlaceRows();
    SplitThree(PartitionRows(l), UsableRows(), PlaceRows(), true);
    SplitThree(PartitionRows(l), UsableRows(), PlaceRows(), false);
  }

  lemma CrcRowsSplit(l: Lun)
    ensures Only(CrcRows(l), true) == DiskPatches(l)[7..]
    ensures Only(CrcRows(l), false) == FilePatches(l)[7..]
  {
    OnlyMixed(ArrayCrcRows(l));
    OnlyHalves(PrimaryCrcRows());
    OnlyHalves(BackupCrcRows());
    SplitThree(ArrayCrcRows(l), PrimaryCrcRows(), BackupCrcRows(), true);
    SplitThree(ArrayCrcRows(l), PrimaryCrcRows(), BackupCrcRows(), false);
  }

  /** Taking the disk patches, or the file patches, out of the mixed list. */
  lemma ProgramSplits(l: Lun)
    ensures Only(LunPatches(l), true) == DiskPatches(l)
    ensures Only(LunPatches(l), false) == FilePatches(l)
  {
    LbaRowsSplit(l);
    CrcRowsSplit(l);
    OnlyAppend(LbaRows(l), CrcRows(l), true);
    OnlyAppend(LbaRows(l), CrcRows(l), false);
    assert DiskPatches(l)[..7] + DiskPatches(l)[7..] == DiskPatches(l);
    assert FilePatches(l)[..7] + FilePatches(l)[7..] == FilePatches(l);
  }
}

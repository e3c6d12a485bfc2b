/** The partition entries of the installed tables: sections 5.3.2 and 5.3.3 of the UEFI Specification ask that the
    used ones lie in the usable range and do not overlap. */
module GptEntries {
  import opened GptBytes
  import opened GptPatch
  import opened GptProgram
  import opened GptValid
  import opened GptFlash

  /** The entry whose ending LBA is patched. */
  function LastEntry(l: Lun): nat {
    l.endOffset / ENTRY_SIZE
  }

  predicate HasEntry(table: Image, i: nat) {
    (i + 1) * ENTRY_SIZE <= |table|
  }

  /** An entry with an all-zero partition type is unused. */
  predicate Used(table: Image, i: nat) {
    HasEntry(table, i) && !Zeroed(Slice(table, i * ENTRY_SIZE, 16))
  }

  function StartOf(table: Image, i: nat): nat
    requires HasEntry(table, i)
  {
    FieldOf(table, i * ENTRY_SIZE + 32, 8)
  }

  function EndOf(table: Image, i: nat): nat
    requires HasEntry(table, i)
  {
    FieldOf(table, i * ENTRY_SIZE + 40, 8)
  }

  predicate Apart(table: Image, i: nat, j: nat)
    requires HasEntry(table, i) && HasEntry(table, j)
  {
    EndOf(table, i) < StartOf(table, j) || EndOf(table, j) < StartOf(table, i)
  }

  /** Used entries lie in the usable range of a disk of `n` sectors and do not overlap. */
  ghost predicate Sound(table: Image, n: nat) {
    && (forall i: nat :: Used(table, i) ==> 6 <= StartOf(table, i) <= EndOf(table, i) <= n - 6)
    && (forall i: nat, j: nat :: Used(table, i) && Used(table, j) && i != j ==> Apart(table, i, j))
  }

  /** A used entry other than the last. */
  predicate UsedBefore(table: Image, l: Lun, i: nat) {
    Used(table, i) && i != LastEntry(l)
  }

  /** What the image files hold: used entries other than the last are proper and apart, and the last one, if it
      is used, starts after all of them; its end is not set yet. */
  ghost predicate PreparedEntries(table: Image, l: Lun)
    requires |table| == l.arrayBytes && LunOk(l)
  {
    var last := LastEntry(l);
    && (forall i: nat :: UsedBefore(table, l, i) ==> 6 <= StartOf(table, i) <= EndOf(table, i))
    && (forall i: nat, j: nat :: UsedBefore(table, l, i) && UsedBefore(table, l, j) && i != j ==> Apart(table, i, j))
    && (Used(table, last) ==> 6 <= StartOf(table, last))
    && (Used(table, last) ==> forall i: nat :: UsedBefore(table, l, i) ==> EndOf(table, i) < StartOf(table, last))
  }

  /** The disk has room for all partitions: it reaches 6 blocks past the start of the last partition; or, where
      the last entry is unused, 6 blocks past the end of every used one. */
  ghost predicate DiskReaches(table: Image, l: Lun, n: nat)
    requires |table| == l.arrayBytes && LunOk(l)
  {
    if Used(table, LastEntry(l)) then n >= StartOf(table, LastEntry(l)) + 6
    else forall i: nat :: Used(table, i) ==> n >= EndOf(table, i) + 6
  }

  // ---------------------------------------------------------------- one array

  function WithEnd(table: Image, l: Lun, last: nat): (r: Image)
    requires |table| == l.arrayBytes && LunOk(l)
    ensures |r| == |table|
  {
    Put(table, l.endOffset, LittleEndian(last, 8))
  }

  lemma EntryAfter(table: Image, l: Lun, last: nat, i: nat)
    requires |table| == l.arrayBytes && LunOk(l) && last < 0x1_0000_0000_0000_0000 && HasEntry(table, i)
    ensures var r := WithEnd(table, l, last);
      && (Used(r, i) <==> Used(table, i))
      && StartOf(r, i) == StartOf(table, i)
      && EndOf(r, i) == if i == LastEntry(l) then last else EndOf(table, i)
  {
    var bytes := LittleEndian(last, 8);
    PutElsewhere(table, l.endOffset, bytes, i * ENTRY_SIZE, 16);
    PutElsewhere(table, l.endOffset, bytes, i * ENTRY_SIZE + 32, 8);
    if i == LastEntry(l) {
      assert l.endOffset == i * ENTRY_SIZE + 40;
      PutThere(table, l.endOffset, bytes);
      FieldSizes();
      NumberOfLittleEndian(last, 8);
    } else {
      PutElsewhere(table, l.endOffset, bytes, i * ENTRY_SIZE + 40, 8);
    }
  }

  lemma EntriesAfter(table: Image, l: Lun, last: nat)
    requires |table| == l.arrayBytes && LunOk(l) && last < 0x1_0000_0000_0000_0000
    ensures var r := WithEnd(table, l, last);
      forall i: nat ::
        && (Used(r, i) <==> Used(table, i))
        && (Used(r, i) ==> StartOf(r, i) == StartOf(table, i))
        && (Used(r, i) ==> EndOf(r, i) == if i == LastEntry(l) then last else EndOf(table, i))
  {
    var r := WithEnd(table, l, last);
    forall i: nat | HasEntry(table, i)
      ensures Used(r, i) <==> Used(table, i)
      ensures StartOf(r, i) == StartOf(table, i)
      ensures EndOf(r, i) == if i == LastEntry(l) then last else EndOf(table, i)
    {
      EntryAfter(table, l, last, i);
    }
  }

  lemma ReachingDiskIsSound(table: Image, l: Lun, n: nat)
    requires |table| == l.arrayBytes && LunOk(l) && 6 <= n < 0x1_0000_0000_0000_0000
    requires PreparedEntries(table, l) && DiskReaches(table, l, n)
    ensures Sound(WithEnd(table, l, n - 6), n)
  {
    var r, last := WithEnd(table, l, n - 6), LastEntry(l);
    EntriesAfter(table, l, n - 6);
    forall i: nat | Used(r, i)
      ensures 6 <= StartOf(r, i) <= EndOf(r, i) <= n - 6
    {
      assert i != last ==> UsedBefore(table, l, i);
    }
    forall i: nat, j: nat | Used(r, i) && Used(r, j) && i != j
      ensures Apart(r, i, j)
    {
      assert i != last ==> UsedBefore(table, l, i);
      assert j != last ==> UsedBefore(table, l, j);
      assert i != last && j != last ==> Apart(table, i, j);
    }
  }

  lemma SoundDiskReaches(table: Image, l: Lun, n: nat)
    requires |table| == l.arrayBytes && LunOk(l) && 6 <= n < 0x1_0000_0000_0000_0000
    requires Sound(WithEnd(table, l, n - 6), n)
    ensures DiskReaches(table, l, n)
  {
    var r, last := WithEnd(table, l, n - 6), LastEntry(l);
    EntriesAfter(table, l, n - 6);
    if Used(table, last) {
      assert StartOf(r, last) <= EndOf(r, last) == n - 6;
    } else {
      forall i: nat | Used(table, i)
        ensures n >= EndOf(table, i) + 6
      {
        assert Used(r, i) && EndOf(r, i) <= n - 6;
      }
    }
  }

  /** Setting the end of the last partition to the last usable block makes a sound array exactly if the disk
      reaches. */
  lemma SoundIffDiskReaches(table: Image, l: Lun, n: nat)
    requires |table| == l.arrayBytes && LunOk(l) && 6 <= n < 0x1_0000_0000_0000_0000
    requires PreparedEntries(table, l)
    ensures Sound(WithEnd(table, l, n - 6), n) <==> DiskReaches(table, l, n)
  {
    if DiskReaches(table, l, n) {
      ReachingDiskIsSound(table, l, n);
    }
    if Sound(WithEnd(table, l, n - 6), n) {
      SoundDiskReaches(table, l, n);
    }
  }

  // ---------------------------------------------------------------- the installed tables

  /** For each of the six LUNs: running the whole mixed list on the flashed files leaves both partition arrays
      sound if and only if the disk reaches. */
  lemma EveryLunInstallsSoundEntries(crc: Crc, im: Images, n: nat, i: nat)
    requires i < |LUNS| && WellSized(im, n) && n < 0x1_0000_0000_0000_0000
    requires PreparedFiles(im, n, LUNS[i])
    requires PreparedEntries(Slice(im.main, 2 * SECTOR, LUNS[i].arrayBytes), LUNS[i])
    ensures ProgramFits(LunPatches(LUNS[i]), n)
    ensures var l := LUNS[i];
      var e := RunProgram(crc, im.(disk := Flash(im, n)), LunPatches(l), n).disk;
      var reaches := DiskReaches(Slice(im.main, 2 * SECTOR, l.arrayBytes), l, n);
      && (Sound(Slice(e, 2 * SECTOR, l.arrayBytes), n) <==> reaches)
      && (Sound(Slice(e, (n - 5) * SECTOR, l.arrayBytes), n) <==> reaches)
  {
    var l := LUNS[i];
    EveryLunInstallsValidTables(crc, im, n, i);
    ArrayAfter(crc, Flash(im, n), n, l, 0);
    FlashHoldsMain(im, n, 2 * SECTOR, l.arrayBytes);
    SoundIffDiskReaches(Slice(im.main, 2 * SECTOR, l.arrayBytes), l, n);
  }
}

/** The GUID partition tables a patched disk carries are valid under sections 5.3.2 and 5.3.3 of the UEFI
    Specification. */
module GptValid {
  import opened GptBytes
  import opened GptPatch
  import opened GptProgram

  // ---------------------------------------------------------------- what survives a list of patches

  /** The patch writes no byte of [at, at + len). */
  predicate Spares(p: Patch, n: nat, at: int, len: int) {
    Disjoint(At(p, n), p.size, at, len)
  }

  lemma {:induction false} ApplyAppend(crc: Crc, img: Image, ps: seq<Patch>, qs: seq<Patch>, n: nat)
    requires AllFit(ps, |img|, n) && AllFit(qs, |img|, n)
    ensures AllFit(ps + qs, |img|, n)
    ensures ApplyAll(crc, img, ps + qs, n) == ApplyAll(crc, ApplyAll(crc, img, ps, n), qs, n)
    decreases |ps|
  {
    if ps == [] {
      assert ps + qs == qs;
    } else {
      assert (ps + qs)[1..] == ps[1..] + qs;
      ApplyAppend(crc, ApplyPatch(crc, img, ps[0], n), ps[1..], qs, n);
    }
  }

  lemma {:induction false} SparedSlice(crc: Crc, img: Image, ps: seq<Patch>, n: nat, at: nat, len: nat)
    requires AllFit(ps, |img|, n) && at + len <= |img|
    requires forall i :: 0 <= i < |ps| ==> Spares(ps[i], n, at, len)
    ensures Slice(ApplyAll(crc, img, ps, n), at, len) == Slice(img, at, len)
    decreases |ps|
  {
    if ps != [] {
      var p := ps[0];
      PutElsewhere(img, At(p, n), LittleEndian(ValueOf(crc, p, img, n), p.size), at, len);
      SparedSlice(crc, ApplyPatch(crc, img, p, n), ps[1..], n, at, len);
    }
  }

  lemma WriteThenSpare(crc: Crc, img: Image, before: seq<Patch>, p: Patch, after: seq<Patch>, n: nat)
    requires AllFit(before, |img|, n) && Fits(p, |img|, n) && AllFit(after, |img|, n)
    requires forall i :: 0 <= i < |after| ==> Spares(after[i], n, At(p, n), p.size)
    ensures AllFit(before + ([p] + after), |img|, n)
    ensures 0 <= At(p, n) && At(p, n) + p.size <= |img|
    ensures Slice(ApplyAll(crc, img, before + ([p] + after), n), At(p, n), p.size)
         == LittleEndian(ValueOf(crc, p, ApplyAll(crc, img, before, n), n), p.size)
  {
    var mid := ApplyAll(crc, img, before, n);
    var next := ApplyPatch(crc, mid, p, n);
    ApplyAppend(crc, img, before, [p] + after, n);
    assert ([p] + after)[1..] == after;
    assert ApplyAll(crc, mid, [p] + after, n) == ApplyAll(crc, next, after, n);
    PutThere(mid, At(p, n), LittleEndian(ValueOf(crc, p, mid, n), p.size));
    SparedSlice(crc, next, after, n, At(p, n), p.size);
  }

  /** What patch `k` writes is what the final image holds there, if the later patches spare it. */
  lemma LastWriteStays(crc: Crc, img: Image, ps: seq<Patch>, n: nat, k: nat)
    requires AllFit(ps, |img|, n) && k < |ps|
    requires forall i :: k < i < |ps| ==> Spares(ps[i], n, At(ps[k], n), ps[k].size)
    ensures AllFit(ps[..k], |img|, n) && 0 <= At(ps[k], n) && At(ps[k], n) + ps[k].size <= |img|
    ensures Slice(ApplyAll(crc, img, ps, n), At(ps[k], n), ps[k].size)
         == LittleEndian(ValueOf(crc, ps[k], ApplyAll(crc, img, ps[..k], n), n), ps[k].size)
  {
    assert ps == ps[..k] + ([ps[k]] + ps[k + 1..]);
    WriteThenSpare(crc, img, ps[..k], ps[k], ps[k + 1..], n);
  }

  /** Bytes that patch `k` and all later ones spare are in the end what they were before patch `k`. */
  lemma SparedSince(crc: Crc, img: Image, ps: seq<Patch>, n: nat, k: nat, at: nat, len: nat)
    requires AllFit(ps, |img|, n) && k <= |ps| && at + len <= |img|
    requires forall i :: k <= i < |ps| ==> Spares(ps[i], n, at, len)
    ensures AllFit(ps[..k], |img|, n)
    ensures Slice(ApplyAll(crc, img, ps, n), at, len) == Slice(ApplyAll(crc, img, ps[..k], n), at, len)
  {
    assert ps == ps[..k] + ps[k..];
    ApplyAppend(crc, img, ps[..k], ps[k..], n);
    SparedSlice(crc, ApplyAll(crc, img, ps[..k], n), ps[k..], n, at, len);
  }

  // ---------------------------------------------------------------- header fields

  const SIGNATURE: Image := [69, 70, 73, 32, 80, 65, 82, 84]  // "EFI PART"
  const HEADER_SIZE := 92

  const REVISION := 0x0001_0000
  const ENTRY_SIZE := 128

  predicate Zeroed(bytes: Image) {
    forall i :: 0 <= i < |bytes| ==> bytes[i] == 0
  }

  /** The fields of the header at `at` that are the same in every table: signature, revision, header size,
      reserved word, first usable block, the size and number of entries, and the zero rest of the block. */
  predicate FixedFields(disk: Image, at: nat, arrayBytes: nat)
    requires at + SECTOR <= |disk|
  {
    && Slice(disk, at, 8) == SIGNATURE
    && FieldOf(disk, at + 8, 4) == REVISION
    && FieldOf(disk, at + 12, 4) == HEADER_SIZE
    && FieldOf(disk, at + 20, 4) == 0
    && FieldOf(disk, at + 40, 8) == 6
    && FieldOf(disk, at + 80, 4) * ENTRY_SIZE == arrayBytes
    && FieldOf(disk, at + 84, 4) == ENTRY_SIZE
    && Zeroed(Slice(disk, at + HEADER_SIZE, SECTOR - HEADER_SIZE))
  }

  /** What the images hold before patching: two headers whose fixed fields, own place (primary) or alternate
      place (backup) are already right, of the same disk, and equal partition arrays. */
  predicate Prepared(disk: Image, n: nat, l: Lun)
    requires |disk| == n * SECTOR && n >= 11 && l.arrayBytes <= SECTOR
  {
    var primary, backup := SECTOR, (n - 1) * SECTOR;
    && FixedFields(disk, primary, l.arrayBytes) && FixedFields(disk, backup, l.arrayBytes)
    && FieldOf(disk, primary + 24, 8) == 1
    && FieldOf(disk, primary + 72, 8) == 2
    && FieldOf(disk, backup + 32, 8) == 1
    && Slice(disk, primary + 56, 16) == Slice(disk, backup + 56, 16)
    && Slice(disk, 2 * SECTOR, l.arrayBytes) == Slice(disk, (n - 5) * SECTOR, l.arrayBytes)
  }

  /** A valid header at block `lba`: the fixed fields, its own and the other header's place, the usable range,
      the place and CRC of the partition array, and its own CRC taken with that field zeroed. */
  ghost predicate ValidHeader(crc: Crc, disk: Image, n: nat, lba: nat, alternate: nat, arrayLba: nat, arrayBytes: nat)
    requires (lba + 1) * SECTOR <= |disk| && arrayLba * SECTOR + arrayBytes <= |disk|
  {
    var at := lba * SECTOR;
    && FixedFields(disk, at, arrayBytes)
    && FieldOf(disk, at + 24, 8) == lba
    && FieldOf(disk, at + 32, 8) == alternate
    && FieldOf(disk, at + 48, 8) == n - 6
    && FieldOf(disk, at + 72, 8) == arrayLba
    && FieldOf(disk, at + 88, 4) == crc(Slice(disk, arrayLba * SECTOR, arrayBytes))
    && FieldOf(disk, at + 16, 4) == crc(Put(Slice(disk, at, HEADER_SIZE), 16, [0, 0, 0, 0]))
  }

  /** Valid primary and backup tables: each header names the other, both give the same disk, and the arrays are
      equal. */
  ghost predicate ValidTables(crc: Crc, disk: Image, n: nat, arrayBytes: nat)
    requires |disk| == n * SECTOR && n >= 11 && arrayBytes <= SECTOR
  {
    && ValidHeader(crc, disk, n, 1, n - 1, 2, arrayBytes)
    && ValidHeader(crc, disk, n, n - 1, 1, n - 5, arrayBytes)
    && Slice(disk, SECTOR + 56, 16) == Slice(disk, (n - 1) * SECTOR + 56, 16)
    && Slice(disk, 2 * SECTOR, arrayBytes) == Slice(disk, (n - 5) * SECTOR, arrayBytes)
  }

  // ---------------------------------------------------------------- the disk patches

  predicate DiskOk(n: nat, l: Lun) {
    11 <= n < 0x1_0000_0000_0000_0000 && LunOk(l)
  }

  lemma DiskPatchesFit(n: nat, l: Lun)
    requires DiskOk(n, l)
    ensures AllFit(DiskPatches(l), n * SECTOR, n)
  {}

  /** The disk after its patches. */
  function Patched(crc: Crc, disk: Image, n: nat, l: Lun): Image
    requires |disk| == n * SECTOR && DiskOk(n, l)
  {
    DiskPatchesFit(n, l);
    ApplyAll(crc, disk, DiskPatches(l), n)
  }

  /** A field that only patch `k` writes, with an LBA as its value. */
  lemma LbaField(crc: Crc, disk: Image, n: nat, l: Lun, k: nat, minus: nat)
    requires |disk| == n * SECTOR && DiskOk(n, l) && k < 7
    requires DiskPatches(l)[k].value == DiskSectorsMinus(minus) && minus <= 6
    ensures var p := DiskPatches(l)[k];
      && 0 <= At(p, n) && At(p, n) + 8 <= n * SECTOR && |Patched(crc, disk, n, l)| == n * SECTOR
      && FieldOf(Patched(crc, disk, n, l), At(p, n), 8) == n - minus
  {
    var ps := DiskPatches(l);
    DiskPatchesFit(n, l);
    LbaFieldSpared(n, l, k);
    LastWriteStays(crc, disk, ps, n, k);
    FieldSizes();
    NumberOfLittleEndian(n - minus, 8);
  }

  lemma LbaFieldSpared(n: nat, l: Lun, k: nat)
    requires DiskOk(n, l) && k < 7
    ensures DiskPatches(l)[k].size == 8
    ensures forall i :: k < i < |DiskPatches(l)| ==>
      Spares(DiskPatches(l)[i], n, At(DiskPatches(l)[k], n), DiskPatches(l)[k].size)
  {}

  /** Bytes that no disk patch writes. */
  lemma UntouchedSlice(crc: Crc, disk: Image, n: nat, l: Lun, at: nat, len: nat)
    requires |disk| == n * SECTOR && DiskOk(n, l) && at + len <= n * SECTOR
    requires forall i :: 0 <= i < |DiskPatches(l)| ==> Spares(DiskPatches(l)[i], n, at, len)
    ensures |Patched(crc, disk, n, l)| == n * SECTOR
    ensures Slice(Patched(crc, disk, n, l), at, len) == Slice(disk, at, len)
  {
    DiskPatchesFit(n, l);
    SparedSlice(crc, disk, DiskPatches(l), n, at, len);
  }

  /** Nothing outside the two headers and the two partition arrays changes. */
  lemma RestOfDiskUntouched(crc: Crc, disk: Image, n: nat, l: Lun, at: nat, len: nat)
    requires |disk| == n * SECTOR && DiskOk(n, l) && at + len <= n * SECTOR
    requires Disjoint(SECTOR, SECTOR + l.arrayBytes, at, len)
    requires Disjoint((n - 5) * SECTOR, l.arrayBytes, at, len) && Disjoint((n - 1) * SECTOR, HEADER_SIZE, at, len)
    ensures |Patched(crc, disk, n, l)| == n * SECTOR
    ensures Slice(Patched(crc, disk, n, l), at, len) == Slice(disk, at, len)
  {
    UntouchedSlice(crc, disk, n, l, at, len);
  }

  // ---------------------------------------------------------------- CRC fields

  /** The array CRC written by patch `k` is that of the final array. */
  lemma ArrayCrcField(crc: Crc, disk: Image, n: nat, l: Lun, k: nat)
    requires |disk| == n * SECTOR && DiskOk(n, l) && (k == 7 || k == 8)
    ensures var header := if k == 7 then SECTOR else (n - 1) * SECTOR;
      var arrayAt := if k == 7 then 2 * SECTOR else (n - 5) * SECTOR;
      var e := Patched(crc, disk, n, l);
      && |e| == n * SECTOR
      && FieldOf(e, header + 88, 4) == crc(Slice(e, arrayAt, l.arrayBytes))
  {
    var ps := DiskPatches(l);
    var arrayAt := if k == 7 then 2 * SECTOR else (n - 5) * SECTOR;
    DiskPatchesFit(n, l);
    LaterSpareArrayCrc(n, l, k);
    LastWriteStays(crc, disk, ps, n, k);
    SparedSince(crc, disk, ps, n, k, arrayAt, l.arrayBytes);
    FieldSizes();
    NumberOfLittleEndian(crc(Slice(ApplyAll(crc, disk, ps[..k], n), arrayAt, l.arrayBytes)), 4);
  }

  lemma LaterSpareArrayCrc(n: nat, l: Lun, k: nat)
    requires DiskOk(n, l) && (k == 7 || k == 8)
    ensures var ps := DiskPatches(l);
      && (forall i :: k < i < |ps| ==> Spares(ps[i], n, At(ps[k], n), ps[k].size))
      && (forall i :: k <= i < |ps| ==>
            Spares(ps[i], n, if k == 7 then 2 * SECTOR else (n - 5) * SECTOR, l.arrayBytes))
  {}

  lemma HeaderPieces(e: Image, mid: Image, at: nat)
    requires |e| == |mid| && at + HEADER_SIZE <= |e|
    requires Slice(e, at, 16) == Slice(mid, at, 16) && Slice(e, at + 20, 72) == Slice(mid, at + 20, 72)
    requires Slice(mid, at + 16, 4) == [0, 0, 0, 0]
    ensures Put(Slice(e, at, HEADER_SIZE), 16, [0, 0, 0, 0]) == Slice(mid, at, HEADER_SIZE)
  {
    var l, r := Put(Slice(e, at, HEADER_SIZE), 16, [0, 0, 0, 0]), Slice(mid, at, HEADER_SIZE);
    forall i | 0 <= i < HEADER_SIZE
      ensures l[i] == r[i]
    {
      if i < 16 {
        assert l[i] == Slice(e, at, 16)[i] && r[i] == Slice(mid, at, 16)[i];
      } else if i < 20 {
        assert r[i] == Slice(mid, at + 16, 4)[i - 16];
      } else {
        assert l[i] == Slice(e, at + 20, 72)[i - 20] && r[i] == Slice(mid, at + 20, 72)[i - 20];
      }
    }
  }

  lemma LaterSpareHeaderCrc(n: nat, l: Lun, k: nat)
    requires DiskOk(n, l) && (k == 10 || k == 12)
    ensures var ps, at := DiskPatches(l), if k == 10 then SECTOR else (n - 1) * SECTOR;
      && At(ps[k - 1], n) == At(ps[k], n) == at + 16
      && (forall i :: k < i < |ps| ==> Spares(ps[i], n, at + 16, 4))
      && (forall i :: k <= i < |ps| ==> Spares(ps[i], n, at, 16) && Spares(ps[i], n, at + 20, 72))
  {}

  lemma ZeroBytes()
    ensures LittleEndian(0, 4) == [0, 0, 0, 0]
  {
    assert LittleEndian(0, 2) == [0, 0];
    assert LittleEndian(0, 4) == [0] + ([0] + LittleEndian(0, 2));
  }

  /** The header CRC written by patch `k` is that of the final header with its own field zeroed. */
  lemma HeaderCrcField(crc: Crc, disk: Image, n: nat, l: Lun, k: nat)
    requires |disk| == n * SECTOR && DiskOk(n, l) && (k == 10 || k == 12)
    ensures var at, e := if k == 10 then SECTOR else (n - 1) * SECTOR, Patched(crc, disk, n, l);
      && |e| == n * SECTOR
      && FieldOf(e, at + 16, 4) == crc(Put(Slice(e, at, HEADER_SIZE), 16, [0, 0, 0, 0]))
  {
    var ps := DiskPatches(l);
    var at := if k == 10 then SECTOR else (n - 1) * SECTOR;
    DiskPatchesFit(n, l);
    LaterSpareHeaderCrc(n, l, k);
    LastWriteStays(crc, disk, ps, n, k);
    SparedSince(crc, disk, ps, n, k, at, 16);
    SparedSince(crc, disk, ps, n, k, at + 20, 72);
    var mid := ApplyAll(crc, disk, ps[..k], n);
    LastWriteStays(crc, disk, ps[..k], n, k - 1);
    ZeroBytes();
    HeaderPieces(Patched(crc, disk, n, l), mid, at);
    FieldSizes();
    NumberOfLittleEndian(crc(Slice(mid, at, HEADER_SIZE)), 4);
  }

  // ---------------------------------------------------------------- the tables

  /** A header field between those that the patches write. */
  lemma UntouchedField(crc: Crc, disk: Image, n: nat, l: Lun, primary: bool, offset: nat, len: nat)
    requires |disk| == n * SECTOR && DiskOk(n, l)
    requires offset + len <= 16 || (20 <= offset && offset + len <= 24) || (40 <= offset && offset + len <= 48)
          || (56 <= offset && offset + len <= 72) || (80 <= offset && offset + len <= 88)
          || (primary && (offset == 24 || offset == 72) && len == 8) || (!primary && offset == 32 && len == 8)
    ensures var at, e := if primary then SECTOR else (n - 1) * SECTOR, Patched(crc, disk, n, l);
      |e| == n * SECTOR && Slice(e, at + offset, len) == Slice(disk, at + offset, len)
  {
    UntouchedSlice(crc, disk, n, l, (if primary then SECTOR else (n - 1) * SECTOR) + offset, len);
  }

  /** The rest of a header's block. */
  lemma UntouchedRest(crc: Crc, disk: Image, n: nat, l: Lun, primary: bool)
    requires |disk| == n * SECTOR && DiskOk(n, l)
    ensures var at, e := if primary then SECTOR else (n - 1) * SECTOR, Patched(crc, disk, n, l);
      && |e| == n * SECTOR
      && Slice(e, at + HEADER_SIZE, SECTOR - HEADER_SIZE) == Slice(disk, at + HEADER_SIZE, SECTOR - HEADER_SIZE)
  {
    var at := if primary then SECTOR else (n - 1) * SECTOR;
    UntouchedSlice(crc, disk, n, l, at + HEADER_SIZE, SECTOR - HEADER_SIZE);
  }

  lemma FixedFieldsCarryOver(disk: Image, at: nat, e: Image, to: nat, arrayBytes: nat)
    requires at + SECTOR <= |disk| && to + SECTOR <= |e| && FixedFields(disk, at, arrayBytes)
    requires Slice(e, to, 8) == Slice(disk, at, 8) && Slice(e, to + 8, 4) == Slice(disk, at + 8, 4)
    requires Slice(e, to + 12, 4) == Slice(disk, at + 12, 4) && Slice(e, to + 20, 4) == Slice(disk, at + 20, 4)
    requires Slice(e, to + 40, 8) == Slice(disk, at + 40, 8)
    requires Slice(e, to + 80, 4) == Slice(disk, at + 80, 4) && Slice(e, to + 84, 4) == Slice(disk, at + 84, 4)
    requires Slice(e, to + HEADER_SIZE, SECTOR - HEADER_SIZE) == Slice(disk, at + HEADER_SIZE, SECTOR - HEADER_SIZE)
    ensures FixedFields(e, to, arrayBytes)
  {}

  /** Header fields that are right before patching and that no patch writes. */
  lemma FixedFieldsStay(crc: Crc, disk: Image, n: nat, l: Lun, primary: bool)
    requires |disk| == n * SECTOR && DiskOk(n, l) && Prepared(disk, n, l)
    ensures var at, e := if primary then SECTOR else (n - 1) * SECTOR, Patched(crc, disk, n, l);
      |e| == n * SECTOR && FixedFields(e, at, l.arrayBytes)
  {
    var at := if primary then SECTOR else (n - 1) * SECTOR;
    UntouchedField(crc, disk, n, l, primary, 0, 8);
    UntouchedField(crc, disk, n, l, primary, 8, 4);
    UntouchedField(crc, disk, n, l, primary, 12, 4);
    UntouchedField(crc, disk, n, l, primary, 20, 4);
    UntouchedField(crc, disk, n, l, primary, 40, 8);
    UntouchedField(crc, disk, n, l, primary, 80, 4);
    UntouchedField(crc, disk, n, l, primary, 84, 4);
    UntouchedRest(crc, disk, n, l, primary);
    FixedFieldsCarryOver(disk, at, Patched(crc, disk, n, l), at, l.arrayBytes);
  }

  lemma PrimaryIsValid(crc: Crc, disk: Image, n: nat, l: Lun)
    requires |disk| == n * SECTOR && DiskOk(n, l) && Prepared(disk, n, l)
    ensures |Patched(crc, disk, n, l)| == n * SECTOR
    ensures ValidHeader(crc, Patched(crc, disk, n, l), n, 1, n - 1, 2, l.arrayBytes)
  {
    FixedFieldsStay(crc, disk, n, l, true);
    UntouchedField(crc, disk, n, l, true, 24, 8);
    UntouchedField(crc, disk, n, l, true, 72, 8);
    LbaField(crc, disk, n, l, 2, 6);
    LbaField(crc, disk, n, l, 4, 1);
    ArrayCrcField(crc, disk, n, l, 7);
    HeaderCrcField(crc, disk, n, l, 10);
  }

  lemma BackupIsValid(crc: Crc, disk: Image, n: nat, l: Lun)
    requires |disk| == n * SECTOR && DiskOk(n, l) && Prepared(disk, n, l)
    ensures |Patched(crc, disk, n, l)| == n * SECTOR
    ensures ValidHeader(crc, Patched(crc, disk, n, l), n, n - 1, 1, n - 5, l.arrayBytes)
  {
    FixedFieldsStay(crc, disk, n, l, false);
    UntouchedField(crc, disk, n, l, false, 32, 8);
    LbaField(crc, disk, n, l, 3, 6);
    LbaField(crc, disk, n, l, 5, 1);
    LbaField(crc, disk, n, l, 6, 5);
    ArrayCrcField(crc, disk, n, l, 8);
    HeaderCrcField(crc, disk, n, l, 12);
  }

  lemma ArrayEndsUntouched(crc: Crc, disk: Image, n: nat, l: Lun, k: nat)
    requires |disk| == n * SECTOR && DiskOk(n, l) && (k == 0 || k == 1)
    ensures var at, e := if k == 0 then 2 * SECTOR else (n - 5) * SECTOR, Patched(crc, disk, n, l);
      && |e| == n * SECTOR
      && Slice(e, at, l.endOffset) == Slice(disk, at, l.endOffset)
      && Slice(e, at + l.endOffset + 8, l.arrayBytes - l.endOffset - 8)
         == Slice(disk, at + l.endOffset + 8, l.arrayBytes - l.endOffset - 8)
  {
    var at, tail := if k == 0 then 2 * SECTOR else (n - 5) * SECTOR, l.endOffset + 8;
    UntouchedSlice(crc, disk, n, l, at, l.endOffset);
    UntouchedSlice(crc, disk, n, l, at + tail, l.arrayBytes - tail);
  }

  lemma EndingLbaBytes(crc: Crc, disk: Image, n: nat, l: Lun, k: nat)
    requires |disk| == n * SECTOR && DiskOk(n, l) && (k == 0 || k == 1)
    ensures var at, e := if k == 0 then 2 * SECTOR else (n - 5) * SECTOR, Patched(crc, disk, n, l);
      |e| == n * SECTOR && Slice(e, at + l.endOffset, 8) == LittleEndian(n - 6, 8)
  {
    DiskPatchesFit(n, l);
    LbaFieldSpared(n, l, k);
    LastWriteStays(crc, disk, DiskPatches(l), n, k);
  }

  /** One array after patching: the entries as they were, with the last partition ending at n - 6. */
  lemma ArrayAfter(crc: Crc, disk: Image, n: nat, l: Lun, k: nat)
    requires |disk| == n * SECTOR && DiskOk(n, l) && (k == 0 || k == 1)
    ensures var at, e := if k == 0 then 2 * SECTOR else (n - 5) * SECTOR, Patched(crc, disk, n, l);
      && |e| == n * SECTOR
      && Slice(e, at, l.arrayBytes) == Put(Slice(disk, at, l.arrayBytes), l.endOffset, LittleEndian(n - 6, 8))
  {
    var at := if k == 0 then 2 * SECTOR else (n - 5) * SECTOR;
    var e, bytes := Patched(crc, disk, n, l), LittleEndian(n - 6, 8);
    ArrayEndsUntouched(crc, disk, n, l, k);
    EndingLbaBytes(crc, disk, n, l, k);
    assert |bytes| == 8 && at + l.arrayBytes <= |e| == |disk|;
    ArrayPieces(e, disk, at, l, bytes);
  }

  lemma ArrayPieces(e: Image, disk: Image, at: nat, l: Lun, bytes: Image)
    requires |e| == |disk| && at + l.arrayBytes <= |e| && LunOk(l) && |bytes| == 8
    requires Slice(e, at, l.endOffset) == Slice(disk, at, l.endOffset)
    requires Slice(e, at + l.endOffset, 8) == bytes
    requires Slice(e, at + l.endOffset + 8, l.arrayBytes - l.endOffset - 8)
          == Slice(disk, at + l.endOffset + 8, l.arrayBytes - l.endOffset - 8)
    ensures Slice(e, at, l.arrayBytes) == Put(Slice(disk, at, l.arrayBytes), l.endOffset, bytes)
  {
    var x, y := Slice(e, at, l.arrayBytes), Put(Slice(disk, at, l.arrayBytes), l.endOffset, bytes);
    forall i | 0 <= i < l.arrayBytes
      ensures x[i] == y[i]
    {
      if i < l.endOffset {
        assert x[i] == Slice(e, at, l.endOffset)[i] == Slice(disk, at, l.endOffset)[i];
      } else if i < l.endOffset + 8 {
        assert x[i] == Slice(e, at + l.endOffset, 8)[i - l.endOffset];
      } else {
        var tail := l.endOffset + 8;
        assert x[i] == Slice(e, at + tail, l.arrayBytes - tail)[i - tail];
        assert y[i] == Slice(disk, at + tail, l.arrayBytes - tail)[i - tail];
      }
    }
  }

  /** The main result: for every LUN, every disk of at least 11 sectors and every CRC function, the disk
      patches in file order leave a valid primary header at block 1 and a valid backup header at the last
      block, each naming the other; equal partition arrays; and a last partition that ends at block n - 6. */
  lemma PatchedTablesAreValid(crc: Crc, disk: Image, n: nat, l: Lun)
    requires |disk| == n * SECTOR && DiskOk(n, l) && Prepared(disk, n, l)
    ensures var e := Patched(crc, disk, n, l);
      && |e| == n * SECTOR
      && ValidTables(crc, e, n, l.arrayBytes)
      && FieldOf(e, 2 * SECTOR + l.endOffset, 8) == n - 6
  {
    PrimaryIsValid(crc, disk, n, l);
    BackupIsValid(crc, disk, n, l);
    ArrayAfter(crc, disk, n, l, 0);
    ArrayAfter(crc, disk, n, l, 1);
    UntouchedField(crc, disk, n, l, true, 56, 16);
    UntouchedField(crc, disk, n, l, false, 56, 16);
    LbaField(crc, disk, n, l, 0, 6);
  }

  /** The last partition is a proper range exactly when the disk reaches 6 blocks past its start; the usable
      range is not empty exactly from 12 sectors on. */
  lemma LastPartitionIsProperIffDiskReachesIt(crc: Crc, disk: Image, n: nat, l: Lun)
    requires |disk| == n * SECTOR && DiskOk(n, l) && Prepared(disk, n, l)
    ensures var e := Patched(crc, disk, n, l);
      var entry := 2 * SECTOR + l.endOffset - 8;
      && |e| == n * SECTOR
      && FieldOf(e, entry, 8) == FieldOf(disk, entry, 8)
      && (FieldOf(e, entry, 8) <= FieldOf(e, entry + 8, 8) <==> n >= FieldOf(disk, entry, 8) + 6)
      && (FieldOf(e, SECTOR + 40, 8) <= FieldOf(e, SECTOR + 48, 8) <==> n >= 12)
  {
    PatchedTablesAreValid(crc, disk, n, l);
    UntouchedSlice(crc, disk, n, l, 2 * SECTOR + l.endOffset - 8, 8);
  }
}

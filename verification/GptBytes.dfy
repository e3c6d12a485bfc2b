/** Byte images: slices, in-place writes and little-endian fields. */
module GptBytes {

  type Byte = b: int | 0 <= b < 256
  type Image = seq<Byte>

  function Slice(img: Image, at: nat, len: nat): Image
    requires at + len <= |img|
  {
    img[at..at + len]
  }

  /** `img` with `bytes` written at `at`. */
  function Put(img: Image, at: nat, bytes: Image): (r: Image)
    requires at + |bytes| <= |img|
    ensures |r| == |img|
  {
    img[..at] + bytes + img[at + |bytes|..]
  }

  predicate Disjoint(at: int, len: int, other: int, otherLen: int) {
    at + len <= other || other + otherLen <= at
  }

  lemma PutThere(img: Image, at: nat, bytes: Image)
    requires at + |bytes| <= |img|
    ensures Slice(Put(img, at, bytes), at, |bytes|) == bytes
  {}

  lemma PutElsewhere(img: Image, at: nat, bytes: Image, other: nat, len: nat)
    requires at + |bytes| <= |img| && other + len <= |img| && Disjoint(at, |bytes|, other, len)
    ensures Slice(Put(img, at, bytes), other, len) == Slice(img, other, len)
  {}

  lemma PutsCommute(img: Image, at: nat, bytes: Image, other: nat, more: Image)
    requires at + |bytes| <= |img| && other + |more| <= |img| && Disjoint(at, |bytes|, other, |more|)
    ensures Put(Put(img, at, bytes), other, more) == Put(Put(img, other, more), at, bytes)
  {}

  /** Writing into a block and then placing the block is placing the block and then writing. */
  lemma PutNested(img: Image, at: nat, block: Image, inner: nat, bytes: Image)
    requires at + |block| <= |img| && inner + |bytes| <= |block|
    ensures Put(img, at, Put(block, inner, bytes)) == Put(Put(img, at, block), at + inner, bytes)
  {
    var l, r := Put(img, at, Put(block, inner, bytes)), Put(Put(img, at, block), at + inner, bytes);
    assert |l| == |r|;
    forall i | 0 <= i < |l|
      ensures l[i] == r[i]
    {}
  }

  // ---------------------------------------------------------------- little-endian numbers

  function Pow256(n: nat): nat {
    if n == 0 then 1 else 256 * Pow256(n - 1)
  }

  /** The low `size` bytes of `value`, lowest first. */
  function LittleEndian(value: nat, size: nat): (r: Image)
    ensures |r| == size
  {
    if size == 0 then [] else [value % 256] + LittleEndian(value / 256, size - 1)
  }

  function Number(bytes: Image): nat {
    if bytes == [] then 0 else bytes[0] + 256 * Number(bytes[1..])
  }

  /** Reading back a number that fits gives the number. */
  lemma {:induction false} NumberOfLittleEndian(value: nat, size: nat)
    requires value < Pow256(size)
    ensures Number(LittleEndian(value, size)) == value
    decreases size
  {
    if size > 0 {
      NumberOfLittleEndian(value / 256, size - 1);
      assert LittleEndian(value, size)[1..] == LittleEndian(value / 256, size - 1);
    }
  }

  lemma FieldSizes()
    ensures Pow256(4) == 0x1_0000_0000 && Pow256(8) == 0x1_0000_0000_0000_0000
  {
    assert Pow256(2) == 65536;
    assert Pow256(4) == 256 * (256 * Pow256(2));
    assert Pow256(6) == 256 * (256 * Pow256(4));
    assert Pow256(8) == 256 * (256 * Pow256(6));
  }

  /** The unsigned little-endian field of `size` bytes at `at`. */
  function FieldOf(img: Image, at: nat, size: nat): nat
    requires at + size <= |img|
  {
    Number(Slice(img, at, size))
  }
}

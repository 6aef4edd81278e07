/**
 Size classes of the memory pool (include/memory/Common.h) and the batch and
 span sizes derived from them.

 A `size_t` is modelled by a natural number; the places where it can wrap are
 written out with `WORD`.
 */
module SizeClasses {

  const ALIGNMENT: nat := 8
  const MAX_BYTES: nat := 256 * 1024
  const FREE_LIST_SIZE: nat := 32768
  const PAGE_SIZE: nat := 4096
  const SPAN_PAGES: nat := 8
  const MAX_BATCH_SIZE: nat := 4096
  /** `sizeof(1)`, that is `sizeof(int)` on the target. */
  const SIZE_OF_ONE: nat := 4
  /** Number of values of a `size_t`. */
  const WORD: nat := 0x1_0000_0000_0000_0000
  /** End of the user part of the address space, from which `mmap` serves. */
  const ADDRESS_LIMIT: nat := 0x8000_0000_0000

  function Max(a: nat, b: nat): nat { if a < b then b else a }

  function Min(a: nat, b: nat): nat { if a < b then a else b }

  function RoundUp(bytes: nat): nat {
    (bytes + ALIGNMENT - 1) - (bytes + ALIGNMENT - 1) % ALIGNMENT
  }

  function GetIndex(bytes: nat): nat {
    (Max(bytes, ALIGNMENT) + ALIGNMENT - 1) / ALIGNMENT - 1
  }

  /** Size of the blocks of class `index`. */
  function Bytes(index: nat): nat { (index + 1) * ALIGNMENT }

  /** A request falls in the smallest class whose blocks can hold it. */
  lemma RequestFitsItsClass(size: nat)
    requires 1 <= size <= MAX_BYTES
    ensures GetIndex(size) < FREE_LIST_SIZE
    ensures RoundUp(size) == Bytes(GetIndex(size))
    ensures size <= Bytes(GetIndex(size)) < size + ALIGNMENT
    ensures forall j: nat :: size <= Bytes(j) ==> GetIndex(size) <= j
  {
  }

  /** Size 0 is rounded to 0, although its class is that of the smallest blocks. */
  lemma ZeroIsRoundedToZero()
    ensures RoundUp(0) == 0 && GetIndex(0) == 0 && Bytes(0) == ALIGNMENT
  {
  }

  /** Number of blocks asked of the central cache at once. */
  function BatchNum(index: nat): nat {
    var size := Bytes(index);
    var baseNum :=
      if size <= 32 then 64 else if size <= 64 then 32 else if size <= 128 then 16
      else if size <= 256 then 8 else if size <= 512 then 4 else if size <= 1024 then 2 else 1;
    Max(SIZE_OF_ONE, Min(Max(1, MAX_BATCH_SIZE / size), baseNum))
  }

  lemma BatchNumRange(index: nat)
    ensures SIZE_OF_ONE <= BatchNum(index) <= 64
  {
  }

  /** The batch is a power of two: 64 blocks up to 32 bytes, then the most that take up
      2 KB, but never fewer than 4. */
  lemma BatchNumIs(index: nat)
    ensures BatchNum(index) in {4, 8, 16, 32, 64}
    ensures BatchNum(index) == 64 <==> Bytes(index) <= 32
    ensures BatchNum(index) < 64 ==> 2 * BatchNum(index) * Bytes(index) > 2048
    ensures BatchNum(index) > 4 ==> BatchNum(index) * Bytes(index) <= 2048
  {
    var z := Bytes(index);
    if z <= 32 {
      FourKilobytesHold(z, 64);
    } else if z <= 64 {
      FourKilobytesHold(z, 32);
    } else if z <= 128 {
      FourKilobytesHold(z, 16);
    } else if z <= 256 {
      FourKilobytesHold(z, 8);
    }
  }

  lemma FourKilobytesHold(z: nat, k: nat)
    requires z > 0 && k * z <= 4096
    ensures MAX_BATCH_SIZE / z >= k
  {
    var d := MAX_BATCH_SIZE / z;
    assert 4096 == d * z + 4096 % z;
    if d < k {
      Times(d + 1, k, z);
      assert false;
    }
  }

  lemma Times(a: nat, b: nat, z: nat)
    requires a <= b
    ensures a * z <= b * z
  {
  }

  /** Pages of a span carved into blocks of class `index`. */
  function SpanPages(index: nat): nat {
    if Bytes(index) <= SPAN_PAGES * PAGE_SIZE then SPAN_PAGES
    else (Bytes(index) + PAGE_SIZE - 1) / PAGE_SIZE
  }

  /** The block count that the carving code computes; 0 for blocks above 32 KB. */
  function TotalBlocks(index: nat): nat {
    (SPAN_PAGES * PAGE_SIZE) / Bytes(index)
  }

  /** The blocks a span really yields: one when the computed count is 0. */
  function CarvedBlocks(index: nat): nat { Max(TotalBlocks(index), 1) }

  lemma CarvedBlocksFitTheSpan(index: nat)
    ensures CarvedBlocks(index) * Bytes(index) <= SpanPages(index) * PAGE_SIZE
  {
  }

  /** Small blocks fill a span of 32 KB, with less than a block to spare; a larger block
      gets a span of its own, with less than a page to spare. */
  lemma SpanIsUsedUp(index: nat)
    ensures Bytes(index) <= 32768 ==>
              SpanPages(index) * 4096 == 32768 && CarvedBlocks(index) * Bytes(index) + Bytes(index) > 32768
    ensures Bytes(index) > 32768 ==>
              CarvedBlocks(index) == 1 && SpanPages(index) * 4096 < Bytes(index) + 4096
  {
    var z := Bytes(index);
    assert 32768 == 32768 / z * z + 32768 % z;
  }
}

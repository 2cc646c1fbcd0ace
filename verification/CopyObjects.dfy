/** backend/asset/copy-objects.go: byte ranges of the multipart copy. */
module MultipartCopy {
  /** Two gigabytes. */
  const MAX_PART_SIZE: int := 0x8000_0000

  /** Part `number` copies the bytes first..last, both included. */
  datatype Part = Part(number: int, first: int, last: int)

  datatype CopyResult = Completed(parts: seq<Part>) | Aborted(partNumber: int)

  /** The last byte of the range "bytes=start-end". */
  function RangeEnd(start: int, objectSize: int): int {
    var end := start + MAX_PART_SIZE - 1;
    if end > objectSize then objectSize - 1 else end
  }

  /** ceil(size / MAX_PART_SIZE). */
  function PartCount(size: nat): nat { (size + MAX_PART_SIZE - 1) / MAX_PART_SIZE }

  function PartAt(i: nat, size: nat): Part {
    Part(i + 1, i * MAX_PART_SIZE, RangeEnd(i * MAX_PART_SIZE, size))
  }

  /** As many parts as the object needs and no more, numbered from 1; none for an empty object. */
  function PartsOf(size: nat): (parts: seq<Part>)
    ensures (|parts| - 1) * MAX_PART_SIZE < size <= |parts| * MAX_PART_SIZE || (size == 0 && parts == [])
    ensures forall i :: 0 <= i < |parts| ==> parts[i].number == i + 1 && parts[i].first == i * MAX_PART_SIZE
  {
    seq(PartCount(size), i requires 0 <= i => PartAt(i, size))
  }

  /** The part loop. `uploads` tells which parts upload without an error; the first that does not
      aborts the copy. */
  method MultiPartCopy(fileSize: nat, uploads: int -> bool) returns (result: CopyResult)
    ensures result.Completed? ==> result.parts == PartsOf(fileSize)
    ensures result.Completed? <==> forall n :: 1 <= n <= PartCount(fileSize) ==> uploads(n)
    ensures result.Aborted? ==>
      && 1 <= result.partNumber <= PartCount(fileSize) && !uploads(result.partNumber)
      && forall n :: 1 <= n < result.partNumber ==> uploads(n)
  {
    var i := 0;
    var partNumber := 1;
    var parts: seq<Part> := [];
    while i < fileSize
      invariant i == |parts| * MAX_PART_SIZE && partNumber == |parts| + 1
      invariant |parts| <= PartCount(fileSize) && parts == PartsOf(fileSize)[..|parts|]
      invariant forall n :: 1 <= n < partNumber ==> uploads(n)
    {
      if !uploads(partNumber) {
        return Aborted(partNumber);
      }
      parts := parts + [Part(partNumber, i, RangeEnd(i, fileSize))];
      i := i + MAX_PART_SIZE;
      partNumber := partNumber + 1;
    }
    return Completed(parts);
  }

  predicate InPart(p: Part, byte: int) { p.first <= byte <= p.last }

  ghost predicate Covered(parts: seq<Part>, byte: int) {
    exists i :: 0 <= i < |parts| && InPart(parts[i], byte)
  }

  /** Every byte of the object is in a part, no byte is in two, and no part reaches outside. */
  ghost predicate CoversExactly(parts: seq<Part>, size: nat) {
    && (forall b :: 0 <= b < size ==> Covered(parts, b))
    && (forall i, j, b :: 0 <= i < j < |parts| && InPart(parts[i], b) ==> !InPart(parts[j], b))
    && (forall i, b :: 0 <= i < |parts| && InPart(parts[i], b) ==> 0 <= b < size)
  }

  lemma PartEnd(size: nat, i: nat)
    requires i < PartCount(size)
    ensures i * MAX_PART_SIZE <= PartAt(i, size).last < (i + 1) * MAX_PART_SIZE
    ensures PartAt(i, size).last >= size ==> size % MAX_PART_SIZE == MAX_PART_SIZE - 1
  {
  }

  /** The parts are contiguous and cover exactly [0, size) unless the last one is one byte short of a
      full part: `end > objectSize` then leaves a range that ends one byte behind the object. */
  lemma CoversExactlyIff(size: nat)
    ensures CoversExactly(PartsOf(size), size) <==> size % MAX_PART_SIZE != MAX_PART_SIZE - 1
    ensures forall i :: 0 <= i < PartCount(size) - 1 ==> PartsOf(size)[i + 1].first == PartsOf(size)[i].last + 1
  {
    var parts := PartsOf(size);
    forall b | 0 <= b < size ensures Covered(parts, b) {
      assert InPart(parts[b / MAX_PART_SIZE], b);
    }
    forall i | 0 <= i < |parts|
      ensures i * MAX_PART_SIZE <= parts[i].last < (i + 1) * MAX_PART_SIZE
      ensures parts[i].last >= size ==> size % MAX_PART_SIZE == MAX_PART_SIZE - 1
    {
      PartEnd(size, i);
    }
    if size % MAX_PART_SIZE == MAX_PART_SIZE - 1 {
      assert InPart(parts[|parts| - 1], size);
    }
  }

  /** 2^31 - 1 bytes are copied with the range 0 to 2^31 - 1, which names one byte too many. */
  lemma OneByteTooMany()
    ensures PartsOf(0x7FFF_FFFF) == [Part(1, 0, 0x7FFF_FFFF)]
    ensures !CoversExactly(PartsOf(0x7FFF_FFFF), 0x7FFF_FFFF)
  {
    CoversExactlyIff(0x7FFF_FFFF);
  }
}

/** The block sizes of the frame allocator. */
module FrameSizes {

  const NBUCKETS: nat := 6
  const MAX_SIZE: nat := 2048

  function SizeOf(bucket: nat): (s: nat)
    requires bucket < NBUCKETS
    ensures 64 <= s <= MAX_SIZE
  {
    [64, 128, 256, 512, 1024, 2048][bucket]
  }

  /** The smallest bucket that fits. */
  method BucketOfSize(size: nat) returns (bucket: nat)
    requires size <= MAX_SIZE
    ensures bucket < NBUCKETS && size <= SizeOf(bucket)
    ensures forall j | 0 <= j < bucket :: SizeOf(j) < size
    ensures bucket == BucketFor(size)
  {
    bucket := 0;
    while size > SizeOf(bucket)
      invariant bucket < NBUCKETS && forall j | 0 <= j < bucket :: SizeOf(j) < size
      decreases NBUCKETS - bucket
    {
      assert size > SizeOf(bucket) ==> bucket < NBUCKETS - 1;
      bucket := bucket + 1;
    }
    SmallestFitsIsBucket(size, bucket);
  }

  function BucketFor(size: nat): (b: nat)
    requires size <= MAX_SIZE
    ensures b < NBUCKETS
  {
    if size <= 64 then 0 else if size <= 128 then 1 else if size <= 256 then 2
    else if size <= 512 then 3 else if size <= 1024 then 4 else 5
  }

  lemma SmallestFitsIsBucket(size: nat, b: nat)
    requires size <= MAX_SIZE && b < NBUCKETS && size <= SizeOf(b)
    requires forall j | 0 <= j < b :: SizeOf(j) < size
    ensures b == BucketFor(size)
  {
    assert forall j | 0 <= j < BucketFor(size) :: SizeOf(j) < size;
    assert size <= SizeOf(BucketFor(size));
  }

  /** Sizes above the largest bucket are left alone. */
  function RoundUp(size: nat): (r: nat)
    ensures r >= size
    ensures size <= MAX_SIZE ==> exists b :: 0 <= b < NBUCKETS && r == SizeOf(b)
  {
    if size > MAX_SIZE then size else SizeOf(BucketFor(size))
  }
}

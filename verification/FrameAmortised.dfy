/** The cost of keeping one worker's free list of one bucket short. */
module FrameAmortised {
  import opened Basics
  import opened FrameSizes

  const BATCH_SIZE: nat := 8000
  const POTENTIAL_LIMIT: nat := 4 * BATCH_SIZE

  /** A free list and its potential: `batch` of its blocks, at the far end, are
      what is left of the last batch; fetched, frees and walked are totals. */
  datatype Cache = Cache(length: nat, potential: nat, batch: nat, fetched: nat, frees: nat, walked: nat)

  const FRESH := Cache(0, 0, 0, 0, 0, 0)

  /** The blocks of one batch: fetched until the batch size is reached. */
  function BatchCount(size: nat): nat
    requires size > 0
  {
    (BATCH_SIZE + size - 1) / size
  }

  /** How many blocks the collector passes over and keeps, from the m-th on. */
  function Passed(length: nat, potential: nat, size: nat, m: nat): (r: nat)
    requires size > 0 && m <= length
    ensures m <= r <= length
    ensures r == length || 2 * (r * size) >= potential
    decreases length - m
  {
    if m < length && 2 * (m * size) < potential then Passed(length, potential, size, m + 1) else m
  }

  function AfterAlloc(c: Cache, size: nat): Cache
    requires size > 0
  {
    if c.length > 0 then c.(length := c.length - 1, batch := Min(c.batch, c.length - 1))
    else
      var b := BatchCount(size);
      if b == 0 then c
      else c.(length := b - 1, potential := c.potential + b * size, batch := b - 1, fetched := c.fetched + b)
  }

  /** The block after the ones passed over stays too; the rest goes back. */
  function Collected(c: Cache, size: nat): Cache
    requires size > 0
  {
    var m := Passed(c.length, c.potential, size, 0);
    var rest := if m < c.length then c.length - m - 1 else 0;
    c.(length := c.length - rest, potential := m * size, batch := if c.batch <= rest then 0 else c.batch - rest,
       walked := c.walked + m + rest)
  }

  function AfterFree(c: Cache, size: nat): Cache
    requires size > 0
  {
    var f := c.(length := c.length + 1, potential := c.potential + size, frees := c.frees + 1);
    if f.potential > POTENTIAL_LIMIT then Collected(f, size) else f
  }

  // ------------------------------------------------------------- the argument

  /** The list in credits: two for a freed block, none for one from a batch, but
      no more than one a block. */
  function Credits(c: Cache): int {
    Min(2 * (c.length - c.batch), c.length)
  }

  ghost predicate Paid(c: Cache, size: nat, units: nat)
    requires size > 0
  {
    && c.potential == units * size && c.length <= units + 1
    && c.batch <= c.length && c.batch < BatchCount(size)
    && c.walked + units + Credits(c) <= c.fetched + 3 * c.frees
  }

  lemma {:induction false} PassedInUnits(length: nat, units: nat, size: nat, m: nat)
    requires size > 0 && m <= length && 2 * m <= units + 1
    ensures var r := Passed(length, units * size, size, m);
            && 2 * r <= units + 1 && (r == length || 2 * r >= units)
    decreases length - m
  {
    if 2 * m < units {
      ProductGrows(2 * m, units, size);
      assert 2 * (m * size) == (2 * m) * size;
      if m < length {
        PassedInUnits(length, units, size, m + 1);
      }
    } else {
      ProductMonotone(units, 2 * m, size);
      assert 2 * (m * size) == (2 * m) * size;
    }
  }

  /** A collection keeps one block more than half the potential is worth, gives the rest
      back, and walks over all blocks but one, or all if none is given back. */
  lemma CollectionKeepsHalf(c: Cache, size: nat, units: nat)
    requires size > 0 && c.potential == units * size
    ensures var half, c' := (units + 1) / 2, Collected(c, size);
            && c'.length == Min(c.length, half + 1) && c'.potential == Min(c.length, half) * size
            && c'.walked == c.walked + if half < c.length then c.length - 1 else c.length
  {
    PassedInUnits(c.length, units, size, 0);
  }

  lemma ProductGrows(a: int, b: int, size: nat)
    requires a < b && size > 0
    ensures a * size < b * size
  {
    assert b * size == a * size + (b - a) * size;
    assert (b - a) * size == size + (b - a - 1) * size;
  }

  lemma ProductMonotone(a: int, b: int, size: nat)
    requires a <= b
    ensures a * size <= b * size
  {
    assert b * size == a * size + (b - a) * size;
  }

  /** Half a potential over the limit is worth about two batches. */
  lemma LimitIsLarge(bucket: nat, units: nat, m: nat)
    requires bucket < NBUCKETS && units * SizeOf(bucket) > POTENTIAL_LIMIT && 2 * m >= units
    ensures m + 1 >= 2 * BatchCount(SizeOf(bucket))
  {
    match bucket {
      case 0 => assert units * 64 > 32000;
      case 1 => assert units * 128 > 32000;
      case 2 => assert units * 256 > 32000;
      case 3 => assert units * 512 > 32000;
      case 4 => assert units * 1024 > 32000;
      case 5 => assert units * 2048 > 32000;
    }
  }

  lemma CollectionIsPaid(c: Cache, bucket: nat, units: nat)
    requires bucket < NBUCKETS && c.potential == units * SizeOf(bucket) && c.potential > POTENTIAL_LIMIT
    requires 1 <= c.length <= units + 1 && c.batch <= c.length - 1 && c.batch < BatchCount(SizeOf(bucket))
    requires c.frees > 0
    requires c.walked + units - 1 + Credits(c.(length := c.length - 1)) <= c.fetched + 3 * (c.frees - 1)
    ensures var m := Passed(c.length, c.potential, SizeOf(bucket), 0);
            Paid(Collected(c, SizeOf(bucket)), SizeOf(bucket), m)
  {
    var size := SizeOf(bucket);
    PassedInUnits(c.length, units, size, 0);
    var m := Passed(c.length, c.potential, size, 0);
    if 2 * m >= units {
      LimitIsLarge(bucket, units, m);
    }
    assert Credits(Collected(c, size)) <= Min(c.length, m + 1);
  }

  lemma FreeIsPaid(c: Cache, bucket: nat, units: nat) returns (units': nat)
    requires bucket < NBUCKETS && Paid(c, SizeOf(bucket), units)
    ensures Paid(AfterFree(c, SizeOf(bucket)), SizeOf(bucket), units')
  {
    var size := SizeOf(bucket);
    var f := c.(length := c.length + 1, potential := c.potential + size, frees := c.frees + 1);
    assert f.potential == (units + 1) * size;
    if f.potential > POTENTIAL_LIMIT {
      assert f.(length := c.length).length == c.length && Credits(f.(length := c.length)) == Credits(c);
      CollectionIsPaid(f, bucket, units + 1);
      units' := Passed(f.length, f.potential, size, 0);
    } else {
      units' := units + 1;
    }
  }

  lemma AllocIsPaid(c: Cache, bucket: nat, units: nat) returns (units': nat)
    requires bucket < NBUCKETS && Paid(c, SizeOf(bucket), units)
    ensures Paid(AfterAlloc(c, SizeOf(bucket)), SizeOf(bucket), units')
  {
    var size := SizeOf(bucket);
    if c.length > 0 {
      units' := units;
    } else {
      units' := units + BatchCount(size);
      assert units' * size == units * size + BatchCount(size) * size;
    }
  }

  datatype Op = Alloc | Free

  function Run(ops: seq<Op>, size: nat): Cache
    requires size > 0
  {
    if |ops| == 0 then FRESH
    else
      var c := Run(ops[..|ops| - 1], size);
      if ops[|ops| - 1].Alloc? then AfterAlloc(c, size) else AfterFree(c, size)
  }

  lemma {:induction false} RunIsPaid(ops: seq<Op>, bucket: nat) returns (units: nat)
    requires bucket < NBUCKETS
    ensures Paid(Run(ops, SizeOf(bucket)), SizeOf(bucket), units)
  {
    if |ops| == 0 {
      units := 0;
      assert BatchCount(SizeOf(bucket)) >= 1;
    } else {
      var before := RunIsPaid(ops[..|ops| - 1], bucket);
      var c := Run(ops[..|ops| - 1], SizeOf(bucket));
      if ops[|ops| - 1].Alloc? {
        units := AllocIsPaid(c, bucket, before);
      } else {
        units := FreeIsPaid(c, bucket, before);
      }
    }
  }

  /** Whatever a worker allocates and frees, all list walking of the collector
      together takes at most one step per block fetched in batches and three
      per block freed. */
  lemma CollectionIsAmortised(ops: seq<Op>, bucket: nat)
    requires bucket < NBUCKETS
    ensures var c := Run(ops, SizeOf(bucket)); c.walked <= c.fetched + 3 * c.frees
  {
    var units := RunIsPaid(ops, bucket);
  }
}

/** The hash table from reducers to views. A bucket is an array of elements that
    ends in an element with key 0, which is never filled. */
module ReducerTable {
  import opened FrameSizes

  /** The address of a leftmost view; 0 is no key. */
  datatype Key = Key(addr: bv64)

  const NO_KEY := Key(0)

  /** hb and view stand for addresses; view 0 is no view. */
  datatype Elem = Elem(key: Key, hb: nat, view: nat)

  datatype Entry = Entry(hb: nat, view: nat)

  const EMPTY_ELEM := Elem(NO_KEY, 0, 0)

  type Bucket = seq<Elem>

  function Mix(addr: bv64): bv64 {
    var k := addr ^ (addr >> 21);
    var k := k ^ (k >> 8);
    k ^ (k >> 3)
  }

  /** Masking with n - 1 is the remainder, n being a power of two. */
  function Hash(key: Key, n: nat): (h: nat)
    requires n > 0
    ensures h < n
  {
    Mix(key.addr) as nat % n
  }

  predicate IsPowerOfTwo(n: nat) {
    n == 1 || (n > 1 && n % 2 == 0 && IsPowerOfTwo(n / 2))
  }

  lemma DoubledIsPower(n: nat)
    requires IsPowerOfTwo(n)
    ensures IsPowerOfTwo(2 * n)
  {
    assert 2 * n % 2 == 0 && 2 * n / 2 == n;
  }

  function MinSz(nelem: nat): nat { 1 + nelem + nelem / 8 }

  const BUCKET_HEADER: nat := 32
  const ELEM_SIZE: nat := 24

  function SizeofBucket(nmax: nat): nat { BUCKET_HEADER + nmax * ELEM_SIZE }

  /** As many elements as fill an allocator block completely. */
  function RoundUpElems(nmax: nat): (r: nat)
    ensures r >= nmax && r >= 1
  {
    var sz := RoundUp(SizeofBucket(nmax));
    (sz - BUCKET_HEADER) / ELEM_SIZE
  }

  // ------------------------------------------------------------------- one bucket

  /** The elements before the first with key 0. */
  function Len(b: Bucket): (n: nat)
    ensures n <= |b| && (n < |b| ==> b[n].key == NO_KEY)
    ensures forall i | 0 <= i < n :: b[i].key != NO_KEY
  {
    if |b| == 0 || b[0].key == NO_KEY then 0 else 1 + Len(b[1..])
  }

  /** No bucket at all, or one that is packed and properly terminated. */
  predicate BucketOk(b: Bucket) {
    b == [] || (|b| >= 2 && Len(b) < |b| && forall i | Len(b) <= i < |b| :: b[i].key == NO_KEY)
  }

  predicate HasKey(b: Bucket, key: Key) {
    exists j | 0 <= j < Len(b) :: b[j].key == key
  }

  lemma LenIs(b: Bucket, n: nat)
    requires n < |b| && b[n].key == NO_KEY && forall i | 0 <= i < n :: b[i].key != NO_KEY
    ensures Len(b) == n
  {
    if Len(b) < n {
      assert false;
    }
  }

  // -------------------------------------------------------------------- the table

  predicate EntryOk(t: seq<Bucket>, m: map<Key, Entry>, i: nat, j: nat)
    requires i < |t| && j < |t[i]|
  {
    var e := t[i][j];
    && e.key != NO_KEY && Hash(e.key, |t|) == i
    && e.key in m && m[e.key] == Entry(e.hb, e.view)
    && forall l | 0 <= l < j :: t[i][l].key != e.key
  }

  /** The table holds exactly the entries of m, each once, in its own bucket. */
  ghost predicate TableOk(t: seq<Bucket>, m: map<Key, Entry>) {
    && |t| > 0
    && (forall i | 0 <= i < |t| :: BucketOk(t[i]))
    && (forall i: nat, j: nat | i < |t| && j < Len(t[i]) :: EntryOk(t, m, i, j))
    && (forall k | k in m :: HasKey(t[Hash(k, |t|)], k))
  }

  lemma EmptyTable(n: nat, t: seq<Bucket>)
    requires n > 0 && |t| == n && forall i | 0 <= i < n :: t[i] == []
    ensures TableOk(t, map[])
  {
  }

  /** b with one more element at its end, in an array that is as long or longer. */
  predicate Appended(b: Bucket, b': Bucket, e: Elem) {
    BucketOk(b') && Len(b') == Len(b) + 1 && b'[..Len(b)] == b[..Len(b)] && b'[Len(b)] == e
  }

  lemma AppendedEntry(t: seq<Bucket>, m: map<Key, Entry>, b: Bucket, e: Elem, j: nat)
    requires TableOk(t, m) && e.key != NO_KEY && e.key !in m
    requires Appended(t[Hash(e.key, |t|)], b, e) && j < Len(b)
    ensures EntryOk(t[Hash(e.key, |t|) := b], m[e.key := Entry(e.hb, e.view)], Hash(e.key, |t|), j)
  {
    var h := Hash(e.key, |t|);
    var n := Len(t[h]);
    assert forall l | 0 <= l < n :: b[l] == b[..n][l] == t[h][l];
    forall l: nat | l < n ensures b[l].key != e.key {
      assert EntryOk(t, m, h, l);
    }
    if j < n {
      assert EntryOk(t, m, h, j);
    }
  }

  lemma InsertKeepsTable(t: seq<Bucket>, m: map<Key, Entry>, b: Bucket, e: Elem)
    requires TableOk(t, m) && e.key != NO_KEY && e.key !in m
    requires Appended(t[Hash(e.key, |t|)], b, e)
    ensures TableOk(t[Hash(e.key, |t|) := b], m[e.key := Entry(e.hb, e.view)])
  {
    var h := Hash(e.key, |t|);
    var t', m' := t[h := b], m[e.key := Entry(e.hb, e.view)];
    forall i: nat, j: nat | i < |t'| && j < Len(t'[i]) ensures EntryOk(t', m', i, j) {
      if i != h {
        assert EntryOk(t, m, i, j) && t'[i] == t[i];
        assert t[i][j].key != e.key;
      } else {
        AppendedEntry(t, m, b, e, j);
      }
    }
    forall k | k in m' ensures HasKey(t'[Hash(k, |t|)], k) {
      if k == e.key {
        assert b[Len(t[h])].key == k;
      } else {
        assert HasKey(t[Hash(k, |t|)], k);
        if Hash(k, |t|) == h {
          var j :| 0 <= j < Len(t[h]) && t[h][j].key == k;
          assert b[j] == b[..Len(t[h])][j];
        }
      }
    }
  }

  /** Where a key is, if it is in the table at all. */
  lemma KeyIsThere(t: seq<Bucket>, m: map<Key, Entry>, key: Key)
    requires TableOk(t, m)
    ensures key in m <==> HasKey(t[Hash(key, |t|)], key)
  {
    var h := Hash(key, |t|);
    if HasKey(t[h], key) {
      var j :| 0 <= j < Len(t[h]) && t[h][j].key == key;
      assert EntryOk(t, m, h, j);
    }
  }

  /** b without the element at p, the elements after it moved down. */
  predicate Removed(b: Bucket, b': Bucket, p: nat) {
    && p < Len(b) && |b'| == |b| && BucketOk(b') && Len(b') == Len(b) - 1
    && forall j | 0 <= j < Len(b') :: b'[j] == b[if j < p then j else j + 1]
  }

  lemma RemoveKeepsTable(t: seq<Bucket>, m: map<Key, Entry>, h: nat, b: Bucket, p: nat)
    requires TableOk(t, m) && h < |t| && Removed(t[h], b, p)
    ensures TableOk(t[h := b], m - {t[h][p].key})
  {
    var key := t[h][p].key;
    var t', m' := t[h := b], m - {key};
    assert EntryOk(t, m, h, p);
    forall i: nat, j: nat | i < |t'| && j < Len(t'[i]) ensures EntryOk(t', m', i, j) {
      if i != h {
        assert EntryOk(t, m, i, j) && t'[i] == t[i];
        assert t[i][j].key != key;
      } else {
        RemovedEntry(t, m, h, b, p, j);
      }
    }
    forall k | k in m' ensures HasKey(t'[Hash(k, |t|)], k) {
      assert HasKey(t[Hash(k, |t|)], k);
      if Hash(k, |t|) == h { OthersAreLeft(t[h], b, p, k); }
    }
  }

  lemma OthersAreLeft(b: Bucket, b': Bucket, p: nat, k: Key)
    requires Removed(b, b', p) && HasKey(b, k) && k != b[p].key
    ensures HasKey(b', k)
  {
    var j :| 0 <= j < Len(b) && b[j].key == k;
    assert b'[if j < p then j else j - 1].key == k;
  }

  lemma RemovedEntry(t: seq<Bucket>, m: map<Key, Entry>, h: nat, b: Bucket, p: nat, j: nat)
    requires TableOk(t, m) && h < |t| && Removed(t[h], b, p) && j < Len(b)
    ensures EntryOk(t[h := b], m - {t[h][p].key}, h, j)
  {
    var j0 := if j < p then j else j + 1;
    assert EntryOk(t, m, h, j0) && EntryOk(t, m, h, p);
    assert b[j] == t[h][j0] && t[h][j0].key != t[h][p].key;
    forall l: nat | l < j ensures b[l].key != b[j].key {
      assert b[l] == t[h][if l < p then l else l + 1];
    }
  }

  // ------------------------------------------------------------------- the object

  class ReducerMap {
    var nelem: nat
    var nbuckets: nat
    var buckets: array<Bucket>
    ghost var contents: map<Key, Entry>

    ghost predicate Valid()
      reads this, buckets
    {
      && buckets.Length == nbuckets && IsPowerOfTwo(nbuckets)
      && TableOk(buckets[..], contents)
      && nelem == |contents| && nelem <= nbuckets
    }

    constructor ()
      ensures Valid() && contents == map[] && fresh(buckets)
    {
      nelem, nbuckets := 0, 1;
      contents := map[];
      var t := MakeBuckets(1);
      buckets := t;
    }

    static method MakeBuckets(n: nat) returns (t: array<Bucket>)
      requires n > 0
      ensures fresh(t) && t.Length == n && TableOk(t[..], map[])
    {
      t := new Bucket[n](_ => [EMPTY_ELEM]);
      for i := 0 to n
        invariant forall j | 0 <= j < i :: t[j] == []
      {
        t[i] := [];
      }
      EmptyTable(n, t[..]);
    }

    /** A free element in a bucket, in a larger copy of it if it is full. */
    static method Grow(b: Bucket) returns (nb: Bucket, free: nat)
      requires BucketOk(b)
      ensures free == Len(b) && |nb| >= 2 && free < |nb| - 1
      ensures nb[..free] == b[..free] && forall i | free <= i < |nb| :: nb[i].key == NO_KEY
    {
      var nmax := 0;
      if b != [] {
        nmax := |b| - 1;
        for i := 0 to nmax
          invariant forall j | 0 <= j < i :: b[j].key != NO_KEY
        {
          if b[i].key == NO_KEY {
            LenIs(b, i);
            return b, i;
          }
        }
        LenIs(b, nmax);
      }
      var nnmax := RoundUpElems(2 * nmax);
      nb := [];
      for i := 0 to nmax
        invariant nb == b[..i]
      {
        nb := nb + [b[i]];
      }
      for i := nmax to nnmax + 1
        invariant |nb| == i && nb[..nmax] == b[..nmax] && forall j | nmax <= j < i :: nb[j].key == NO_KEY
      {
        nb := nb + [EMPTY_ELEM];
      }
      free := nmax;
    }

    static method InsertInto(t: array<Bucket>, e: Elem, ghost m: map<Key, Entry>)
      requires TableOk(t[..], m) && e.key != NO_KEY && e.key !in m
      modifies t
      ensures TableOk(t[..], m[e.key := Entry(e.hb, e.view)])
    {
      var h := Hash(e.key, t.Length);
      ghost var before, old_ := t[..], t[h];
      assert BucketOk(before[h]);
      var nb, free := Grow(t[h]);
      nb := nb[free := e];
      LenIs(nb, free + 1);
      assert nb[..free] == old_[..free];
      t[h] := nb;
      InsertKeepsTable(before, m, nb, e);
      assert t[..] == before[h := nb];
    }

    method InsertNoRehash(key: Key, hb: nat, view: nat)
      requires buckets.Length == nbuckets && TableOk(buckets[..], contents)
      requires key != NO_KEY && view != 0 && key !in contents
      modifies this`nelem, this`contents, buckets
      ensures buckets.Length == nbuckets && TableOk(buckets[..], contents)
      ensures contents == old(contents)[key := Entry(hb, view)] && nelem == old(nelem) + 1
    {
      InsertInto(buckets, Elem(key, hb, view), contents);
      contents := contents[key := Entry(hb, view)];
      nelem := nelem + 1;
    }

    /** The first element of the key's bucket with that key. */
    method Lookup(key: Key) returns (found: bool, view: nat)
      requires Valid() && key != NO_KEY
      ensures found <==> key in contents
      ensures found ==> view == contents[key].view
    {
      var b := buckets[Hash(key, nbuckets)];
      ghost var h := Hash(key, nbuckets);
      KeyIsThere(buckets[..], contents, key);
      assert BucketOk(buckets[..][h]);
      view := 0;
      if b != [] {
        var el := 0;
        while b[el].key != NO_KEY
          invariant el <= Len(b) < |b| && forall j | 0 <= j < el :: b[j].key != key
          decreases |b| - el
        {
          if b[el].key == key {
            assert EntryOk(buckets[..], contents, h, el);
            return true, b[el].view;
          }
          el := el + 1;
        }
      }
      found := false;
    }

    /** Inserts the elements of bucket i of an old table into the new one; done
        is what the new table holds, and what of the old one has been copied. */
    static method Reinsert(b: Bucket, t': array<Bucket>, ghost t: seq<Bucket>, ghost m: map<Key, Entry>, i: nat, ghost done: map<Key, Entry>)
      returns (n: nat, ghost done': map<Key, Entry>)
      requires TableOk(t, m) && i < |t| && b == t[i] && TableOk(t'[..], done)
      requires Copied(t, m, done, i, 0)
      modifies t'
      ensures TableOk(t'[..], done') && Copied(t, m, done', i, Len(b)) && |done'| == |done| + n
    {
      n := 0;
      done' := done;
      assert BucketOk(t[i]);
      if b != [] {
        var oel := 0;
        while b[oel].key != NO_KEY
          invariant oel <= Len(b) && TableOk(t'[..], done') && Copied(t, m, done', i, oel) && |done'| == |done| + n
          decreases |b| - oel
        {
          var e := b[oel];
          NextReached(t, m, i, oel);
          InsertInto(t', e, done');
          CopiedOneMore(t, m, done', i, oel);
          done' := done'[e.key := Entry(e.hb, e.view)];
          n := n + 1;
          oel := oel + 1;
        }
      }
    }

    static method ReinsertAll(obuckets: array<Bucket>, t': array<Bucket>, ghost m: map<Key, Entry>) returns (n: nat)
      requires TableOk(obuckets[..], m) && TableOk(t'[..], map[]) && t' != obuckets
      modifies t'
      ensures TableOk(t'[..], m) && n == |m|
    {
      n := 0;
      ghost var t, done: map<Key, Entry> := obuckets[..], map[];
      for i := 0 to obuckets.Length
        invariant obuckets[..] == t && TableOk(t'[..], done) && n == |done| && Copied(t, m, done, i, 0)
      {
        var added;
        added, done := Reinsert(obuckets[i], t', t, m, i, done);
        BucketReached(t, m, i);
        n := n + added;
      }
      AllReached(t, m);
      assert done == m;
    }

    /** Twice as many buckets; every element is inserted again. */
    method Rehash()
      requires Valid()
      modifies this`nelem, this`nbuckets, this`buckets
      ensures Valid() && fresh(buckets) && nbuckets == 2 * old(nbuckets)
      ensures contents == old(contents)
    {
      var onelem := nelem;
      var t' := MakeBuckets(2 * nbuckets);
      nelem := ReinsertAll(buckets, t', contents);
      assert nelem == onelem;
      DoubledIsPower(nbuckets);
      nbuckets := 2 * nbuckets;
      buckets := t';
    }

    /** Elements are counted before they are added; the table still never holds
        more of them than it has buckets. */
    method RehashAndInsert(key: Key, hb: nat, view: nat)
      requires Valid() && key != NO_KEY && view != 0 && key !in contents
      modifies this, buckets
      ensures Valid() && contents == old(contents)[key := Entry(hb, view)]
      ensures buckets == old(buckets) || fresh(buckets)
      ensures nbuckets == if |old(contents)| + |old(contents)| / 8 < old(nbuckets) then old(nbuckets) else 2 * old(nbuckets)
    {
      if MinSz(nelem) > nbuckets {
        Rehash();
      }
      InsertNoRehash(key, hb, view);
    }

    /** The elements behind p move down by one, the terminator with the last. */
    static method Shift(b: Bucket, p: nat) returns (r: Bucket)
      requires BucketOk(b) && p < Len(b)
      ensures Removed(b, r, p)
    {
      r := b;
      var el := p;
      r := r[el := r[el + 1]];
      el := el + 1;
      while r[el].key != NO_KEY
        invariant p < el <= Len(b) && |r| == |b|
        invariant forall j | 0 <= j < p :: r[j] == b[j]
        invariant forall j | p <= j < el :: r[j] == b[j + 1]
        invariant forall j | el <= j < |b| :: r[j] == b[j]
        decreases |b| - el
      {
        r := r[el := r[el + 1]];
        el := el + 1;
      }
      LenIs(r, el - 1);
    }

    static method Find(b: Bucket, key: Key) returns (el: nat)
      requires HasKey(b, key)
      ensures el < Len(b) && b[el].key == key
    {
      el := 0;
      while b[el].key != key
        invariant el < Len(b) && exists j | el <= j < Len(b) :: b[j].key == key
        decreases |b| - el
      {
        el := el + 1;
      }
    }

    /** Unregisters a reducer. Only the strand that has its leftmost view, whose
        address is the key, may do so; otherwise the original stops with an error. */
    method HyperDestroy(key: Key) returns (ok: bool)
      requires Valid() && key != NO_KEY
      modifies this`nelem, this`contents, buckets
      ensures Valid()
      ensures ok <==> key in old(contents) && old(contents)[key].view == key.addr as nat
      ensures contents == if ok then old(contents) - {key} else old(contents)
    {
      var found, view := Lookup(key);
      if !(found && view == key.addr as nat) {
        return false;
      }
      KeyIsThere(buckets[..], contents, key);
      RemoveFrom(Hash(key, nbuckets), key);
      ok := true;
    }

    /** Takes the element with the key out of its bucket. */
    method RemoveFrom(h: nat, key: Key)
      requires Valid() && key in contents && h == Hash(key, nbuckets) && HasKey(buckets[h], key)
      modifies this`nelem, this`contents, buckets
      ensures Valid() && contents == old(contents) - {key}
    {
      ghost var t := buckets[..];
      assert BucketOk(t[h]);
      var el := Find(buckets[h], key);
      var r := Shift(buckets[h], el);
      buckets[h] := r;
      RemoveKeepsTable(t, contents, h, r, el);
      assert buckets[..] == t[h := r];
      contents := contents - {key};
      nelem := nelem - 1;
    }
  }

  /** The key is among the first i buckets, or the first j elements of bucket i. */
  ghost predicate Reached(t: seq<Bucket>, m: map<Key, Entry>, k: Key, i: nat, j: nat)
    requires |t| > 0
  {
    && k in m
    && (Hash(k, |t|) < i || (Hash(k, |t|) == i && exists l | 0 <= l < j && l < Len(t[i]) :: t[i][l].key == k))
  }

  /** done is the part of m that has been reached. */
  ghost predicate Copied(t: seq<Bucket>, m: map<Key, Entry>, done: map<Key, Entry>, i: nat, j: nat)
    requires |t| > 0
  {
    && (forall k :: k in done <==> Reached(t, m, k, i, j))
    && (forall k | k in done :: k in m && done[k] == m[k])
  }

  lemma CopiedOneMore(t: seq<Bucket>, m: map<Key, Entry>, done: map<Key, Entry>, i: nat, j: nat)
    requires TableOk(t, m) && i < |t| && j < Len(t[i]) && Copied(t, m, done, i, j)
    ensures var e := t[i][j]; Copied(t, m, done[e.key := Entry(e.hb, e.view)], i, j + 1)
  {
    NextReached(t, m, i, j);
  }

  lemma NextReached(t: seq<Bucket>, m: map<Key, Entry>, i: nat, j: nat)
    requires TableOk(t, m) && i < |t| && j < Len(t[i])
    ensures t[i][j].key != NO_KEY && !Reached(t, m, t[i][j].key, i, j)
    ensures t[i][j].key in m && m[t[i][j].key] == Entry(t[i][j].hb, t[i][j].view)
    ensures forall k :: Reached(t, m, k, i, j + 1) <==> Reached(t, m, k, i, j) || k == t[i][j].key
  {
    assert EntryOk(t, m, i, j);
  }

  lemma BucketReached(t: seq<Bucket>, m: map<Key, Entry>, i: nat)
    requires TableOk(t, m) && i < |t|
    ensures forall k :: Reached(t, m, k, i + 1, 0) <==> Reached(t, m, k, i, Len(t[i]))
  {
    forall k | k in m && Hash(k, |t|) == i ensures Reached(t, m, k, i, Len(t[i])) {
      assert HasKey(t[i], k);
    }
  }

  lemma AllReached(t: seq<Bucket>, m: map<Key, Entry>)
    requires |t| > 0
    ensures forall k :: Reached(t, m, k, |t|, 0) <==> k in m
  {
  }
}

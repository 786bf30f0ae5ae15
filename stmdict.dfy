/** The bucket logic of the transactional dictionary `pypystm.stmdict`.

    The dictionary is a hashtable from a hash value to a bucket: a flat array
    `[k0, v0, k1, v1, ...]` of keys at even slots and their values at the odd
    slot after them, or no array at all (`null`) when the bucket is empty.
    Keys and values are opaque objects of type `T`; the object space's `hash_w`
    and `eq_w` are the dictionary's parameters `hash` and `eq`. */
module StmDict {
  import opened Outcome

  /* ---------------------------------------------------------------------
     Specification functions on one bucket
     --------------------------------------------------------------------- */

  /** The first even slot at or after `from` holding a key equal to `key`,
      or -1.  Only even slots are looked at. */
  function FindFrom<T>(s: seq<T>, key: T, eq: (T, T) -> bool, from: nat): int
    decreases |s| - from
  {
    if from >= |s| then -1
    else if eq(key, s[from]) then from
    else FindFrom(s, key, eq, from + 2)
  }

  /** What `find_equal_item` answers for a bucket. */
  function KeyIndex<T>(s: seq<T>, key: T, eq: (T, T) -> bool): int
  {
    FindFrom(s, key, eq, 0)
  }

  /** The value stored for `key` in a bucket, if the key is there. */
  function BucketLookup<T>(s: seq<T>, key: T, eq: (T, T) -> bool): Option<T>
  {
    var i := KeyIndex(s, key, eq);
    if 0 <= i && i + 1 < |s| then Some(s[i + 1]) else None
  }

  /** The bucket after `d[key] = value`: the value slot is overwritten when
      the key is there, otherwise the pair is appended. */
  function BucketSet<T>(s: seq<T>, key: T, value: T, eq: (T, T) -> bool): seq<T>
  {
    var i := KeyIndex(s, key, eq);
    if 0 <= i && i + 1 < |s| then s[i + 1 := value] else s + [key, value]
  }

  /** The bucket after removing the pair whose key is at slot `i`. */
  function BucketRemove<T>(s: seq<T>, i: nat): seq<T>
    requires i + 2 <= |s|
  {
    s[..i] + s[i + 2..]
  }

  /** Every `2`nd element of `s` from slot `j` on. */
  function Stride<T>(s: seq<T>, j: nat): seq<T>
    decreases |s| - j
  {
    if j >= |s| then [] else [s[j]] + Stride(s, j + 2)
  }

  /** The (key, value) pairs of a bucket, in slot order. */
  function Pairs<T>(s: seq<T>, j: nat): seq<(T, T)>
    decreases |s| - j
  {
    if j + 1 >= |s| then [] else [(s[j], s[j + 1])] + Pairs(s, j + 2)
  }

  /** The invariant of one bucket stored under hash `hk`: a non-empty array
      of whole pairs, every key hashing to `hk`, and no key equal to an
      earlier one. */
  ghost predicate GoodBucket<T>(s: seq<T>, hk: int, hash: T -> int, eq: (T, T) -> bool)
  {
    && |s| >= 2 && |s| % 2 == 0
    && (forall i | 0 <= i < |s| && i % 2 == 0 :: hash(s[i]) == hk)
    && (forall i, j | 0 <= i < j < |s| && i % 2 == 0 && j % 2 == 0 :: !eq(s[j], s[i]))
  }

  /* ---------------------------------------------------------------------
     Specification functions on the whole table
     --------------------------------------------------------------------- */

  /** `listing` is what the hashtable's `list()` hands out: every non-empty
      bucket of `b` once, in some order. */
  ghost predicate IsListing<T>(b: map<int, seq<T>>, listing: seq<int>)
  {
    && (forall i | 0 <= i < |listing| :: listing[i] in b)
    && (forall k | k in b :: k in listing)
    && (forall i, j | 0 <= i < j < |listing| :: listing[i] != listing[j])
  }

  /** The sum of the bucket lengths, buckets taken in `listing` order. */
  function TotalLength<T>(b: map<int, seq<T>>, listing: seq<int>): int
  {
    if listing == [] then 0
    else
      var k := listing[|listing| - 1];
      TotalLength(b, listing[..|listing| - 1]) + (if k in b then |b[k]| else 0)
  }

  /** The slots `offset`, `offset + 2`, ... of every bucket, buckets in `listing` order. */
  function Gather<T>(b: map<int, seq<T>>, listing: seq<int>, offset: nat): seq<T>
  {
    if listing == [] then []
    else
      var k := listing[|listing| - 1];
      Gather(b, listing[..|listing| - 1], offset) + (if k in b then Stride(b[k], offset) else [])
  }

  /** The (key, value) pairs of every bucket, buckets in `listing` order. */
  function GatherPairs<T>(b: map<int, seq<T>>, listing: seq<int>): seq<(T, T)>
  {
    if listing == [] then []
    else
      var k := listing[|listing| - 1];
      GatherPairs(b, listing[..|listing| - 1]) + (if k in b then Pairs(b[k], 0) else [])
  }

  function Zip<A, B>(a: seq<A>, c: seq<B>): (z: seq<(A, B)>)
    requires |a| == |c|
    ensures |z| == |a|
  {
    if a == [] then [] else [(a[0], c[0])] + Zip(a[1..], c[1..])
  }

  /* ---------------------------------------------------------------------
     Lemmas about the bucket functions
     --------------------------------------------------------------------- */

  /** `find_equal_item` answers the smallest even slot at or after `from`
      whose key equals `key`, and -1 exactly when there is none. */
  lemma {:induction false} FindFromCharacterised<T>(s: seq<T>, key: T, eq: (T, T) -> bool, from: nat)
    requires from % 2 == 0
    ensures var r := FindFrom(s, key, eq, from);
      && (r == -1 <==> forall j | from <= j < |s| && j % 2 == 0 :: !eq(key, s[j]))
      && (r != -1 ==> from <= r < |s| && r % 2 == 0 && eq(key, s[r]))
      && (r != -1 ==> forall j | from <= j < r && j % 2 == 0 :: !eq(key, s[j]))
    decreases |s| - from
  {
    if from < |s| && !eq(key, s[from]) {
      FindFromCharacterised(s, key, eq, from + 2);
    }
  }

  /** Value slots are never compared: two buckets that agree on their key
      slots give the same answer. */
  lemma {:induction false} FindFromIgnoresValues<T>(s: seq<T>, t: seq<T>, key: T, eq: (T, T) -> bool, from: nat)
    requires |s| == |t| && from % 2 == 0
    requires forall i | 0 <= i < |s| && i % 2 == 0 :: s[i] == t[i]
    ensures FindFrom(s, key, eq, from) == FindFrom(t, key, eq, from)
    decreases |s| - from
  {
    if from < |s| {
      FindFromIgnoresValues(s, t, key, eq, from + 2);
    }
  }

  /** A found key of a bucket of whole pairs has its value slot in range. */
  lemma KeyIndexInRange<T>(s: seq<T>, key: T, eq: (T, T) -> bool)
    requires |s| % 2 == 0
    ensures KeyIndex(s, key, eq) >= 0 ==> KeyIndex(s, key, eq) + 1 < |s|
    ensures KeyIndex(s, key, eq) >= -1
  {
    FindFromCharacterised(s, key, eq, 0);
  }

  /** `d[key] = value` on an existing key overwrites its value slot only and
      keeps the length; on a new key it appends the pair after the old
      contents. */
  lemma BucketSetShape<T>(s: seq<T>, key: T, value: T, eq: (T, T) -> bool)
    requires |s| % 2 == 0
    ensures var i := KeyIndex(s, key, eq);
      var r := BucketSet(s, key, value, eq);
      && (i >= 0 ==> |r| == |s| && r[i + 1] == value
                     && forall j | 0 <= j < |s| && j != i + 1 :: r[j] == s[j])
      && (i < 0 ==> |r| == |s| + 2 && r[..|s|] == s && r[|s|] == key && r[|s| + 1] == value)
  {
    KeyIndexInRange(s, key, eq);
  }

  /** After `d[key] = value` the key maps to `value`, for a key equal to itself. */
  lemma BucketSetThenLookup<T>(s: seq<T>, key: T, value: T, eq: (T, T) -> bool)
    requires |s| % 2 == 0 && eq(key, key)
    ensures BucketLookup(BucketSet(s, key, value, eq), key, eq) == Some(value)
  {
    var i := KeyIndex(s, key, eq);
    var r := BucketSet(s, key, value, eq);
    KeyIndexInRange(s, key, eq);
    FindFromCharacterised(s, key, eq, 0);
    if i >= 0 {
      FindFromIgnoresValues(s, r, key, eq, 0);
    } else {
      FindFromCharacterised(r, key, eq, 0);
      assert forall j | 0 <= j < |s| :: r[j] == s[j];
      assert r[|s|] == key;
    }
  }

  /** `d[key] = value` leaves the value of every other key alone: a key not
      equal to `key`, and not equal to a stored key that `key` equals. */
  lemma BucketSetKeepsOthers<T>(s: seq<T>, key: T, value: T, other: T, eq: (T, T) -> bool)
    requires |s| % 2 == 0 && !eq(other, key)
    requires forall i | 0 <= i < |s| && i % 2 == 0 :: !(eq(key, s[i]) && eq(other, s[i]))
    ensures BucketLookup(BucketSet(s, key, value, eq), other, eq) == BucketLookup(s, other, eq)
  {
    var i := KeyIndex(s, key, eq);
    var r := BucketSet(s, key, value, eq);
    KeyIndexInRange(s, key, eq);
    KeyIndexInRange(s, other, eq);
    FindFromCharacterised(s, key, eq, 0);
    FindFromCharacterised(s, other, eq, 0);
    if i >= 0 {
      FindFromIgnoresValues(s, r, other, eq, 0);
    } else {
      FindFromCharacterised(r, other, eq, 0);
      assert forall j | 0 <= j < |s| :: r[j] == s[j];
      assert r[|s|] == key;
    }
  }

  /** `d[key] = value` keeps the bucket invariant. */
  lemma BucketSetGood<T>(s: seq<T>, hk: int, key: T, value: T, hash: T -> int, eq: (T, T) -> bool)
    requires GoodBucket(s, hk, hash, eq) && hash(key) == hk
    ensures GoodBucket(BucketSet(s, key, value, eq), hk, hash, eq)
  {
    var i := KeyIndex(s, key, eq);
    var r := BucketSet(s, key, value, eq);
    KeyIndexInRange(s, key, eq);
    FindFromCharacterised(s, key, eq, 0);
    if i >= 0 {
      assert forall j | 0 <= j < |s| && j % 2 == 0 :: r[j] == s[j];
    } else {
      assert forall j | 0 <= j < |s| :: r[j] == s[j];
    }
  }

  /** A fresh bucket holding one pair is good. */
  lemma NewBucketGood<T>(hk: int, key: T, value: T, hash: T -> int, eq: (T, T) -> bool)
    requires hash(key) == hk
    ensures GoodBucket([key, value], hk, hash, eq)
  {
  }

  /** `del d[key]` on a found key keeps the slots before it and after its
      pair, in their order, and keeps the bucket invariant. */
  lemma BucketRemoveGood<T>(s: seq<T>, hk: int, i: nat, hash: T -> int, eq: (T, T) -> bool)
    requires GoodBucket(s, hk, hash, eq) && i % 2 == 0 && i + 2 <= |s| && |s| > 2
    ensures var r := BucketRemove(s, i);
      && |r| == |s| - 2
      && (forall j | 0 <= j < i :: r[j] == s[j])
      && (forall j | i <= j < |r| :: r[j] == s[j + 2])
      && GoodBucket(r, hk, hash, eq)
  {
    var r := BucketRemove(s, i);
    assert |r| == |s| - 2;
    assert forall j | 0 <= j < i :: r[j] == s[j];
    assert forall j | i <= j < |r| :: r[j] == s[j + 2];
    forall a, b | 0 <= a < b < |r| && a % 2 == 0 && b % 2 == 0
      ensures !eq(r[b], r[a])
    {
      var a0 := if a < i then a else a + 2;
      var b0 := if b < i then b else b + 2;
      assert a0 % 2 == 0 && b0 % 2 == 0 && a0 < b0 < |s|;
      assert r[a] == s[a0] && r[b] == s[b0];
    }
    forall a | 0 <= a < |r| && a % 2 == 0
      ensures hash(r[a]) == hk
    {
      var a0 := if a < i then a else a + 2;
      assert a0 % 2 == 0 && a0 < |s|;
      assert r[a] == s[a0];
    }
  }

  /** The key slots and the value slots of a bucket of whole pairs each hold
      half of it, and slot `m` of each is key `m` and value `m`. */
  lemma {:induction false} StrideOfPairs<T>(s: seq<T>, j: nat)
    requires |s| % 2 == 0 && j % 2 == 0 && j <= |s|
    ensures |Stride(s, j)| == (|s| - j) / 2 && |Stride(s, j + 1)| == (|s| - j) / 2
    ensures forall m | 0 <= m < (|s| - j) / 2 :: Stride(s, j)[m] == s[j + 2 * m] && Stride(s, j + 1)[m] == s[j + 2 * m + 1]
    ensures Pairs(s, j) == Zip(Stride(s, j), Stride(s, j + 1))
    decreases |s| - j
  {
    if j < |s| {
      StrideOfPairs(s, j + 2);
      var ks, vs := Stride(s, j + 2), Stride(s, j + 3);
      assert Stride(s, j) == [s[j]] + ks;
      assert Stride(s, j + 1) == [s[j + 1]] + vs;
      assert Zip([s[j]] + ks, [s[j + 1]] + vs) == [(s[j], s[j + 1])] + Zip(ks, vs);
    }
  }

  lemma {:induction false} ZipAppend<A, B>(a: seq<A>, b: seq<A>, c: seq<B>, d: seq<B>)
    requires |a| == |c| && |b| == |d|
    ensures Zip(a + b, c + d) == Zip(a, c) + Zip(b, d)
    decreases |a|
  {
    if a == [] {
      assert a + b == b && c + d == d;
    } else {
      assert Zip(a + b, c + d) == [(a[0], c[0])] + Zip((a + b)[1..], (c + d)[1..]);
      assert (a + b)[1..] == a[1..] + b;
      assert (c + d)[1..] == c[1..] + d;
      ZipAppend(a[1..], b, c[1..], d);
    }
  }

  /** `len(d)`: half the total bucket length is the number of keys listed by
      `d.keys()` and of values listed by `d.values()`; `d.items()` pairs the
      two lists slot by slot. */
  lemma {:induction false} GatherCounts<T>(b: map<int, seq<T>>, listing: seq<int>)
    requires forall k | k in b :: |b[k]| % 2 == 0
    ensures TotalLength(b, listing) % 2 == 0
    ensures |Gather(b, listing, 0)| == TotalLength(b, listing) / 2
    ensures |Gather(b, listing, 1)| == TotalLength(b, listing) / 2
    ensures GatherPairs(b, listing) == Zip(Gather(b, listing, 0), Gather(b, listing, 1))
    decreases |listing|
  {
    if listing != [] {
      var front := listing[..|listing| - 1];
      var k := listing[|listing| - 1];
      GatherCounts(b, front);
      if k in b {
        StrideOfPairs(b[k], 0);
        ZipAppend(Gather(b, front, 0), Stride(b[k], 0), Gather(b, front, 1), Stride(b[k], 1));
      } else {
        assert Gather(b, listing, 0) == Gather(b, front, 0);
        assert Gather(b, listing, 1) == Gather(b, front, 1);
      }
    }
  }

  /** One more listed bucket appends its stride, or its pairs. */
  lemma GatherStep<T>(b: map<int, seq<T>>, listing: seq<int>, i: nat, offset: nat)
    requires i < |listing| && listing[i] in b
    ensures Gather(b, listing[..i + 1], offset) == Gather(b, listing[..i], offset) + Stride(b[listing[i]], offset)
    ensures GatherPairs(b, listing[..i + 1]) == GatherPairs(b, listing[..i]) + Pairs(b[listing[i]], 0)
  {
    assert listing[..i + 1][..i] == listing[..i];
  }

  lemma StrideStep<T>(s: seq<T>, j: nat)
    requires j < |s|
    ensures Stride(s, j) == [s[j]] + Stride(s, j + 2)
  {
  }

  /** The inner loop of `d.keys()` and `d.values()`: slots `offset`,
      `offset + 2`, ... of one bucket, appended to `done`. */
  method AppendStride<T>(subarray: array<T>, offset: nat, done: seq<T>) returns (result: seq<T>)
    ensures result == done + Stride(subarray[..], offset)
  {
    result := done;
    var j := offset;
    var limit := subarray.Length;
    while j < limit
      invariant result + Stride(subarray[..], j) == done + Stride(subarray[..], offset)
    {
      StrideStep(subarray[..], j);
      ghost var rest := Stride(subarray[..], j + 2);
      assert result + ([subarray[j]] + rest) == result + [subarray[j]] + rest;
      result := result + [subarray[j]];
      j := j + 2;
    }
  }

  /** The inner loop of `d.items()`: the pairs of one bucket of whole pairs,
      appended to `done`. */
  method AppendPairs<T>(subarray: array<T>, done: seq<(T, T)>) returns (result: seq<(T, T)>)
    requires subarray.Length % 2 == 0
    ensures result == done + Pairs(subarray[..], 0)
  {
    result := done;
    var j := 0;
    var limit := subarray.Length;
    ghost var pairs := limit / 2;
    assert limit == 2 * pairs;
    ghost var k := 0;
    while j < limit
      invariant 0 <= j <= limit && j == 2 * k
      invariant result + Pairs(subarray[..], j) == done + Pairs(subarray[..], 0)
    {
      var pair := (subarray[j], subarray[j + 1]);
      PairsAppend(result, subarray[..], j);
      result := result + [pair];
      j := j + 2;
      k := k + 1;
    }
  }

  /** Taking the pair at slot `j` off the pairs from `j` on. */
  lemma PairsAppend<T>(done: seq<(T, T)>, s: seq<T>, j: nat)
    requires j + 1 < |s|
    ensures done + Pairs(s, j) == (done + [(s[j], s[j + 1])]) + Pairs(s, j + 2)
  {
    assert Pairs(s, j) == [(s[j], s[j + 1])] + Pairs(s, j + 2);
  }

  /* ---------------------------------------------------------------------
     The array procedures
     --------------------------------------------------------------------- */

  /** `find_equal_item`: compares slot 0, then hands the rest of the scan to
      `_run_next_iterations`. */
  method FindEqualItem<T>(a: array<T>, key: T, eq: (T, T) -> bool) returns (i: int)
    requires a.Length > 0
    ensures i == KeyIndex(a[..], key, eq)
  {
    if eq(key, a[0]) {
      return 0;
    }
    if a.Length > 2 {
      i := RunNextIterations(a, key, eq);
      return;
    }
    assert FindFrom(a[..], key, eq, 2) == -1;
    return -1;
  }

  /** `_run_next_iterations`: the scan of the key slots from slot 2 on. */
  method RunNextIterations<T>(a: array<T>, key: T, eq: (T, T) -> bool) returns (r: int)
    requires a.Length > 2
    ensures r == FindFrom(a[..], key, eq, 2)
  {
    var i := 2;
    var limit := a.Length;
    while true
      invariant 2 <= i < limit && i % 2 == 0
      invariant FindFrom(a[..], key, eq, i) == FindFrom(a[..], key, eq, 2)
      decreases limit - i
    {
      if eq(key, a[i]) {
        return i;
      }
      i := i + 2;
      if i >= limit {
        return -1;
      }
    }
  }

  /** `ll_arraycopy`: `dest[destStart + i] := source[sourceStart + i]` for
      `i < length`; the other slots of `dest` are left alone. */
  method ArrayCopy<T>(source: array<T>, dest: array<T>, sourceStart: nat, destStart: nat, length: nat)
    requires source != dest
    requires sourceStart + length <= source.Length && destStart + length <= dest.Length
    modifies dest
    ensures dest[destStart..destStart + length] == source[sourceStart..sourceStart + length]
    ensures dest[..destStart] == old(dest[..destStart])
    ensures dest[destStart + length..] == old(dest[destStart + length..])
  {
    for i := 0 to length
      invariant dest[destStart..destStart + i] == source[sourceStart..sourceStart + i]
      invariant forall j | 0 <= j < dest.Length && !(destStart <= j < destStart + i) :: dest[j] == old(dest[j])
    {
      dest[destStart + i] := source[sourceStart + i];
      assert dest[destStart..destStart + i + 1] == dest[destStart..destStart + i] + [dest[destStart + i]];
      assert source[sourceStart..sourceStart + i + 1] == source[sourceStart..sourceStart + i] + [source[sourceStart + i]];
    }
  }

  /* ---------------------------------------------------------------------
     The dictionary
     --------------------------------------------------------------------- */

  /** Every bucket of the table is good. */
  ghost predicate GoodTable<T>(b: map<int, seq<T>>, hash: T -> int, eq: (T, T) -> bool)
  {
    forall k | k in b :: GoodBucket(b[k], k, hash, eq)
  }

  /** No array is the bucket of two hash values. */
  ghost predicate Unshared<T>(h: map<int, array<T>>)
  {
    forall k1, k2 | k1 in h && k2 in h && k1 != k2 :: h[k1] != h[k2]
  }

  lemma GoodTableSet<T>(b: map<int, seq<T>>, hk: int, s: seq<T>, hash: T -> int, eq: (T, T) -> bool)
    requires GoodTable(b, hash, eq) && GoodBucket(s, hk, hash, eq)
    ensures GoodTable(b[hk := s], hash, eq)
  {
  }

  lemma GoodTableRemove<T>(b: map<int, seq<T>>, hk: int, hash: T -> int, eq: (T, T) -> bool)
    requires GoodTable(b, hash, eq)
    ensures GoodTable(b - {hk}, hash, eq)
  {
  }

  /** Overwriting a value slot keeps a bucket good. */
  lemma GoodBucketValueSlot<T>(s: seq<T>, hk: int, i: nat, value: T, hash: T -> int, eq: (T, T) -> bool)
    requires GoodBucket(s, hk, hash, eq) && i < |s| && i % 2 == 1
    ensures GoodBucket(s[i := value], hk, hash, eq)
  {
    assert forall j | 0 <= j < |s| && j % 2 == 0 :: s[i := value][j] == s[j];
  }

  class Dict<T(0)> {
    /** The object space's `hash_w` and `eq_w`. */
    const hash: T -> int
    const eq: (T, T) -> bool
    /** The hashtable: a hash value maps to its bucket array; a hash without
        an array (a `null` entry) is absent. */
    var h: map<int, array<T>>

    ghost predicate Valid()
      reads this, h.Values
    {
      Unshared(h) && GoodTable(Buckets(), hash, eq)
    }

    /** The contents of every bucket. */
    ghost function Buckets(): map<int, seq<T>>
      reads this, h.Values
    {
      map k | k in h :: h[k][..]
    }

    constructor (hash: T -> int, eq: (T, T) -> bool)
      ensures Valid() && Buckets() == map[]
      ensures this.hash == hash && this.eq == eq
    {
      this.hash := hash;
      this.eq := eq;
      h := map[];
    }

    /** The bucket of `hk` is good. */
    lemma BucketGood(hk: int)
      requires Valid() && hk in h
      ensures GoodBucket(h[hk][..], hk, hash, eq) && h[hk][..] == Buckets()[hk]
    {
      assert Buckets()[hk] == h[hk][..];
    }

    /** `entry.object = narray`: a new array becomes the bucket of `hk`. */
    method Install(hk: int, narray: array<T>)
      requires Valid() && narray !in h.Values
      requires GoodBucket(narray[..], hk, hash, eq)
      modifies this
      ensures Valid() && h == old(h)[hk := narray]
      ensures Buckets() == old(Buckets())[hk := narray[..]]
    {
      GoodTableSet(Buckets(), hk, narray[..], hash, eq);
      h := h[hk := narray];
      assert Buckets() == old(Buckets())[hk := narray[..]];
    }

    /** `entry.object = null`: the bucket of `hk` goes away. */
    method Drop(hk: int)
      requires Valid()
      modifies this
      ensures Valid() && h == old(h) - {hk}
      ensures Buckets() == old(Buckets()) - {hk}
    {
      GoodTableRemove(Buckets(), hk, hash, eq);
      h := h - {hk};
      assert Buckets() == old(Buckets()) - {hk};
    }

    /** `array[i] = value` on a value slot of the bucket of `hk`, in place. */
    method PutValue(hk: int, i: nat, value: T)
      requires Valid() && hk in h && i < h[hk].Length && i % 2 == 1
      modifies h[hk]
      ensures Valid() && h == old(h)
      ensures Buckets() == old(Buckets()[hk := Buckets()[hk][i := value]])
    {
      var arr := h[hk];
      BucketGood(hk);
      GoodBucketValueSlot(arr[..], hk, i, value, hash, eq);
      arr[i] := value;
      forall k | k in h && k != hk
        ensures h[k][..] == old(h[k][..])
      {
        assert h[k] != arr;
      }
      assert Buckets() == old(Buckets()[hk := Buckets()[hk][i := value]]);
    }

    /** `d[key]`: the value slot after the key, or `KeyError`. */
    method GetItem(key: T) returns (r: Result<T>)
      requires Valid()
      ensures var hk := hash(key);
        r == if hk in Buckets() && BucketLookup(Buckets()[hk], key, eq).Some?
             then Ok(BucketLookup(Buckets()[hk], key, eq).value)
             else Fail(KeyError)
      ensures r.Ok? ==> var s := Buckets()[hash(key)];
        exists i | 0 <= i < |s| - 1 && i % 2 == 0 :: eq(key, s[i]) && r.value == s[i + 1]
    {
      var hk := hash(key);
      if hk in h {
        var arr := h[hk];
        BucketGood(hk);
        var i := FindEqualItem(arr, key, eq);
        KeyIndexInRange(arr[..], key, eq);
        if i >= 0 {
          FindFromCharacterised(arr[..], key, eq, 0);
          return Ok(arr[i + 1]);
        }
      }
      return Fail(KeyError);
    }

    /** The shared tail of `d[key] = value` and `d.setdefault(key, value)`
        for a key that is not there: a new array two slots longer, holding the
        old bucket (if any) followed by the pair, replaces the bucket. */
    method AppendPair(hk: int, key: T, value: T)
      requires Valid() && hash(key) == hk
      requires hk in h ==> KeyIndex(h[hk][..], key, eq) < 0
      modifies this
      ensures Valid()
      ensures Buckets() == old(Buckets()[hk := if hk in Buckets() then Buckets()[hk] + [key, value] else [key, value]])
    {
      var narray: array<T>;
      var L: nat;
      if hk in h {
        var arr := h[hk];
        L := arr.Length;
        narray := new T[L + 2];
        ArrayCopy(arr, narray, 0, 0, L);
      } else {
        narray := new T[2];
        L := 0;
      }
      narray[L] := key;
      narray[L + 1] := value;
      NewPair(hk, narray, L, key, value);
      Install(hk, narray);
    }

    /** The found branch of `del d[key]`: the pair at slot `i` leaves the
        bucket of `hk`; an emptied bucket becomes `null`. */
    method RemovePair(hk: int, i: nat)
      requires Valid() && hk in h && i % 2 == 0 && i + 2 <= h[hk].Length
      modifies this
      ensures Valid()
      ensures var s := old(Buckets())[hk];
        Buckets() == if |s| == 2 then old(Buckets()) - {hk} else old(Buckets())[hk := BucketRemove(s, i)]
    {
      var arr := h[hk];
      BucketGood(hk);
      var L := arr.Length - 2;
      if L == 0 {
        Drop(hk);
      } else {
        var narray := new T[L];
        ArrayCopy(arr, narray, 0, 0, i);
        assert narray[..i] == arr[..i] by { assert narray[0..i] == narray[..i] && arr[0..i] == arr[..i]; }
        ArrayCopy(arr, narray, i + 2, i, L - i);
        assert narray[i..] == arr[i + 2..] by { assert narray[i..i + (L - i)] == narray[i..] && arr[i + 2..i + 2 + (L - i)] == arr[i + 2..]; }
        assert narray[..] == narray[..i] + narray[i..];
        assert narray[..] == BucketRemove(arr[..], i);
        BucketRemoveGood(arr[..], hk, i, hash, eq);
        Install(hk, narray);
      }
    }

    /** `d[key] = value`. */
    method SetItem(key: T, value: T)
      requires Valid()
      modifies this, h.Values
      ensures Valid()
      ensures var hk := hash(key);
        Buckets() == old(Buckets()[hk := if hk in Buckets() then BucketSet(Buckets()[hk], key, value, eq) else [key, value]])
      ensures var hk := hash(key);
        old(hk in h && KeyIndex(h[hk][..], key, eq) >= 0) ==> h == old(h)
    {
      var hk := hash(key);
      if hk in h {
        var arr := h[hk];
        BucketGood(hk);
        var i := FindEqualItem(arr, key, eq);
        KeyIndexInRange(arr[..], key, eq);
        if i >= 0 {
          // already there, update the value
          FindFromCharacterised(arr[..], key, eq, 0);
          PutValue(hk, i + 1, value);
          return;
        }
      }
      AppendPair(hk, key, value);
    }

    /** The array `narray` built by `d[key] = value` for a key that is not in
        the bucket of `hk` is that bucket with the pair appended. */
    lemma NewPair(hk: int, narray: array<T>, L: nat, key: T, value: T)
      requires Valid() && hash(key) == hk
      requires hk in h ==> KeyIndex(h[hk][..], key, eq) < 0 && L == h[hk].Length
      requires hk !in h ==> L == 0
      requires narray.Length == L + 2 && narray[L] == key && narray[L + 1] == value
      requires hk in h ==> narray[..L] == h[hk][..]
      ensures GoodBucket(narray[..], hk, hash, eq)
      ensures narray[..] == if hk in Buckets() then BucketSet(Buckets()[hk], key, value, eq) else [key, value]
      ensures hk in Buckets() ==> narray[..] == Buckets()[hk] + [key, value]
    {
      if hk in h {
        BucketGood(hk);
        var s := h[hk][..];
        KeyIndexInRange(s, key, eq);
        assert narray[..] == s + [key, value];
        BucketSetGood(s, hk, key, value, hash, eq);
      } else {
        assert narray[..] == [key, value];
      }
    }

    /** `del d[key]`: removes the pair, dropping the bucket when it becomes
        empty; a missing key is `KeyError` and changes nothing. */
    method DelItem(key: T) returns (st: Status)
      requires Valid()
      modifies this
      ensures Valid()
      ensures var hk := hash(key);
        var found := hk in old(Buckets()) && KeyIndex(old(Buckets())[hk], key, eq) >= 0;
        && st == (if found then Done else Failed(KeyError))
        && (!found ==> Buckets() == old(Buckets()))
        && (found ==> var s := old(Buckets())[hk]; var i := KeyIndex(s, key, eq);
              0 <= i && i + 2 <= |s|
              && Buckets() == if |s| == 2 then old(Buckets()) - {hk}
                             else old(Buckets())[hk := BucketRemove(s, i)])
    {
      var hk := hash(key);
      if hk in h {
        var arr := h[hk];
        BucketGood(hk);
        var i := FindEqualItem(arr, key, eq);
        KeyIndexInRange(arr[..], key, eq);
        if i >= 0 {
          FindFromCharacterised(arr[..], key, eq, 0);
          RemovePair(hk, i);
          return Done;
        }
      }
      return Failed(KeyError);
    }

    /** `key in d`. */
    method Contains(key: T) returns (b: bool)
      requires Valid()
      ensures b <==> var hk := hash(key); hk in Buckets() && KeyIndex(Buckets()[hk], key, eq) >= 0
      ensures b <==> var hk := hash(key); hk in Buckets() && BucketLookup(Buckets()[hk], key, eq).Some?
    {
      var hk := hash(key);
      b := false;
      if hk in h {
        BucketGood(hk);
        KeyIndexInRange(h[hk][..], key, eq);
        var i := FindEqualItem(h[hk], key, eq);
        b := i >= 0;
      }
    }

    /** `d.get(key, default)`: the stored value, or `default` instead of
        `KeyError`.  It changes nothing. */
    method Get(key: T, default: T) returns (v: T)
      requires Valid()
      ensures var hk := hash(key);
        v == if hk in Buckets() && BucketLookup(Buckets()[hk], key, eq).Some?
             then BucketLookup(Buckets()[hk], key, eq).value else default
    {
      var hk := hash(key);
      if hk in h {
        var arr := h[hk];
        BucketGood(hk);
        var i := FindEqualItem(arr, key, eq);
        KeyIndexInRange(arr[..], key, eq);
        if i >= 0 {
          return arr[i + 1];
        }
      }
      return default;
    }

    /** `d.setdefault(key, default)`: the stored value when the key is there
        (nothing changes), otherwise the pair `(key, default)` is appended
        and `default` is returned. */
    method SetDefault(key: T, default: T) returns (v: T)
      requires Valid()
      modifies this
      ensures Valid()
      ensures var hk := hash(key);
        var found := hk in old(Buckets()) && BucketLookup(old(Buckets())[hk], key, eq).Some?;
        && (found ==> v == BucketLookup(old(Buckets())[hk], key, eq).value && Buckets() == old(Buckets()))
        && (!found ==>
              && v == default
              && Buckets() == old(Buckets())[hk := if hk in old(Buckets()) then old(Buckets())[hk] + [key, default] else [key, default]])
    {
      var hk := hash(key);
      if hk in h {
        var arr := h[hk];
        BucketGood(hk);
        var i := FindEqualItem(arr, key, eq);
        KeyIndexInRange(arr[..], key, eq);
        if i >= 0 {
          // already there, return the existing value
          return arr[i + 1];
        }
      }
      AppendPair(hk, key, default);
      return default;
    }

    /** `len(d)`: the total length of the listed buckets, shifted right by one. */
    method GetLength(listing: seq<int>) returns (n: int)
      requires Valid() && IsListing(Buckets(), listing)
      ensures n == TotalLength(Buckets(), listing) / 2
      ensures n == |Gather(Buckets(), listing, 0)|
    {
      var total := 0;
      for i := 0 to |listing|
        invariant total == TotalLength(Buckets(), listing[..i])
      {
        assert listing[..i + 1][..i] == listing[..i];
        var subarray := h[listing[i]];
        total := total + subarray.Length;
      }
      assert listing[..|listing|] == listing;
      n := total / 2;
      GatherCounts(Buckets(), listing);
    }

    /** `d.keys()` (offset 0) and `d.values()` (offset 1): slots `offset`,
        `offset + 2`, ... of every listed bucket, buckets in listing order. */
    method GetKeysValues(listing: seq<int>, offset: nat) returns (result: seq<T>)
      requires Valid() && IsListing(Buckets(), listing)
      ensures result == Gather(Buckets(), listing, offset)
    {
      result := [];
      for i := 0 to |listing|
        invariant result == Gather(Buckets(), listing[..i], offset)
      {
        var subarray := h[listing[i]];
        BucketGood(listing[i]);
        GatherStep(Buckets(), listing, i, offset);
        result := AppendStride(subarray, offset, result);
      }
      assert listing[..|listing|] == listing;
    }

    /** `d.items()`: the (key, value) pairs of every listed bucket. */
    method GetItems(listing: seq<int>) returns (result: seq<(T, T)>)
      requires Valid() && IsListing(Buckets(), listing)
      ensures result == GatherPairs(Buckets(), listing)
    {
      result := [];
      for i := 0 to |listing|
        invariant result == GatherPairs(Buckets(), listing[..i])
      {
        var subarray := h[listing[i]];
        BucketGood(listing[i]);
        GatherStep(Buckets(), listing, i, 0);
        result := AppendPairs(subarray, result);
      }
      assert listing[..|listing|] == listing;
    }
  }
}

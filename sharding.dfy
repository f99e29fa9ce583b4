/**
 * How the validation driver spreads its workload: the indices of the sample
 * data are shuffled, then cut into one contiguous set per process.
 */
module Sharding {
  import opened Wrappers
  import opened Elft

  /** `ceil(n / k)`, exact (the driver computes it in `float`). */
  function CeilDiv(n: nat, k: nat): (s: nat)
    requires k > 0
    ensures s * k >= n && (s > 0 ==> (s - 1) * k < n)
  {
    (n + k - 1) / k
  }

  function Min(a: int, b: int): int { if a <= b then a else b }

  /** `size * i <= size * j` for `i <= j`. */
  lemma {:induction false} MulMonotone(size: nat, i: nat, j: nat)
    requires i <= j
    ensures size * i <= size * j
  {
  }

  /** Past the guard `size >= k`, the last set starts inside the input and the sets reach its end. */
  lemma {:induction false} GuardBounds(n: nat, k: nat)
    requires k >= 2 && CeilDiv(n, k) >= k
    ensures CeilDiv(n, k) * (k - 1) < n
    ensures CeilDiv(n, k) * k < n + CeilDiv(n, k)
  {
    var size := CeilDiv(n, k);
    assert (size - 1) * k < n;
    assert size * (k - 1) == size * k - size;
    assert (size - 1) * k == size * k - k;
  }

  /**
   * Slice `i` of `splitSet`: `[size*i, min(size*(i+1), n))`. The start is
   * clamped too, so that the function is total; past the guard it always
   * lies inside the input.
   */
  function Slice(combined: seq<uint64>, size: nat, i: nat): seq<uint64>
  {
    combined[Min(size * i, |combined|)..Min(size * i + size, |combined|)]
  }

  /** The first `count` sets `splitSet` makes once its guard has passed. */
  function Slices(combined: seq<uint64>, size: nat, count: nat): (r: seq<seq<uint64>>)
    ensures |r| == count
  {
    if count == 0 then [] else Slices(combined, size, count - 1) + [Slice(combined, size, count - 1)]
  }

  /**
   * `splitSet`: no sets for zero, the whole input for one; otherwise sets of
   * `ceil(n/k)` elements, refused ("Too many sets.") when that size is
   * smaller than the number of sets.
   */
  method SplitSet(combined: seq<uint64>, numSets: uint8) returns (r: Outcome<seq<seq<uint64>>>)
    ensures numSets == 0 ==> r == Ok([])
    ensures numSets == 1 ==> r == Ok([combined])
    ensures numSets >= 2 ==> (r.Raised? <==> CeilDiv(|combined|, numSets) < numSets)
    ensures numSets >= 2 && r.Ok? ==>
      CeilDiv(|combined|, numSets) * (numSets - 1) < |combined| &&
      r.value == Slices(combined, CeilDiv(|combined|, numSets), numSets)
  {
    if numSets == 0 {
      return Ok([]);
    }
    if numSets == 1 {
      return Ok([combined]);
    }
    var size := CeilDiv(|combined|, numSets as nat);
    if size < numSets as nat {
      return Raised("Too many sets.");
    }
    GuardBounds(|combined|, numSets as nat);
    var sets: seq<seq<uint64>> := [];
    var i := 0;
    while i < numSets
      invariant 0 <= i <= numSets
      invariant sets == Slices(combined, size, i)
    {
      MulMonotone(size, i, numSets - 1);
      MulStep(size, i + 1);
      sets := sets + [combined[size * i..Min(size * (i + 1), |combined|)]];
      i := i + 1;
    }
    return Ok(sets);
  }

  function Flatten(sets: seq<seq<uint64>>): seq<uint64>
  {
    if sets == [] then [] else Flatten(sets[..|sets| - 1]) + sets[|sets| - 1]
  }

  lemma {:induction false} FlattenSlices(combined: seq<uint64>, size: nat, count: nat)
    requires size * count <= |combined|
    ensures Flatten(Slices(combined, size, count)) == combined[..size * count]
  {
    if count > 0 {
      MulNonNegative(size, count - 1);
      var lo, hi := size * (count - 1), size * count;
      MulStep(size, count);
      FlattenSlices(combined, size, count - 1);
      assert Slice(combined, size, count - 1) == combined[lo..hi];
      FlattenStep(Slices(combined, size, count - 1), combined, lo, hi);
    }
  }

  /** One more slice, right after the ones flattened so far, extends the prefix they cover. */
  lemma {:induction false} FlattenStep(prev: seq<seq<uint64>>, combined: seq<uint64>, lo: nat, hi: nat)
    requires lo <= hi <= |combined| && Flatten(prev) == combined[..lo]
    ensures Flatten(prev + [combined[lo..hi]]) == combined[..hi]
  {
    var r := prev + [combined[lo..hi]];
    assert r[..|r| - 1] == prev;
    assert combined[..lo] + combined[lo..hi] == combined[..hi];
  }

  lemma {:induction false} MulNonNegative(a: nat, b: nat)
    ensures a * b >= 0
  {
  }

  /** `size * count` is `size * (count - 1) + size`. */
  lemma {:induction false} MulStep(size: nat, count: nat)
    requires count > 0
    ensures size * count == size * (count - 1) + size
  {
  }

  /**
   * When the guard passes, there are exactly `numSets` sets, each non-empty
   * and at most `ceil(n/numSets)` long, and together, in order, they are
   * the input.
   */
  lemma {:induction false} SlicesPartition(combined: seq<uint64>, numSets: nat)
    requires numSets >= 2 && CeilDiv(|combined|, numSets) >= numSets
    ensures CeilDiv(|combined|, numSets) * (numSets - 1) < |combined|
    ensures var size := CeilDiv(|combined|, numSets);
      var r := Slices(combined, size, numSets);
      (forall i :: 0 <= i < numSets ==> 0 < |r[i]| <= size) &&
      Flatten(r) == combined
  {
    GuardBounds(|combined|, numSets);
    SlicesNonEmpty(combined, CeilDiv(|combined|, numSets), numSets);
    SlicesCover(combined, CeilDiv(|combined|, numSets), numSets);
  }

  lemma {:induction false} SlicesNonEmpty(combined: seq<uint64>, size: nat, count: nat)
    requires count >= 1 && size >= 1 && size * (count - 1) < |combined|
    ensures forall i :: 0 <= i < count ==> 0 < |Slices(combined, size, count)[i]| <= size
  {
    var r := Slices(combined, size, count);
    forall i | 0 <= i < count
      ensures 0 < |r[i]| <= size
    {
      MulMonotone(size, i, count - 1);
      SlicesElement(combined, size, count, i);
      assert |Slice(combined, size, i)| == Min(size * i + size, |combined|) - size * i;
    }
  }

  lemma {:induction false} SlicesCover(combined: seq<uint64>, size: nat, count: nat)
    requires count >= 1 && size * (count - 1) < |combined| <= size * count
    ensures Flatten(Slices(combined, size, count)) == combined
  {
    MulNonNegative(size, count - 1);
    var n, lo := |combined|, size * (count - 1);
    MulStep(size, count);
    FlattenSlices(combined, size, count - 1);
    LastSlice(combined, size, count - 1);
    FlattenStep(Slices(combined, size, count - 1), combined, lo, n);
    assert combined[..n] == combined;
  }

  /** A slice that reaches the end of the input is the rest of the input. */
  lemma {:induction false} LastSlice(combined: seq<uint64>, size: nat, i: nat)
    requires size * i <= |combined| <= size * i + size
    ensures Slice(combined, size, i) == combined[size * i..|combined|]
  {
  }

  lemma {:induction false} SlicesElement(combined: seq<uint64>, size: nat, count: nat, i: nat)
    requires i < count
    ensures Slices(combined, size, count)[i] == Slice(combined, size, i)
  {
    if i < count - 1 {
      SlicesElement(combined, size, count - 1, i);
    }
  }

  /**
   * The documented precondition, "more sets than elements", is weaker than
   * the guard: ten indices in four sets are refused.
   */
  lemma {:induction false} GuardStricterThanDocumented()
    ensures CeilDiv(10, 4) < 4
  {
  }

  // ---- randomizeIndicies ----

  function Iota(size: nat): (r: seq<nat>)
    ensures |r| == size && forall i :: 0 <= i < size ==> r[i] == i
  {
    seq(size, i => i)
  }

  /**
   * `randomizeIndicies`: `0, 1, ..., size-1`, then shuffled. The shuffle of
   * `std::mt19937_64` is not modelled: it is any sequence of swaps, given
   * as pairs of positions, applied in order.
   */
  method RandomizeIndices(size: nat, swaps: seq<(nat, nat)>) returns (r: seq<nat>)
    requires forall k :: 0 <= k < |swaps| ==> swaps[k].0 < size && swaps[k].1 < size
    ensures |r| == size
    ensures multiset(r) == multiset(Iota(size))
    ensures forall v :: 0 <= v < size <==> v in r
  {
    r := Iota(size);
    var k := 0;
    while k < |swaps|
      invariant 0 <= k <= |swaps|
      invariant |r| == size && multiset(r) == multiset(Iota(size))
    {
      var (a, b) := swaps[k];
      r := r[a := r[b]][b := r[a]];
      k := k + 1;
    }
    forall v
      ensures 0 <= v < size <==> v in r
    {
      assert v in r <==> v in multiset(r);
      assert v in Iota(size) <==> v in multiset(Iota(size));
      if 0 <= v < size {
        assert Iota(size)[v] == v;
      }
    }
  }

  /** The shuffled indices hold each of `0..size-1` exactly once. */
  lemma {:induction false} IotaPermutationUnique(r: seq<nat>, size: nat)
    requires multiset(r) == multiset(Iota(size))
    ensures forall v :: 0 <= v < size ==> multiset(r)[v] == 1
    ensures forall i, j :: 0 <= i < j < |r| ==> r[i] != r[j]
  {
    IotaCounts(size);
    forall i, j | 0 <= i < j < |r|
      ensures r[i] != r[j]
    {
      assert r == r[..j] + [r[j]] + r[j + 1..];
      assert multiset(r)[r[j]] >= multiset(r[..j])[r[j]] + 1;
      assert multiset(r[..j])[r[j]] == 0;
      assert r[..j][i] == r[i];
    }
  }

  lemma {:induction false} IotaCounts(size: nat)
    ensures forall v: nat :: multiset(Iota(size))[v] == if v < size then 1 else 0
  {
    if size > 0 {
      IotaCounts(size - 1);
      assert Iota(size) == Iota(size - 1) + [size - 1];
      forall v: nat
        ensures multiset(Iota(size))[v] == if v < size then 1 else 0
      {
        assert multiset(Iota(size))[v] == multiset(Iota(size - 1))[v] + multiset([size - 1])[v];
      }
    }
  }
}

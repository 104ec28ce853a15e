// Sharing the memory for all caches: each cache gets a number of boxes in
// proportion to a weight, and never none.

module CacheBudgets {
  import opened Arith
  import opened RamCaches

  const MEBIBYTE := 0x10_0000

  ghost function Sum(a: seq<real>): real {
    if a == [] then 0.0 else Sum(a[..|a| - 1]) + a[|a| - 1]
  }

  // How many boxes of pieceSize bytes fit into a share of the memory.
  function Fitting(share: real, pieceSize: nat): int
    requires pieceSize > 0
  {
    (share / pieceSize as real).Floor
  }

  function NewCap(share: real, pieceSize: nat): int
    requires pieceSize > 0
  {
    if Fitting(share, pieceSize) == 0 then 1 else Fitting(share, pieceSize)
  }

  // What a cache may take beyond its share: one box, if the share has no room
  // for any.
  function Excess(share: real, pieceSize: nat): real
    requires pieceSize > 0
  {
    if Fitting(share, pieceSize) == 0 then pieceSize as real else 0.0
  }

  lemma Product(a: int, b: nat)
    ensures (a * b) as real == a as real * b as real
  {
  }

  lemma Ordered(a: real, b: real, c: real)
    requires c > 0.0
    ensures a <= b ==> a * c <= b * c
    ensures a < b ==> a * c < b * c
  {
  }

  lemma FloorFits(share: real, pieceSize: nat)
    requires pieceSize > 0 && share >= 0.0
    ensures Fitting(share, pieceSize) >= 0
    ensures (Fitting(share, pieceSize) * pieceSize) as real <= share < ((Fitting(share, pieceSize) + 1) * pieceSize) as real
  {
    var quotient := share / pieceSize as real;
    assert quotient >= 0.0 && quotient * pieceSize as real == share;
    Between(share, pieceSize, quotient, Fitting(share, pieceSize));
  }

  lemma Between(share: real, pieceSize: nat, quotient: real, cap: int)
    requires pieceSize > 0 && quotient * pieceSize as real == share && cap as real <= quotient < (cap + 1) as real
    ensures (cap * pieceSize) as real <= share < ((cap + 1) * pieceSize) as real
  {
    Product(cap, pieceSize);
    Product(cap + 1, pieceSize);
    Ordered(cap as real, quotient, pieceSize as real);
    Ordered(quotient, (cap + 1) as real, pieceSize as real);
  }

  // The capacity is the greatest that fits the share, and one if none does.
  ghost predicate GreatestFit(cap: int, pieceSize: nat, share: real) {
    && cap >= 1 && (cap == 1 || (cap * pieceSize) as real <= share)
    && share < ((cap + 1) * pieceSize) as real
  }

  // No other capacity is.
  lemma OnlyOneFits(cap: int, cap': int, pieceSize: nat, share: real)
    requires GreatestFit(cap, pieceSize, share) && GreatestFit(cap', pieceSize, share)
    ensures cap == cap'
  {
    if cap < cap' {
      MulLe(cap + 1, cap', pieceSize);
    } else if cap' < cap {
      MulLe(cap' + 1, cap, pieceSize);
    }
  }

  lemma CapFits(share: real, pieceSize: nat)
    requires pieceSize > 0 && share >= 0.0
    ensures GreatestFit(NewCap(share, pieceSize), pieceSize, share)
    ensures share < pieceSize as real ==> NewCap(share, pieceSize) == 1
    ensures (NewCap(share, pieceSize) * pieceSize) as real <= share + Excess(share, pieceSize)
  {
    var cap := Fitting(share, pieceSize);
    FloorFits(share, pieceSize);
    if cap >= 1 { MulLe(1, cap, pieceSize); }
  }

  ghost function Shares(weights: seq<real>, factor: real): (r: seq<real>)
    ensures |r| == |weights| && forall i :: 0 <= i < |weights| ==> r[i] == factor * weights[i]
  {
    seq(|weights|, i requires 0 <= i < |weights| => factor * weights[i])
  }

  lemma {:induction false} SharesAddUp(weights: seq<real>, factor: real)
    ensures Sum(Shares(weights, factor)) == factor * Sum(weights)
    decreases |weights|
  {
    if weights != [] {
      var init := weights[..|weights| - 1];
      SharesAddUp(init, factor);
      var shares := Shares(weights, factor)[..|weights| - 1];
      forall i | 0 <= i < |init| ensures shares[i] == Shares(init, factor)[i] {
        assert init[i] == weights[i];
      }
      assert shares == Shares(init, factor);
      Distribute(factor, Sum(init), weights[|weights| - 1]);
    }
  }

  lemma Crosswise(f: real, a: real, b: real)
    ensures (f * a) * b == (f * b) * a
  {
  }

  lemma Distribute(f: real, a: real, b: real)
    ensures f * (a + b) == f * a + f * b
  {
  }

  ghost predicate Positive(weights: seq<real>) {
    forall i :: 0 <= i < |weights| ==> weights[i] > 0.0
  }

  lemma {:induction false} SumPositive(weights: seq<real>)
    requires Positive(weights)
    ensures Sum(weights) >= 0.0 && (weights != [] ==> Sum(weights) > 0.0)
    decreases |weights|
  {
    if weights != [] { SumPositive(weights[..|weights| - 1]); }
  }

  // The memory that the caches may use, and what that may be too much.
  ghost function Usage(shares: seq<real>, sizes: seq<nat>): (r: seq<real>)
    requires |sizes| == |shares| && forall i :: 0 <= i < |sizes| ==> sizes[i] > 0
    ensures |r| == |shares| && forall i :: 0 <= i < |shares| ==> r[i] == (NewCap(shares[i], sizes[i]) * sizes[i]) as real
  {
    seq(|shares|, i requires 0 <= i < |shares| => (NewCap(shares[i], sizes[i]) * sizes[i]) as real)
  }

  ghost function Excesses(shares: seq<real>, sizes: seq<nat>): (r: seq<real>)
    requires |sizes| == |shares| && forall i :: 0 <= i < |sizes| ==> sizes[i] > 0
    ensures |r| == |shares|
  {
    seq(|shares|, i requires 0 <= i < |shares| => Excess(shares[i], sizes[i]))
  }

  lemma {:induction false} UsageFits(shares: seq<real>, sizes: seq<nat>)
    requires |sizes| == |shares| && forall i :: 0 <= i < |sizes| ==> sizes[i] > 0 && shares[i] >= 0.0
    ensures Sum(Usage(shares, sizes)) <= Sum(shares) + Sum(Excesses(shares, sizes))
    decreases |shares|
  {
    if shares != [] {
      var n := |shares| - 1;
      UsageFits(shares[..n], sizes[..n]);
      assert Usage(shares, sizes)[..n] == Usage(shares[..n], sizes[..n]);
      assert Excesses(shares, sizes)[..n] == Excesses(shares[..n], sizes[..n]);
      CapFits(shares[n], sizes[n]);
    }
  }

  // One piece for each cache.
  ghost function OnePieceEach(sizes: seq<nat>): (r: seq<real>)
    ensures |r| == |sizes| && forall i :: 0 <= i < |sizes| ==> r[i] == sizes[i] as real
  {
    seq(|sizes|, i requires 0 <= i < |sizes| => sizes[i] as real)
  }

  // The caches leave less than one piece each of the shares unused.
  lemma {:induction false} SharesAreUsed(shares: seq<real>, sizes: seq<nat>)
    requires |sizes| == |shares| && forall i :: 0 <= i < |sizes| ==> sizes[i] > 0 && shares[i] >= 0.0
    ensures Sum(shares) <= Sum(Usage(shares, sizes)) + Sum(OnePieceEach(sizes))
    ensures shares != [] ==> Sum(shares) < Sum(Usage(shares, sizes)) + Sum(OnePieceEach(sizes))
    decreases |shares|
  {
    if shares != [] {
      var n := |shares| - 1;
      SharesAreUsed(shares[..n], sizes[..n]);
      assert Usage(shares, sizes)[..n] == Usage(shares[..n], sizes[..n]);
      assert OnePieceEach(sizes)[..n] == OnePieceEach(sizes[..n]);
      CapFits(shares[n], sizes[n]);
      var cap, size := NewCap(shares[n], sizes[n]), sizes[n];
      assert ((cap + 1) * size) as real == (cap * size) as real + size as real;
    }
  }

  // All caches together stay within the budget, up to one box for each cache
  // that would have got none, and leave less than one box each of it unused.
  lemma BudgetHolds(weights: seq<real>, sizes: seq<nat>, capacity: nat)
    requires |sizes| == |weights| > 0 && Positive(weights) && forall i :: 0 <= i < |sizes| ==> sizes[i] > 0
    ensures Sum(weights) > 0.0
    ensures var shares := Shares(weights, (capacity * MEBIBYTE) as real / Sum(weights));
      && Sum(Usage(shares, sizes)) <= (capacity * MEBIBYTE) as real + Sum(Excesses(shares, sizes))
      && (capacity * MEBIBYTE) as real < Sum(Usage(shares, sizes)) + Sum(OnePieceEach(sizes))
  {
    SumPositive(weights);
    var factor := (capacity * MEBIBYTE) as real / Sum(weights);
    var shares := Shares(weights, factor);
    assert factor >= 0.0;
    forall i | 0 <= i < |shares| ensures shares[i] >= 0.0 {
      assert factor * weights[i] >= 0.0;
    }
    SharesAddUp(weights, factor);
    UsageFits(shares, sizes);
    SharesAreUsed(shares, sizes);
  }

  ghost function Sizes(caches: seq<RAMCache>): (r: seq<nat>)
    requires forall i :: 0 <= i < |caches| ==> caches[i].pieceSize > 0
    ensures |r| == |caches| && forall i :: 0 <= i < |caches| ==> r[i] == caches[i].pieceSize > 0
  {
    seq(|caches|, i requires 0 <= i < |caches| => caches[i].pieceSize)
  }

  // The bytes that each cache may use.
  ghost function Memory(caches: seq<RAMCache>): (r: seq<real>)
    reads caches
    ensures |r| == |caches| && forall i :: 0 <= i < |caches| ==> r[i] == (caches[i].capacity * caches[i].pieceSize) as real
  {
    seq(|caches|, i requires 0 <= i < |caches| reads caches => (caches[i].capacity * caches[i].pieceSize) as real)
  }

  class RAMCacheProvider {
    const capacity: nat

    constructor (capacity: nat)
      ensures this.capacity == capacity
    {
      this.capacity := capacity;
    }

    ghost function SharesOf(weights: seq<real>): seq<real>
      requires weights != [] && Positive(weights)
    {
      SumPositive(weights);
      Shares(weights, (capacity * MEBIBYTE) as real / Sum(weights))
    }

    method ScalingFactor(weights: seq<real>) returns (scalingFactor: real)
      requires weights != [] && Positive(weights)
      ensures Shares(weights, scalingFactor) == SharesOf(weights) && scalingFactor >= 0.0
    {
      var scalingTotal := 0.0;
      for i := 0 to |weights|
        invariant scalingTotal == Sum(weights[..i])
      {
        assert weights[..i + 1][..i] == weights[..i];
        scalingTotal := scalingTotal + weights[i];
      }
      assert weights[..|weights|] == weights;
      SumPositive(weights);
      scalingFactor := (capacity * MEBIBYTE) as real / scalingTotal;
    }

    // The cache works and has the capacity of its share.
    ghost predicate HasShare(cache: RAMCache, share: real)
      reads cache
    {
      cache.Valid() && cache.pieceSize > 0 && cache.capacity == NewCap(share, cache.pieceSize)
    }

    // The cache holds nothing that is committed, unless it is within its capacity.
    ghost predicate Trimmed(cache: RAMCache)
      reads cache
    {
      cache.Valid() && (cache.actualUsage > cache.capacity ==> forall j :: 0 <= j < |cache.store| ==> !cache.View()[j].committed)
    }

    // Every cache gets the greatest capacity that fits its share of the memory,
    // which is in proportion to its weight, and at least one box. The trimming
    // that may follow only drops what is committed.
    method Rebalance(caches: seq<RAMCache>, weights: seq<real>, shouldTrim: bool)
      requires |weights| == |caches| > 0 && Positive(weights)
      requires forall i, j :: 0 <= i < j < |caches| ==> caches[i] != caches[j]
      requires forall i :: 0 <= i < |caches| ==> caches[i].Valid()
      modifies caches
      ensures forall i :: 0 <= i < |caches| ==> HasShare(caches[i], SharesOf(weights)[i])
      ensures forall i :: 0 <= i < |caches| ==> caches[i].pieceSize > 0
      ensures forall i :: 0 <= i < |caches| ==>
        GreatestFit(caches[i].capacity, caches[i].pieceSize, SharesOf(weights)[i])
      ensures Sum(Memory(caches)) <= (capacity * MEBIBYTE) as real + Sum(Excesses(SharesOf(weights), Sizes(caches)))
      ensures (capacity * MEBIBYTE) as real < Sum(Memory(caches)) + Sum(OnePieceEach(Sizes(caches)))
      ensures shouldTrim ==> forall i :: 0 <= i < |caches| ==> Trimmed(caches[i])
    {
      var scalingFactor := ScalingFactor(weights);
      SetShares(caches, weights, scalingFactor);
      if shouldTrim {
        TrimAll(caches, SharesOf(weights));
      }
      TotalFits(caches, weights);
      EachFits(caches, weights);
    }

    lemma EachFits(caches: seq<RAMCache>, weights: seq<real>)
      requires |weights| == |caches| > 0 && Positive(weights)
      requires forall i :: 0 <= i < |caches| ==> HasShare(caches[i], SharesOf(weights)[i])
      ensures forall i :: 0 <= i < |caches| ==>
        GreatestFit(caches[i].capacity, caches[i].pieceSize, SharesOf(weights)[i])
    {
      forall i | 0 <= i < |caches| ensures GreatestFit(caches[i].capacity, caches[i].pieceSize, SharesOf(weights)[i]) {
        assert HasShare(caches[i], SharesOf(weights)[i]);
        SharePositive(weights, i);
        CapFits(SharesOf(weights)[i], caches[i].pieceSize);
      }
    }

    lemma SharePositive(weights: seq<real>, i: nat)
      requires weights != [] && Positive(weights) && i < |weights|
      ensures SharesOf(weights)[i] >= 0.0
    {
      SumPositive(weights);
      var factor := (capacity * MEBIBYTE) as real / Sum(weights);
      assert factor >= 0.0;
    }

    // The shares are in proportion to the weights, and together the whole memory.
    lemma SharesAreFair(weights: seq<real>)
      requires weights != [] && Positive(weights)
      ensures |SharesOf(weights)| == |weights| && Sum(SharesOf(weights)) == (capacity * MEBIBYTE) as real
      ensures forall i, j :: 0 <= i < |weights| && 0 <= j < |weights| ==>
        SharesOf(weights)[i] * weights[j] == SharesOf(weights)[j] * weights[i]
    {
      SumPositive(weights);
      var factor := (capacity * MEBIBYTE) as real / Sum(weights);
      SharesAddUp(weights, factor);
      forall i, j | 0 <= i < |weights| && 0 <= j < |weights|
        ensures SharesOf(weights)[i] * weights[j] == SharesOf(weights)[j] * weights[i]
      {
        Crosswise(factor, weights[i], weights[j]);
      }
    }

    lemma TotalFits(caches: seq<RAMCache>, weights: seq<real>)
      requires |weights| == |caches| > 0 && Positive(weights)
      requires forall i :: 0 <= i < |caches| ==> HasShare(caches[i], SharesOf(weights)[i])
      requires forall i :: 0 <= i < |caches| ==> caches[i].pieceSize > 0
      ensures Sum(Memory(caches)) <= (capacity * MEBIBYTE) as real + Sum(Excesses(SharesOf(weights), Sizes(caches)))
      ensures (capacity * MEBIBYTE) as real < Sum(Memory(caches)) + Sum(OnePieceEach(Sizes(caches)))
    {
      BudgetHolds(weights, Sizes(caches), capacity);
      assert Memory(caches) == Usage(SharesOf(weights), Sizes(caches));
    }

    method SetShares(caches: seq<RAMCache>, weights: seq<real>, scalingFactor: real)
      requires |weights| == |caches| && Positive(weights) && scalingFactor >= 0.0
      requires forall i, j :: 0 <= i < j < |caches| ==> caches[i] != caches[j]
      requires forall i :: 0 <= i < |caches| ==> caches[i].Valid()
      modifies caches`capacity
      ensures forall i :: 0 <= i < |caches| ==> HasShare(caches[i], Shares(weights, scalingFactor)[i])
    {
      ghost var shares := Shares(weights, scalingFactor);
      for i := 0 to |caches|
        invariant forall j :: i <= j < |caches| ==> caches[j].Valid()
        invariant forall j :: 0 <= j < i ==> HasShare(caches[j], shares[j])
      {
        assert scalingFactor * weights[i] >= 0.0;
        SetShare(caches[i], scalingFactor * weights[i]);
      }
    }

    method TrimAll(caches: seq<RAMCache>, ghost shares: seq<real>)
      requires |shares| == |caches| && forall i :: 0 <= i < |caches| ==> HasShare(caches[i], shares[i])
      requires forall i, j :: 0 <= i < j < |caches| ==> caches[i] != caches[j]
      modifies caches
      ensures forall i :: 0 <= i < |caches| ==> HasShare(caches[i], shares[i]) && Trimmed(caches[i])
    {
      for i := 0 to |caches|
        invariant forall j :: 0 <= j < |caches| ==> HasShare(caches[j], shares[j])
        invariant forall j :: 0 <= j < i ==> Trimmed(caches[j])
      {
        TrimOne(caches[i]);
      }
    }

    method SetShare(cache: RAMCache, share: real)
      requires cache.Valid() && share >= 0.0
      modifies cache`capacity
      ensures HasShare(cache, share)
    {
      ghost var boxes := cache.View();
      var newCap := (share / cache.pieceSize as real).Floor;
      CapFits(share, cache.pieceSize);
      if newCap == 0 {
        newCap := 1;
      }
      cache.SetCapacity(newCap);
      assert cache.View() == boxes;
    }

    method TrimOne(cache: RAMCache)
      requires cache.Valid()
      modifies cache
      ensures Trimmed(cache) && cache.capacity == old(cache.capacity)
    {
      var under;
      ghost var dropped;
      under, dropped := cache.TrimCommitted();
    }
  }
}

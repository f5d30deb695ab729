/** Sizing XGQs for a region of memory and laying a group of them out in it. */
module XgqAlloc {
  import opened Bits
  import opened XgqSetup

  /** Bytes taken by one queue of `n` slots for each slot size. */
  function TotalLen(n: nat, sizes: seq<u32>): nat {
    if sizes == [] then 0
    else TotalLen(n, sizes[..|sizes| - 1]) + RingLen(n, sizes[|sizes| - 1])
  }

  /** The doubling loop of xgq_alloc_num_slots from a given point, with its 32-bit running total. */
  function NumSlotsFrom(rlen: nat, sizes: seq<u32>, numSlots: u32, total: u32): (n: u32)
    requires numSlots >= 1
    ensures 2 * n >= numSlots - 1
    decreases 0x1_0000_0000 - numSlots
  {
    if total <= rlen && numSlots < 0x8000_0000 then
      NumSlotsFrom(rlen, sizes, 2 * numSlots, Wrap32(TotalLen(2 * numSlots, sizes)))
    else numSlots / 2
  }

  function NumSlots(rlen: nat, sizes: seq<u32>): u32 {
    NumSlotsFrom(rlen, sizes, 1, 0)
  }

  method AllocNumSlots(rlen: nat, sizes: seq<u32>) returns (n: u32)
    ensures n == NumSlots(rlen, sizes)
  {
    var total: u32, numSlots: u32 := 0, 1;
    while total <= rlen && numSlots < 0x8000_0000
      invariant numSlots >= 1
      invariant NumSlotsFrom(rlen, sizes, numSlots, total) == NumSlots(rlen, sizes)
      decreases 0x1_0000_0000 - numSlots
    {
      numSlots := 2 * numSlots;
      var i := 0;
      total := 0;
      while i < |sizes|
        invariant 0 <= i <= |sizes|
        invariant total == Wrap32(TotalLen(numSlots, sizes[..i]))
      {
        WrapAdd(TotalLen(numSlots, sizes[..i]), RingLen(numSlots, sizes[i]));
        total := Wrap32(total + RingLen(numSlots, sizes[i]));
        assert sizes[..i + 1][..i] == sizes[..i];
        i := i + 1;
      }
      assert sizes[..|sizes|] == sizes;
    }
    n := numSlots / 2;
  }

  // ---- the answer is the largest power of two that fits ----

  lemma RingLenDoubles(n: nat, size: nat)
    ensures RingLen(n, size) + COM_ENTRY_SIZE * n <= RingLen(2 * n, size) <= 2 * RingLen(n, size)
  {
    MulMonotone(n, COM_ENTRY_SIZE, size + COM_ENTRY_SIZE);
    assert (2 * n) * (size + COM_ENTRY_SIZE) == 2 * (n * (size + COM_ENTRY_SIZE));
  }

  lemma {:induction false} TotalLenDoubles(n: nat, sizes: seq<u32>)
    ensures TotalLen(n, sizes) <= TotalLen(2 * n, sizes) <= 2 * TotalLen(n, sizes)
    ensures |sizes| >= 1 ==> TotalLen(n, sizes) >= COM_ENTRY_SIZE * n
    decreases |sizes|
  {
    if sizes != [] {
      TotalLenDoubles(n, sizes[..|sizes| - 1]);
      RingLenDoubles(n, sizes[|sizes| - 1]);
      MulMonotone(n, COM_ENTRY_SIZE, sizes[|sizes| - 1] + COM_ENTRY_SIZE);
    }
  }

  lemma {:induction false} TotalLenMonotone(j: nat, k: nat, sizes: seq<u32>)
    requires j <= k
    ensures TotalLen(Pow2(j), sizes) <= TotalLen(Pow2(k), sizes)
    decreases k - j
  {
    if j < k {
      TotalLenDoubles(Pow2(j), sizes);
      TotalLenMonotone(j + 1, k, sizes);
    }
  }

  /** `n` is the largest power of two of slots that fits, or 1 when not even two slots fit. */
  ghost predicate LargestFit(n: nat, rlen: nat, sizes: seq<u32>) {
    && IsPow2(n)
    && (n >= 2 ==> TotalLen(n, sizes) <= rlen)
    && forall p: nat :: IsPow2(p) && p > n ==> TotalLen(p, sizes) > rlen
  }

  /** Above a size that does not fit, nothing fits. */
  lemma FirstMisfit(k: nat, rlen: nat, sizes: seq<u32>)
    requires TotalLen(Pow2(k + 1), sizes) > rlen
    ensures forall p: nat :: IsPow2(p) && p > Pow2(k) ==> TotalLen(p, sizes) > rlen
  {
    forall p: nat | IsPow2(p) && p > Pow2(k) ensures TotalLen(p, sizes) > rlen {
      var j: nat :| p == Pow2(j);
      if j <= k { Pow2Monotone(j, k); }
      TotalLenMonotone(k + 1, j, sizes);
    }
  }

  /** While the true totals fit, the loop follows them, up to the largest size that fits. */
  lemma {:induction false} LoopReaches(rlen: nat, sizes: seq<u32>, j: nat, k: nat, total: u32)
    requires |sizes| >= 1 && rlen < 0x1_0000_0000 && j <= k && k < 30
    requires total == (if j == 0 then 0 else TotalLen(Pow2(j), sizes)) && total <= rlen
    requires k == 0 || TotalLen(Pow2(k), sizes) <= rlen
    ensures Pow2(j) < 0x1_0000_0000 && Pow2(k + 1) < 0x1_0000_0000
    ensures NumSlotsFrom(rlen, sizes, Pow2(j), total)
         == NumSlotsFrom(rlen, sizes, Pow2(k + 1), Wrap32(TotalLen(Pow2(k + 1), sizes)))
    decreases k - j
  {
    Pow2Of32();
    Pow2Monotone(k + 1, 30);
    Pow2Monotone(j, 30);
    if j < k {
      TotalLenMonotone(j + 1, k, sizes);
      WrapSmall(TotalLen(Pow2(j + 1), sizes));
      LoopReaches(rlen, sizes, j + 1, k, TotalLen(Pow2(j + 1), sizes));
    }
  }

  lemma FitIsSmall(k: nat, rlen: nat, sizes: seq<u32>)
    requires |sizes| >= 1 && rlen < 0x1_0000_0000
    requires k == 0 || TotalLen(Pow2(k), sizes) <= rlen
    ensures k < 28
  {
    if k >= 28 {
      TotalLenDoubles(Pow2(k), sizes);
      Pow2Monotone(28, k);
      Pow2Of32();
    }
  }

  /** A region of 4 GB or more is never exceeded by a 32-bit total, so the loop runs out. */
  lemma {:induction false} LoopRunsOut(rlen: nat, sizes: seq<u32>, j: nat, total: u32)
    requires rlen >= 0x1_0000_0000 && j <= 31
    ensures Pow2(j) < 0x1_0000_0000 && NumSlotsFrom(rlen, sizes, Pow2(j), total) == 0x4000_0000
    decreases 31 - j
  {
    Pow2Of32();
    Pow2Monotone(j, 31);
    if j < 31 {
      Pow2Monotone(j, 30);
      LoopRunsOut(rlen, sizes, j + 1, Wrap32(TotalLen(Pow2(j + 1), sizes)));
    }
  }

  lemma NumSlotsBelow4G(rlen: nat, sizes: seq<u32>, n: nat)
    requires rlen < 0x1_0000_0000 && LargestFit(n, rlen, sizes)
    ensures n < 0x4000_0000
    ensures NumSlots(rlen, sizes) == n <==> Wrap32(TotalLen(2 * n, sizes)) > rlen
  {
    var k: nat :| n == Pow2(k);
    if k > 0 { assert Pow2(k) >= 2; }
    assert Pow2(k + 1) == 2 * n && IsPow2(2 * n);
    assert TotalLen(2 * n, sizes) > rlen && sizes != [];
    FitIsSmall(k, rlen, sizes);
    LoopReaches(rlen, sizes, 0, k, 0);
    Pow2Of32();
    Pow2Monotone(k + 2, 30);
    assert Pow2(k + 2) == 4 * n;
  }

  /**
   * For regions of any size, xgq_alloc_num_slots finds the largest size that fits exactly when the first
   * size that does not fit is not hidden by the 32-bit running total, or the answer is the last one the
   * loop can give.
   */
  lemma NumSlotsExact(rlen: nat, sizes: seq<u32>, n: nat)
    requires LargestFit(n, rlen, sizes)
    ensures NumSlots(rlen, sizes) == n <==> Wrap32(TotalLen(2 * n, sizes)) > rlen || n == 0x4000_0000
  {
    if rlen < 0x1_0000_0000 {
      NumSlotsBelow4G(rlen, sizes, n);
    } else {
      LoopRunsOut(rlen, sizes, 0, 0);
    }
  }

  /** Sizes for which the running total cannot wrap before the loop stops. */
  ghost predicate Bounded(rlen: nat, sizes: seq<u32>) {
    |sizes| >= 1 && rlen < 0x8000_0000 && TotalLen(2, sizes) < 0x1_0000_0000
  }

  lemma {:induction false} LargestFitExists(k: nat, rlen: nat, sizes: seq<u32>) returns (n: nat)
    requires |sizes| >= 1 && rlen < 0x1_0000_0000
    requires k == 0 || TotalLen(Pow2(k), sizes) <= rlen
    ensures LargestFit(n, rlen, sizes)
    decreases 28 - k
  {
    FitIsSmall(k, rlen, sizes);
    if TotalLen(Pow2(k + 1), sizes) > rlen {
      FirstMisfit(k, rlen, sizes);
      n := Pow2(k);
    } else {
      n := LargestFitExists(k + 1, rlen, sizes);
    }
  }

  /** Within those bounds the answer is always the largest that fits. */
  lemma NumSlotsLargest(rlen: nat, sizes: seq<u32>)
    requires Bounded(rlen, sizes)
    ensures LargestFit(NumSlots(rlen, sizes), rlen, sizes)
  {
    var n := LargestFitExists(0, rlen, sizes);
    TotalLenDoubles(n, sizes);
    var k: nat :| n == Pow2(k);
    assert 2 * n == Pow2(k + 1) && IsPow2(2 * n);
    WrapSmall(TotalLen(2 * n, sizes));
    NumSlotsExact(rlen, sizes, n);
  }

  /** Outside them it can promise slots that are not there: 2 slots of 2 GB in 100 bytes. */
  lemma NumSlotsCanWrap()
    ensures NumSlots(100, [0x7FFF_FFE0]) == 2
    ensures TotalLen(2, [0x7FFF_FFE0]) > 100
  {
    var sizes: seq<u32> := [0x7FFF_FFE0];
    assert sizes[..0] == [];
    assert TotalLen(2, sizes) == 0x1_0000_000C;
    assert TotalLen(4, sizes) == 0x1_FFFF_FFEC;
    assert NumSlotsFrom(100, sizes, 4, 0xFFFF_FFEC) == 2;
    assert NumSlotsFrom(100, sizes, 2, 12) == 2;
  }

  /** And it does for large regions: 20 GB of 4-byte slots in 5 GB. */
  lemma NumSlotsOverrunsLargeRegion()
    ensures NumSlots(0x1_4000_0000, [4]) == 0x4000_0000
    ensures TotalLen(0x4000_0000, [4]) > 0x5_0000_0000
  {
    var sizes: seq<u32> := [4];
    LoopRunsOut(0x1_4000_0000, sizes, 0, 0);
    assert sizes[..0] == [];
    assert TotalLen(0x4000_0000, sizes) == RingLen(0x4000_0000, 4);
  }
}

/** One ring of an XGQ: the software copy an endpoint keeps, and the shared words it talks through. */
module XgqRing {
  import opened Bits

  /** Shared memory and registers, addressed by byte and accessed one 32-bit word at a time. */
  type Memory = map<nat, u32>

  function Read(m: Memory, a: nat): u32 {
    if a in m then m[a] else 0
  }

  /** The part of a ring both endpoints must agree on. */
  datatype Geometry = Geometry(slotNum: u32, slotSz: u32, producedAddr: nat, consumedAddr: nat, slotAddr: nat)

  /** An endpoint's copy: its own free-running counter and the last peer counter it read. */
  datatype Ring = Ring(geo: Geometry, produced: u32, consumed: u32)

  /** The address handed out, or -ENOSPC / -ENOENT. */
  datatype SlotResult = NoSlot | Slot(addr: nat)

  predicate Full(r: Ring) {
    Sub32(r.produced, r.consumed) >= r.geo.slotNum
  }

  predicate Empty(r: Ring) {
    r.produced == r.consumed
  }

  function ReadProduced(r: Ring, m: Memory): Ring {
    r.(produced := Read(m, r.geo.producedAddr))
  }

  function ReadConsumed(r: Ring, m: Memory): Ring {
    r.(consumed := Read(m, r.geo.consumedAddr))
  }

  function WriteProduced(r: Ring, m: Memory): Memory {
    m[r.geo.producedAddr := r.produced]
  }

  function WriteConsumed(r: Ring, m: Memory): Memory {
    m[r.geo.consumedAddr := r.consumed]
  }

  /** The slot of a counter value; the product is a 32-bit one. */
  function SlotPtr(g: Geometry, counter: u32): nat {
    g.slotAddr + Mul32(g.slotSz, And(counter, Sub32(g.slotNum, 1)))
  }

  /** The producer's copy after the room check: the peer is consulted only when the ring looks full. */
  function AfterCanProduce(r: Ring, m: Memory): Ring {
    if Full(r) then ReadConsumed(r, m) else r
  }

  function AfterCanConsume(r: Ring, m: Memory): Ring {
    if Empty(r) then ReadProduced(r, m) else r
  }

  function Produce(r: Ring, m: Memory): (SlotResult, Ring) {
    var c := AfterCanProduce(r, m);
    if Full(c) then (NoSlot, c)
    else (Slot(SlotPtr(c.geo, c.produced)), c.(produced := Inc32(c.produced)))
  }

  function Consume(r: Ring, m: Memory): (SlotResult, Ring) {
    var c := AfterCanConsume(r, m);
    if Empty(c) then (NoSlot, c)
    else (Slot(SlotPtr(c.geo, c.consumed)), c.(consumed := Inc32(c.consumed)))
  }

  /** Fast forward to what the shared words say. */
  function FastForward(r: Ring, m: Memory): Ring {
    ReadConsumed(ReadProduced(r, m), m)
  }

  // ---- geometry facts ----

  /** The words of one slot. */
  function SlotWords(m: Memory, a: nat, n: nat): (ws: seq<u32>)
    ensures |ws| == n
  {
    seq(n, k requires 0 <= k < n => Read(m, a + 4 * k))
  }

  /** The slot of the unbounded counter value `i`. */
  function SlotOf(g: Geometry, i: nat): nat
    requires g.slotNum > 0
  {
    g.slotAddr + g.slotSz * (i % g.slotNum)
  }

  /** End of the slot area. */
  function SlotEnd(g: Geometry): nat {
    g.slotAddr + g.slotSz * g.slotNum
  }

  /** The addresses a ring owns: its two pointer words and its slots. */
  ghost predicate Owns(g: Geometry, a: nat) {
    a == g.producedAddr || a == g.consumedAddr || g.slotAddr <= a < SlotEnd(g)
  }

  /**
   * What xgq_alloc and xgq_attach establish of a ring: a power of two of slots, whole words,
   * offsets that fit the 32-bit multiplication, and pointer words outside the slots.
   */
  ghost predicate ValidGeometry(g: Geometry) {
    && IsPow2(g.slotNum)
    && g.slotSz % 4 == 0
    && g.slotSz * g.slotNum <= 0x1_0000_0000
    && g.producedAddr != g.consumedAddr
    && !(g.slotAddr <= g.producedAddr < SlotEnd(g))
    && !(g.slotAddr <= g.consumedAddr < SlotEnd(g))
  }

  lemma SlotInside(g: Geometry, i: nat)
    requires g.slotNum > 0
    ensures g.slotAddr <= SlotOf(g, i) && SlotOf(g, i) + g.slotSz <= SlotEnd(g)
  {
    var j := i % g.slotNum;
    assert j <= g.slotNum - 1;
    assert g.slotSz * j <= g.slotSz * (g.slotNum - 1);
    assert g.slotSz * (g.slotNum - 1) == g.slotSz * g.slotNum - g.slotSz;
  }

  lemma ProductFits(sz: u32, j: u32, n: nat)
    requires j < n && sz * n <= 0x1_0000_0000
    ensures Mul32(sz, j) == sz * j
  {
    ProductBelow(sz, j, n, 0x1_0000_0000);
    WrapSmall(sz * j);
  }

  lemma MaskFindsIndex(n: u32, i: nat)
    requires IsPow2(n)
    ensures n > 0 && And(Wrap32(i), Sub32(n, 1)) == i % n
  {
    PowerDividesWord(n, i);
    WrapSmall(n - 1);
    var k: nat :| n == Pow2(k);
    AndMask(Wrap32(i), k);
  }

  /** The masked 32-bit computation finds the slot of the unbounded counter, for every counter value. */
  lemma SlotPtrFindsSlot(g: Geometry, i: nat)
    requires IsPow2(g.slotNum) && g.slotSz * g.slotNum <= 0x1_0000_0000
    ensures g.slotNum > 0 && SlotPtr(g, Wrap32(i)) == SlotOf(g, i)
  {
    MaskFindsIndex(g.slotNum, i);
    var j := i % g.slotNum;
    ProductFits(g.slotSz, j, g.slotNum);
  }

  lemma NearCountersDiffer(n: nat, i: nat, j: nat)
    requires n > 0 && i < j < i + n
    ensures i % n != j % n
  {
    if i % n == j % n {
      DivMod(i, n);
      DivMod(j, n);
      var q := j / n - i / n;
      assert q * n == (j / n) * n - (i / n) * n;
      assert q * n == j - i;
      if q >= 1 {
        MulAtLeast(q, n);
      }
    }
  }

  /** Entries less than a ring apart never share a byte. */
  lemma SlotsDisjoint(g: Geometry, i: nat, j: nat)
    requires g.slotNum > 0 && i < j < i + g.slotNum
    ensures SlotOf(g, i) + g.slotSz <= SlotOf(g, j) || SlotOf(g, j) + g.slotSz <= SlotOf(g, i)
  {
    NearCountersDiffer(g.slotNum, i, j);
    var a, b := i % g.slotNum, j % g.slotNum;
    if a < b {
      assert g.slotSz * (a + 1) <= g.slotSz * b;
      assert g.slotSz * (a + 1) == g.slotSz * a + g.slotSz;
    } else {
      assert g.slotSz * (b + 1) <= g.slotSz * a;
      assert g.slotSz * (b + 1) == g.slotSz * b + g.slotSz;
    }
  }

  /** A slot's words depend only on the addresses inside it. */
  lemma SlotWordsFrame(m: Memory, m': Memory, a: nat, n: nat)
    requires forall k :: 0 <= k < n ==> Read(m, a + 4 * k) == Read(m', a + 4 * k)
    ensures SlotWords(m, a, n) == SlotWords(m', a, n)
  {
  }

  /** Overwriting one word of a block. */
  lemma WordUpdate(m: Memory, a: nat, n: nat, j: nat, v: u32)
    requires j < n
    ensures SlotWords(m[a + 4 * j := v], a, n) == SlotWords(m, a, n)[j := v]
  {
  }
}

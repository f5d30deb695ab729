/** A group of XGQs laid out in one region: disjoint, inside it, and every one attachable. */
module XgqGroup {
  import opened Bits
  import opened XgqRing
  import opened XgqProtocol
  import opened XgqNet
  import opened XgqSetup
  import opened XgqAlloc
  import XgqOutOfOrder

  /** A group always keeps its producer pointers in memory. */
  function GroupFlags(flags: u32): u32 {
    Wrap32(Or(flags, 4))
  }

  /** The other flags are as the caller gave them. */
  lemma GroupFlagsBits(flags: u32, k: nat)
    ensures Bit(GroupFlags(flags), k) <==> Bit(flags, k) || k == 2
  {
    Pow2Of32();
    OrBounded(flags, 4, 32);
    WrapSmall(Or(flags, 4));
    assert Pow2(2) == 4;
    BitOfPow2(2, k);
    OrBit(flags, 4, k);
  }

  lemma GroupFlagsInMem(flags: u32)
    ensures InMemProd(GroupFlags(flags))
  {
    GroupFlagsBits(flags, 2);
    FlagBits(GroupFlags(flags));
  }

  /** Where queue `i` of the group starts. */
  function Base(ringAddr: nat, n: nat, sizes: seq<u32>, i: nat): nat
    requires i <= |sizes|
  {
    ringAddr + TotalLen(n, sizes[..i])
  }

  function ArgsOf(flags: u32, ringAddr: nat, n: u32, sizes: seq<u32>, i: nat): InitArgs
    requires i < |sizes|
  {
    InitArgs(GroupFlags(flags), Base(ringAddr, n, sizes, i), n, sizes[i], 0, 0)
  }

  /** Shared memory after the first `k` queues are initialised. */
  function GroupMemory(m: Memory, flags: u32, ringAddr: nat, n: u32, sizes: seq<u32>, k: nat): Memory
    requires k <= |sizes|
  {
    if k == 0 then m
    else InitMemory(GroupMemory(m, flags, ringAddr, n, sizes, k - 1),
                    ArgsOf(flags, ringAddr, n, sizes, k - 1), INIT_WRITES)
  }

  /** Queue `i` as its own initialisation leaves it. */
  function GroupQueue(m: Memory, flags: u32, ringAddr: nat, n: u32, sizes: seq<u32>, i: nat): Queue
    requires i < |sizes|
  {
    InitQueue(GroupMemory(m, flags, ringAddr, n, sizes, i), ArgsOf(flags, ringAddr, n, sizes, i))
  }

  /** Queues follow one another without overlap, and the last ends where the total says. */
  lemma {:induction false} Layout(ringAddr: nat, n: nat, sizes: seq<u32>, i: nat, j: nat)
    requires i < j <= |sizes|
    ensures Base(ringAddr, n, sizes, i) + RingLen(n, sizes[i]) <= Base(ringAddr, n, sizes, j)
    ensures Base(ringAddr, n, sizes, |sizes|) == ringAddr + TotalLen(n, sizes)
    decreases j
  {
    assert sizes[..j][..j - 1] == sizes[..j - 1];
    assert sizes[..|sizes|] == sizes;
    if i < j - 1 {
      Layout(ringAddr, n, sizes, i, j - 1);
      MulMonotone(n, 0, sizes[j - 1] + COM_ENTRY_SIZE);
    }
  }

  ghost predicate Intact(m: Memory, a: InitArgs, q: Queue) {
    SlotWords(m, a.ringAddr, 11) == FinishedHeader(a, q.sq.produced, q.cq.produced) && RingsEmpty(m, q)
  }

  lemma InitIsIntact(m: Memory, a: InitArgs)
    requires InMemProd(a.flags)
    ensures Intact(InitMemory(m, a, INIT_WRITES), a, InitQueue(m, a))
  {
    InitHeader(m, a);
    InitRingsEmpty(m, a);
  }

  /** Initialising a queue elsewhere leaves a finished one intact. */
  lemma IntactFrame(m: Memory, a: InitArgs, q: Queue, b: InitArgs)
    requires Intact(m, a, q) && InMemProd(a.flags) && InMemProd(b.flags)
    requires q.sq.geo == SqGeometry(a) && q.cq.geo == CqGeometry(a)
    requires a.ringAddr + HEADER_SIZE <= b.ringAddr
    ensures Intact(InitMemory(m, b, INIT_WRITES), a, q)
  {
    var m' := InitMemory(m, b, INIT_WRITES);
    forall x: nat | a.ringAddr <= x < a.ringAddr + HEADER_SIZE ensures Read(m', x) == Read(m, x) {
      InitFrame(m, b, x);
    }
    SlotWordsFrame(m, m', a.ringAddr, 11);
  }

  /** After all initialisations, every queue of the group is intact. */
  lemma {:induction false} GroupIntact(m: Memory, flags: u32, ringAddr: nat, n: u32, sizes: seq<u32>, k: nat, i: nat)
    requires i < k <= |sizes|
    ensures Intact(GroupMemory(m, flags, ringAddr, n, sizes, k),
                   ArgsOf(flags, ringAddr, n, sizes, i), GroupQueue(m, flags, ringAddr, n, sizes, i))
    decreases k
  {
    GroupFlagsInMem(flags);
    var before := GroupMemory(m, flags, ringAddr, n, sizes, k - 1);
    var last := ArgsOf(flags, ringAddr, n, sizes, k - 1);
    if i == k - 1 {
      InitIsIntact(before, last);
    } else {
      GroupIntact(m, flags, ringAddr, n, sizes, k - 1, i);
      Layout(ringAddr, n, sizes, i, k - 1);
      MulMonotone(n, 0, sizes[i] + COM_ENTRY_SIZE);
      IntactFrame(before, ArgsOf(flags, ringAddr, n, sizes, i), GroupQueue(m, flags, ringAddr, n, sizes, i), last);
    }
  }

  lemma {:induction false} PartBelowTotal(n: nat, sizes: seq<u32>, i: nat)
    requires i < |sizes|
    ensures RingLen(n, sizes[i]) <= TotalLen(n, sizes)
  {
    Layout(0, n, sizes, i, |sizes|);
  }

  /** A server attaching to any queue of the group gets exactly that queue, or -EPROTO for its slot count. */
  lemma AttachToGroup(m: Memory, flags: u32, ringAddr: nat, n: u32, sizes: seq<u32>, i: nat, serverFlags: u32)
    requires i < |sizes| && TotalLen(n, sizes) < 0x1_0000_0000
    ensures var g := GroupMemory(m, flags, ringAddr, n, sizes, |sizes|);
            var q := GroupQueue(m, flags, ringAddr, n, sizes, i);
            var r := Attach(g, serverFlags, Base(ringAddr, n, sizes, i), 0, 0);
            if n >= MIN_NUM_SLOTS && IsPow2(n) then
              r.Attached? && r.queue.sq == q.sq && r.queue.cq == q.cq && r.mem == g
            else r == EProto
  {
    var g := GroupMemory(m, flags, ringAddr, n, sizes, |sizes|);
    var a := ArgsOf(flags, ringAddr, n, sizes, i);
    var q := GroupQueue(m, flags, ringAddr, n, sizes, i);
    GroupFlagsInMem(flags);
    GroupIntact(m, flags, ringAddr, n, sizes, |sizes|, i);
    PartBelowTotal(n, sizes, i);
    HeaderDecodes(g, a, q.sq.produced, q.cq.produced, serverFlags);
    SameInterrupt(g, a, serverFlags);
    ServerSeesClient(g, a, q, serverFlags);
  }

  // ---- from a laid-out group to runs of the protocol ----

  /** A ring as its two endpoints hold it, with nothing in it. */
  function IdlePair(prod: Ring, cons: Ring): RingState {
    var b := prod.produced;
    RingState(prod, cons, Hist(b, b, b, b, b, b, b, [], []))
  }

  /** Both rings of a queue: the client submits and the server completes. */
  function QueueRings(client: Queue, server: Queue): (rs: seq<RingState>)
    ensures |rs| == 2
  {
    [IdlePair(client.sq, server.sq), IdlePair(server.cq, client.cq)]
  }

  /** The addresses of a queue's rings, for any placement of the producer pointers. */
  lemma OwnedAddresses(a: InitArgs, x: nat)
    ensures Owns(SqGeometry(a), x) ==>
              x == SqGeometry(a).producedAddr || x == a.ringAddr + SQ_CONSUMED
              || a.ringAddr + HEADER_SIZE <= x < a.ringAddr + HEADER_SIZE + a.nSlots * a.slotSize
    ensures Owns(CqGeometry(a), x) ==>
              x == CqGeometry(a).producedAddr || x == a.ringAddr + CQ_CONSUMED
              || a.ringAddr + HEADER_SIZE + a.nSlots * a.slotSize <= x < a.ringAddr + RingLen(a.nSlots, a.slotSize)
  {
    assert a.nSlots * a.slotSize == a.slotSize * a.nSlots;
    assert a.nSlots * (a.slotSize + COM_ENTRY_SIZE) == a.nSlots * a.slotSize + COM_ENTRY_SIZE * a.nSlots;
  }

  /** The two rings of a well-sized queue never share an address. */
  lemma QueueRingsApart(a: InitArgs, x: nat)
    requires RegistersApart(a)
    ensures !(Owns(SqGeometry(a), x) && Owns(CqGeometry(a), x))
  {
    OwnedAddresses(a, x);
    MulMonotone(a.nSlots, 0, a.slotSize);
    MulMonotone(a.nSlots, a.slotSize, a.slotSize + COM_ENTRY_SIZE);
  }

  lemma GeometriesValid(a: InitArgs)
    requires WellSized(a) && IsPow2(a.nSlots)
    ensures ValidGeometry(SqGeometry(a)) && ValidGeometry(CqGeometry(a))
  {
    assert a.nSlots * a.slotSize == a.slotSize * a.nSlots;
    assert a.nSlots * (a.slotSize + COM_ENTRY_SIZE) == a.nSlots * a.slotSize + COM_ENTRY_SIZE * a.nSlots;
    MulMonotone(a.nSlots, 0, a.slotSize);
    QueueRingsApart(a, SqGeometry(a).producedAddr);
    QueueRingsApart(a, CqGeometry(a).producedAddr);
  }

  lemma EmptyRingsAreFresh(m: Memory, a: InitArgs, q: Queue)
    requires WellSized(a) && IsPow2(a.nSlots) && RingsEmpty(m, q)
    requires q.sq.geo == SqGeometry(a) && q.cq.geo == CqGeometry(a)
    ensures Fresh(IdlePair(q.sq, q.sq), m) && Fresh(IdlePair(q.cq, q.cq), m)
  {
    GeometriesValid(a);
  }

  /**
   * One queue, allocated and attached, is a fresh two-ring net, so that every run of it delivers in order,
   * exactly when the modes of client and server agree.
   */
  lemma AllocatedQueueIsFresh(m: Memory, a: InitArgs, flags: u32)
    requires WellSized(a) && a.nSlots >= MIN_NUM_SLOTS && IsPow2(a.nSlots)
    ensures var r := Attach(InitMemory(m, a, INIT_WRITES), flags, a.ringAddr, a.sqProduced, a.cqProduced);
            && r.Attached?
            && (FreshNet(Net(QueueRings(InitQueue(m, a), r.queue), r.mem)) <==> SameMode(a, flags))
  {
    AttachAfterInit(m, a, flags);
    var r := Attach(InitMemory(m, a, INIT_WRITES), flags, a.ringAddr, a.sqProduced, a.cqProduced);
    var net := Net(QueueRings(InitQueue(m, a), r.queue), r.mem);
    if SameMode(a, flags) {
      EmptyRingsAreFresh(r.mem, a, r.queue);
      forall x: nat ensures !(Owns(r.queue.sq.geo, x) && Owns(r.queue.cq.geo, x)) {
        QueueRingsApart(a, x);
      }
    } else {
      assert !Fresh(net.rings[0], net.mem);
    }
  }

  /** The addresses of a queue's slots, of both rings. */
  ghost predicate InSlots(a: InitArgs, x: nat) {
    a.ringAddr + HEADER_SIZE <= x < a.ringAddr + RingLen(a.nSlots, a.slotSize)
  }

  /** Setting up and attaching change no word of the slots. */
  lemma SlotsUntouched(m: Memory, a: InitArgs, x: nat)
    requires WellSized(a) && InSlots(a, x)
    ensures Read(EnableInterrupt(InitMemory(m, a, INIT_WRITES), a.flags, a.sqProduced), x) == Read(m, x)
  {
    if !InMemProd(a.flags) {
      assert Outside(a, a.sqProduced + INTR_ENABLE_OFFSET) && Outside(a, a.cqProduced + INTR_ENABLE_OFFSET);
    }
    InitFrame(m, a, x);
  }

  lemma SlotAddresses(a: InitArgs, e: nat)
    requires a.nSlots > 0
    ensures InSlots(a, SlotOf(SqGeometry(a), e)) && InSlots(a, SlotOf(CqGeometry(a), e))
  {
    SlotInside(SqGeometry(a), e);
    SlotInside(CqGeometry(a), e);
    assert a.nSlots * a.slotSize == a.slotSize * a.nSlots;
    assert a.nSlots * (a.slotSize + COM_ENTRY_SIZE) == a.nSlots * a.slotSize + COM_ENTRY_SIZE * a.nSlots;
  }

  /** A ring of a queue set up and attached, nothing in flight. */
  function IdleState(prod: Ring, cons: Ring, m: Memory): XgqOutOfOrder.State {
    XgqOutOfOrder.State(IdlePair(prod, cons), m, [], {})
  }

  lemma IdleFlagsClear(r: Ring, m: Memory)
    requires Fresh(IdlePair(r, r), m) && r.geo.slotNum > 0
    ensures XgqOutOfOrder.FreshFlags(IdleState(r, r, m))
            <==> r.geo.slotSz >= 4 && forall e: nat :: !XgqOutOfOrder.NewFlag(r.geo, m, e)
  {
  }

  /** No slot of either ring carries the flag, which is in its first word. */
  ghost predicate SlotsUnflagged(m: Memory, a: InitArgs)
    requires a.nSlots > 0
  {
    forall e: nat :: !XgqOutOfOrder.NewFlag(SqGeometry(a), m, e) && !XgqOutOfOrder.NewFlag(CqGeometry(a), m, e)
  }

  lemma FlagsUntouched(m: Memory, a: InitArgs, e: nat)
    requires WellSized(a) && a.nSlots > 0
    ensures var m' := EnableInterrupt(InitMemory(m, a, INIT_WRITES), a.flags, a.sqProduced);
            && (XgqOutOfOrder.NewFlag(SqGeometry(a), m', e) <==> XgqOutOfOrder.NewFlag(SqGeometry(a), m, e))
            && (XgqOutOfOrder.NewFlag(CqGeometry(a), m', e) <==> XgqOutOfOrder.NewFlag(CqGeometry(a), m, e))
  {
    SlotAddresses(a, e);
    SlotsUntouched(m, a, SlotOf(SqGeometry(a), e));
    SlotsUntouched(m, a, SlotOf(CqGeometry(a), e));
  }

  /**
   * An allocated and attached queue starts with all flags clear, so that no run of it, however its
   * doorbells overtake its entries, hands out a stale entry, exactly when the modes agree, entries have a
   * first word to carry the flag, and the memory it was given has no flag in a slot.
   */
  lemma AllocatedQueueFlagsClear(m: Memory, a: InitArgs, flags: u32)
    requires WellSized(a) && a.nSlots >= MIN_NUM_SLOTS && IsPow2(a.nSlots)
    ensures var r := Attach(InitMemory(m, a, INIT_WRITES), flags, a.ringAddr, a.sqProduced, a.cqProduced);
            var q := InitQueue(m, a);
            && r.Attached?
            && (&& XgqOutOfOrder.FreshFlags(IdleState(q.sq, r.queue.sq, r.mem))
                && XgqOutOfOrder.FreshFlags(IdleState(r.queue.cq, q.cq, r.mem))
                <==> SameMode(a, flags) && a.slotSize >= 4 && SlotsUnflagged(m, a))
  {
    AttachAfterInit(m, a, flags);
    var r := Attach(InitMemory(m, a, INIT_WRITES), flags, a.ringAddr, a.sqProduced, a.cqProduced);
    var q := InitQueue(m, a);
    if SameMode(a, flags) {
      EmptyRingsAreFresh(r.mem, a, r.queue);
      forall e: nat
        ensures XgqOutOfOrder.NewFlag(SqGeometry(a), r.mem, e) <==> XgqOutOfOrder.NewFlag(SqGeometry(a), m, e)
        ensures XgqOutOfOrder.NewFlag(CqGeometry(a), r.mem, e) <==> XgqOutOfOrder.NewFlag(CqGeometry(a), m, e)
      {
        FlagsUntouched(m, a, e);
      }
      IdleFlagsClear(q.sq, r.mem);
      IdleFlagsClear(q.cq, r.mem);
    } else {
      assert IdleState(q.sq, r.queue.sq, r.mem).ring.prod.geo != IdleState(q.sq, r.queue.sq, r.mem).ring.cons.geo;
    }
  }

  /** All rings of the group: submission ring of queue i at 2i, completion ring at 2i + 1. */
  function GroupRing(m: Memory, flags: u32, ringAddr: nat, n: u32, sizes: seq<u32>, k: nat): RingState
    requires k < 2 * |sizes|
  {
    var q := GroupQueue(m, flags, ringAddr, n, sizes, k / 2);
    var r := if k % 2 == 0 then q.sq else q.cq;
    IdlePair(r, r)
  }

  function GroupNet(m: Memory, flags: u32, ringAddr: nat, n: u32, sizes: seq<u32>): Net {
    Net(seq(2 * |sizes|, k requires 0 <= k < 2 * |sizes| => GroupRing(m, flags, ringAddr, n, sizes, k)),
        GroupMemory(m, flags, ringAddr, n, sizes, |sizes|))
  }

  /** With in-memory pointers a ring's addresses all lie inside its queue's block. */
  lemma OwnedInBlock(a: InitArgs, x: nat)
    requires InMemProd(a.flags) && (Owns(SqGeometry(a), x) || Owns(CqGeometry(a), x))
    ensures a.ringAddr <= x < a.ringAddr + RingLen(a.nSlots, a.slotSize)
  {
    OwnedAddresses(a, x);
    MulMonotone(a.nSlots, 0, a.slotSize);
    MulMonotone(a.nSlots, a.slotSize, a.slotSize + COM_ENTRY_SIZE);
  }

  /** Any two rings of the group are apart. */
  lemma GroupRingsApart(m: Memory, flags: u32, ringAddr: nat, n: u32, sizes: seq<u32>, j: nat, k: nat, x: nat)
    requires j < k < 2 * |sizes|
    ensures !(Owns(GroupRing(m, flags, ringAddr, n, sizes, j).Geo(), x)
              && Owns(GroupRing(m, flags, ringAddr, n, sizes, k).Geo(), x))
  {
    GroupFlagsInMem(flags);
    var a, b := ArgsOf(flags, ringAddr, n, sizes, j / 2), ArgsOf(flags, ringAddr, n, sizes, k / 2);
    if j / 2 == k / 2 {
      QueueRingsApart(a, x);
    } else if Owns(GroupRing(m, flags, ringAddr, n, sizes, j).Geo(), x)
              && Owns(GroupRing(m, flags, ringAddr, n, sizes, k).Geo(), x) {
      OwnedInBlock(a, x);
      OwnedInBlock(b, x);
      Layout(ringAddr, n, sizes, j / 2, k / 2);
    }
  }

  /** The slot count a group is given: the largest that fits, capped by a non-zero maximum. */
  function GroupSlots(rlen: nat, sizes: seq<u32>, maxSlots: u32): u32 {
    var n := NumSlots(rlen, sizes);
    if maxSlots != 0 && n > maxSlots then maxSlots else n
  }

  lemma {:induction false} TotalLenGrows(n: nat, n': nat, sizes: seq<u32>)
    requires n <= n'
    ensures TotalLen(n, sizes) <= TotalLen(n', sizes)
    decreases |sizes|
  {
    if sizes != [] {
      TotalLenGrows(n, n', sizes[..|sizes| - 1]);
      var w := sizes[|sizes| - 1] + COM_ENTRY_SIZE;
      MulMonotone(w, n, n');
      assert n * w == w * n && n' * w == w * n';
    }
  }

  lemma GroupRingFresh(m: Memory, flags: u32, ringAddr: nat, n: u32, sizes: seq<u32>, k: nat)
    requires k < 2 * |sizes| && sizes[k / 2] % 4 == 0
    requires IsPow2(n) && TotalLen(n, sizes) < 0x1_0000_0000
    ensures Fresh(GroupRing(m, flags, ringAddr, n, sizes, k), GroupMemory(m, flags, ringAddr, n, sizes, |sizes|))
  {
    GroupFlagsInMem(flags);
    GroupIntact(m, flags, ringAddr, n, sizes, |sizes|, k / 2);
    PartBelowTotal(n, sizes, k / 2);
    EmptyRingsAreFresh(GroupMemory(m, flags, ringAddr, n, sizes, |sizes|), ArgsOf(flags, ringAddr, n, sizes, k / 2),
                       GroupQueue(m, flags, ringAddr, n, sizes, k / 2));
  }

  lemma GroupNetFresh(m: Memory, flags: u32, ringAddr: nat, n: u32, sizes: seq<u32>)
    requires forall i :: 0 <= i < |sizes| ==> sizes[i] % 4 == 0
    requires IsPow2(n) && TotalLen(n, sizes) < 0x1_0000_0000
    ensures FreshNet(GroupNet(m, flags, ringAddr, n, sizes))
  {
    var net := GroupNet(m, flags, ringAddr, n, sizes);
    forall k | 0 <= k < 2 * |sizes| ensures Fresh(net.rings[k], net.mem) {
      GroupRingFresh(m, flags, ringAddr, n, sizes, k);
    }
    forall j, k, x: nat | 0 <= j < k < |net.rings|
      ensures !(Owns(net.rings[j].Geo(), x) && Owns(net.rings[k].Geo(), x))
    {
      GroupRingsApart(m, flags, ringAddr, n, sizes, j, k, x);
    }
  }

  /**
   * A group that xgq_group_alloc lays out has as many slots as fit, or the non-zero cap if that is fewer. It
   * stays inside its region, and is a fresh net of 2 rings per queue in which any two rings are apart,
   * provided such a cap is a power of two of at least two.
   */
  lemma GroupIsFresh(m: Memory, flags: u32, ringAddr: nat, rlen: nat, sizes: seq<u32>, maxSlots: u32)
    requires Bounded(rlen, sizes) && (forall i :: 0 <= i < |sizes| ==> sizes[i] % 4 == 0)
    requires NumSlots(rlen, sizes) >= MIN_NUM_SLOTS
    requires maxSlots == 0 || (maxSlots >= MIN_NUM_SLOTS && IsPow2(maxSlots))
    ensures var n := GroupSlots(rlen, sizes, maxSlots);
            && n >= MIN_NUM_SLOTS && IsPow2(n)
            && (if maxSlots != 0 && maxSlots <= NumSlots(rlen, sizes) then n == maxSlots
                else n == NumSlots(rlen, sizes))
            && TotalLen(n, sizes) <= rlen
            && FreshNet(GroupNet(m, flags, ringAddr, n, sizes))
  {
    var n := GroupSlots(rlen, sizes, maxSlots);
    NumSlotsLargest(rlen, sizes);
    TotalLenGrows(n, NumSlots(rlen, sizes), sizes);
    GroupNetFresh(m, flags, ringAddr, n, sizes);
  }
}

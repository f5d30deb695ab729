/** Setting up an XGQ: the header the client publishes, and the server's attach that reads it back. */
module XgqSetup {
  import opened Bits
  import opened XgqRing

  const ALLOC_MAGIC: u32 := 0x5847513F
  const VERSION: u32 := 0x1_0000
  const HEADER_SIZE := 44
  const COM_ENTRY_SIZE := 16
  const MIN_NUM_SLOTS := 2
  const INTR_ENABLE_OFFSET := 12

  // Byte offsets of the header words the rings point into.
  const SQ_CONSUMED := 24
  const CQ_CONSUMED := 28
  const SQ_PRODUCED := 36
  const CQ_PRODUCED := 40

  datatype Queue = Queue(flags: u32, headerAddr: nat, sq: Ring, cq: Ring)

  datatype InitArgs = InitArgs(flags: u32, ringAddr: nat, nSlots: u32, slotSize: u32,
                               sqProduced: nat, cqProduced: nat)

  predicate DoubleRead(flags: u32) {
    And(flags, 2) != 0
  }

  /** Whether the producer pointers live in the header instead of in registers. */
  predicate InMemProd(flags: u32) {
    And(flags, 4) != 0
  }

  function RingLen(nSlots: nat, slotSize: nat): nat {
    HEADER_SIZE + nSlots * (slotSize + COM_ENTRY_SIZE)
  }

  function SqGeometry(a: InitArgs): Geometry {
    Geometry(a.nSlots, a.slotSize,
             if InMemProd(a.flags) then a.ringAddr + SQ_PRODUCED else a.sqProduced,
             a.ringAddr + SQ_CONSUMED, a.ringAddr + HEADER_SIZE)
  }

  function CqGeometry(a: InitArgs): Geometry {
    Geometry(a.nSlots, COM_ENTRY_SIZE,
             if InMemProd(a.flags) then a.ringAddr + CQ_PRODUCED else a.cqProduced,
             a.ringAddr + CQ_CONSUMED, a.ringAddr + HEADER_SIZE + a.nSlots * a.slotSize)
  }

  /** The header as first written: everything but the magic number. */
  function Header(a: InitArgs): (h: seq<u32>)
    ensures |h| == 11
  {
    [0, VERSION, a.nSlots, HEADER_SIZE, a.slotSize, Wrap32(HEADER_SIZE + a.nSlots * a.slotSize),
     0, 0, a.flags, 0, 0]
  }

  /** Memory after the words `ws` are copied to address `a`, first word first. */
  function WriteWords(m: Memory, a: nat, ws: seq<u32>): Memory {
    if ws == [] then m
    else WriteWords(m, a, ws[..|ws| - 1])[a + 4 * (|ws| - 1) := ws[|ws| - 1]]
  }

  /** Ignore whatever the ring held: its consumed word becomes its produced word. */
  function SoftReset(m: Memory, g: Geometry): Memory {
    m[g.consumedAddr := Read(m, g.producedAddr)]
  }

  /** With register producer pointers, the completion interrupt is enabled before anything else. */
  function EnableInterrupt(m: Memory, flags: u32, produced: nat): Memory {
    if InMemProd(flags) then m else m[produced + INTR_ENABLE_OFFSET := 1]
  }

  const INIT_WRITES := 14

  /** Shared memory after the first `k` of the header writes of xgq_init. */
  function InitMemory(m: Memory, a: InitArgs, k: nat): Memory
    requires k <= INIT_WRITES
  {
    var m0 := EnableInterrupt(m, a.flags, a.cqProduced);
    if k <= 11 then WriteWords(m0, a.ringAddr, Header(a)[..k])
    else if k == 12 then SoftReset(InitMemory(m, a, 11), SqGeometry(a))
    else if k == 13 then SoftReset(InitMemory(m, a, 12), CqGeometry(a))
    else InitMemory(m, a, 13)[a.ringAddr := ALLOC_MAGIC]
  }

  function EmptyRing(g: Geometry, m: Memory): Ring {
    Ring(g, Read(m, g.producedAddr), Read(m, g.producedAddr))
  }

  /** The client's queue when xgq_init returns. */
  function InitQueue(m: Memory, a: InitArgs): Queue {
    Queue(a.flags, a.ringAddr,
          EmptyRing(SqGeometry(a), InitMemory(m, a, 11)), EmptyRing(CqGeometry(a), InitMemory(m, a, 12)))
  }

  datatype AttachResult = EAgain | EOpNotSupp | EProto | Attached(queue: Queue, mem: Memory)

  /** The flags a server ends up with: its own and the header's two. */
  function MergedFlags(flags: u32, header: u32): u32 {
    Wrap32(Or(Or(flags, And(header, 2)), And(header, 4)))
  }

  /** The queue an accepted header `h` describes, its counters taken from shared memory. */
  function AttachedQueue(h: seq<u32>, flags: u32, ringAddr: nat, sqProduced: nat, cqProduced: nat, m: Memory): Queue
    requires |h| == 11
  {
    var sqg := Geometry(h[2], h[4], if InMemProd(flags) then ringAddr + SQ_PRODUCED else sqProduced,
                        ringAddr + SQ_CONSUMED, ringAddr + h[3]);
    var cqg := Geometry(h[2], COM_ENTRY_SIZE, if InMemProd(flags) then ringAddr + CQ_PRODUCED else cqProduced,
                        ringAddr + CQ_CONSUMED, ringAddr + h[5]);
    Queue(flags, ringAddr, FastForward(Ring(sqg, 0, 0), m), FastForward(Ring(cqg, 0, 0), m))
  }

  /** xgq_attach against shared memory as it stands; it writes only the interrupt enable register. */
  function Attach(m: Memory, flags: u32, ringAddr: nat, sqProduced: nat, cqProduced: nat): AttachResult
  {
    var h := SlotWords(m, ringAddr, 11);
    if h[0] != ALLOC_MAGIC then EAgain
    else if h[1] / 0x1_0000 != 1 then EOpNotSupp
    else if h[2] < MIN_NUM_SLOTS || And(h[2], h[2] - 1) != 0 then EProto
    else
      var flags' := MergedFlags(flags, h[8]);
      var m' := EnableInterrupt(m, flags', sqProduced);
      Attached(AttachedQueue(h, flags', ringAddr, sqProduced, cqProduced, m'), m')
  }

  // ---- what the writes leave behind ----

  lemma {:induction false} WriteWordsReads(m: Memory, a: nat, ws: seq<u32>)
    ensures SlotWords(WriteWords(m, a, ws), a, |ws|) == ws
    ensures forall x: nat :: x < a || a + 4 * |ws| <= x ==> Read(WriteWords(m, a, ws), x) == Read(m, x)
    decreases |ws|
  {
    if ws != [] {
      var front := ws[..|ws| - 1];
      WriteWordsReads(m, a, front);
      var m1 := WriteWords(m, a, front);
      var m2 := WriteWords(m, a, ws);
      forall k | 0 <= k < |ws| ensures SlotWords(m2, a, |ws|)[k] == ws[k] {
        if k < |ws| - 1 {
          assert SlotWords(m1, a, |front|)[k] == front[k];
        }
      }
    }
  }

  /** Registers, when used, lie outside the queue's memory and do not coincide. */
  ghost predicate RegistersApart(a: InitArgs) {
    !InMemProd(a.flags) ==>
      && a.sqProduced != a.cqProduced
      && a.sqProduced + INTR_ENABLE_OFFSET != a.cqProduced
      && a.cqProduced + INTR_ENABLE_OFFSET != a.sqProduced
      && Outside(a, a.sqProduced) && Outside(a, a.sqProduced + INTR_ENABLE_OFFSET)
      && Outside(a, a.cqProduced) && Outside(a, a.cqProduced + INTR_ENABLE_OFFSET)
  }

  ghost predicate Outside(a: InitArgs, x: nat) {
    x + 4 <= a.ringAddr || a.ringAddr + RingLen(a.nSlots, a.slotSize) <= x
  }

  /** What xgq_alloc guarantees of the arguments it passes on. */
  ghost predicate WellSized(a: InitArgs) {
    && a.slotSize % 4 == 0
    && RingLen(a.nSlots, a.slotSize) < 0x1_0000_0000
    && RegistersApart(a)
  }

  /** The fourteen writes, grouped as the code makes them. */
  lemma InitSteps(m: Memory, a: InitArgs)
    ensures var m1 := WriteWords(EnableInterrupt(m, a.flags, a.cqProduced), a.ringAddr, Header(a));
            && InitMemory(m, a, 11) == m1
            && InitMemory(m, a, 12) == SoftReset(m1, SqGeometry(a))
            && InitMemory(m, a, INIT_WRITES)
               == WriteWords(SoftReset(SoftReset(m1, SqGeometry(a)), CqGeometry(a)), a.ringAddr, [ALLOC_MAGIC])
  {
    assert Header(a)[..11] == Header(a);
    assert [ALLOC_MAGIC][..0] == [];
  }

  lemma HeaderMemory(m: Memory, a: InitArgs, k: nat)
    requires k <= 11
    ensures SlotWords(InitMemory(m, a, k), a.ringAddr, k) == Header(a)[..k]
    ensures forall x: nat :: x < a.ringAddr || a.ringAddr + HEADER_SIZE <= x ==>
              Read(InitMemory(m, a, k), x) == Read(EnableInterrupt(m, a.flags, a.cqProduced), x)
  {
    WriteWordsReads(EnableInterrupt(m, a.flags, a.cqProduced), a.ringAddr, Header(a)[..k]);
  }

  /** Until its last write, xgq_init shows a header that no server accepts. */
  lemma AttachWaitsForInit(m: Memory, a: InitArgs, k: nat, flags: u32, sqProduced: nat, cqProduced: nat)
    requires 1 <= k < INIT_WRITES
    ensures Attach(InitMemory(m, a, k), flags, a.ringAddr, sqProduced, cqProduced) == EAgain
  {
    var j := if k <= 11 then k else 11;
    HeaderMemory(m, a, j);
    assert SlotWords(InitMemory(m, a, j), a.ringAddr, j)[0] == Header(a)[..j][0];
    assert Read(InitMemory(m, a, j), a.ringAddr) == 0;
    assert Read(InitMemory(m, a, k), a.ringAddr) == 0;
    assert SlotWords(InitMemory(m, a, k), a.ringAddr, 11)[0] == 0;
  }

  /** The header words a finished xgq_init leaves. */
  function FinishedHeader(a: InitArgs, sqBase: u32, cqBase: u32): seq<u32> {
    Header(a)[6 := sqBase][7 := cqBase][0 := ALLOC_MAGIC]
  }

  lemma InitHeader(m: Memory, a: InitArgs)
    ensures var q := InitQueue(m, a);
            SlotWords(InitMemory(m, a, INIT_WRITES), a.ringAddr, 11)
            == FinishedHeader(a, q.sq.produced, q.cq.produced)
  {
    HeaderMemory(m, a, 11);
    var q := InitQueue(m, a);
    assert Header(a)[..11] == Header(a);
    WordUpdate(InitMemory(m, a, 11), a.ringAddr, 11, 6, q.sq.produced);
    WordUpdate(InitMemory(m, a, 12), a.ringAddr, 11, 7, q.cq.produced);
    WordUpdate(InitMemory(m, a, 13), a.ringAddr, 11, 0, ALLOC_MAGIC);
  }

  lemma InitFrame(m: Memory, a: InitArgs, x: nat)
    requires x < a.ringAddr || a.ringAddr + HEADER_SIZE <= x
    requires InMemProd(a.flags) || x != a.cqProduced + INTR_ENABLE_OFFSET
    ensures Read(InitMemory(m, a, INIT_WRITES), x) == Read(InitMemory(m, a, 12), x)
         == Read(InitMemory(m, a, 11), x) == Read(m, x)
  {
    HeaderMemory(m, a, 11);
  }

  ghost predicate RingsEmpty(m: Memory, q: Queue) {
    && Read(m, q.sq.geo.producedAddr) == Read(m, q.sq.geo.consumedAddr) == q.sq.produced == q.sq.consumed
    && Read(m, q.cq.geo.producedAddr) == Read(m, q.cq.geo.consumedAddr) == q.cq.produced == q.cq.consumed
  }

  lemma ConsumedWords(m: Memory, a: InitArgs)
    ensures var m', q := InitMemory(m, a, INIT_WRITES), InitQueue(m, a);
            Read(m', a.ringAddr + SQ_CONSUMED) == q.sq.produced && Read(m', a.ringAddr + CQ_CONSUMED) == q.cq.produced
  {
    InitHeader(m, a);
    var h := SlotWords(InitMemory(m, a, INIT_WRITES), a.ringAddr, 11);
    assert h[6] == InitQueue(m, a).sq.produced && h[7] == InitQueue(m, a).cq.produced;
  }

  lemma ProducedWordsInMemory(m: Memory, a: InitArgs)
    requires InMemProd(a.flags)
    ensures var m', q := InitMemory(m, a, INIT_WRITES), InitQueue(m, a);
            Read(m', a.ringAddr + SQ_PRODUCED) == q.sq.produced && Read(m', a.ringAddr + CQ_PRODUCED) == q.cq.produced
  {
    HeaderMemory(m, a, 11);
    var h := SlotWords(InitMemory(m, a, 11), a.ringAddr, 11);
    assert h[9] == Header(a)[..11][9] && h[10] == Header(a)[..11][10];
  }

  lemma ProducedRegisters(m: Memory, a: InitArgs)
    requires !InMemProd(a.flags) && RegistersApart(a)
    ensures var m', q := InitMemory(m, a, INIT_WRITES), InitQueue(m, a);
            Read(m', a.sqProduced) == q.sq.produced && Read(m', a.cqProduced) == q.cq.produced
  {
    MulMonotone(a.nSlots, 0, a.slotSize + COM_ENTRY_SIZE);
    assert Outside(a, a.sqProduced) && Outside(a, a.cqProduced);
    InitFrame(m, a, a.sqProduced);
    InitFrame(m, a, a.cqProduced);
  }

  /** Both rings start empty: the client's counters and both shared words agree. */
  lemma InitRingsEmpty(m: Memory, a: InitArgs)
    requires RegistersApart(a)
    ensures RingsEmpty(InitMemory(m, a, INIT_WRITES), InitQueue(m, a))
  {
    ConsumedWords(m, a);
    if InMemProd(a.flags) {
      ProducedWordsInMemory(m, a);
    } else {
      ProducedRegisters(m, a);
    }
  }

  // ---- attach after init ----

  lemma FlagBits(x: u32)
    ensures DoubleRead(x) <==> Bit(x, 1)
    ensures InMemProd(x) <==> Bit(x, 2)
  {
    assert Pow2(1) == 2 && Pow2(2) == 4;
    AndBit(x, 1);
    AndBit(x, 2);
  }

  /** The merged flags are the server's own, and of the header's only the two modes. */
  lemma MergedBit(flags: u32, header: u32, k: nat)
    ensures Bit(MergedFlags(flags, header), k) <==> Bit(flags, k) || ((k == 1 || k == 2) && Bit(header, k))
  {
    assert Pow2(1) == 2 && Pow2(2) == 4;
    AndBit(header, 1);
    AndBit(header, 2);
    BitOfPow2(1, k);
    BitOfPow2(2, k);
    BitOfZero(k);
    var x, y := And(header, 2), And(header, 4);
    OrBit(flags, x, k);
    OrBit(Or(flags, x), y, k);
    Pow2Of32();
    OrBounded(flags, x, 32);
    OrBounded(Or(flags, x), y, 32);
    WrapSmall(Or(Or(flags, x), y));
  }

  /** The two modes survive the handshake; the server may add a mode but not lose one. */
  lemma MergedModes(flags: u32, header: u32)
    ensures InMemProd(MergedFlags(flags, header)) <==> InMemProd(flags) || InMemProd(header)
    ensures DoubleRead(MergedFlags(flags, header)) <==> DoubleRead(flags) || DoubleRead(header)
  {
    FlagBits(flags);
    FlagBits(header);
    FlagBits(MergedFlags(flags, header));
    MergedBit(flags, header, 1);
    MergedBit(flags, header, 2);
  }

  /** The arguments as the server takes them: in its own producer mode. */
  function ServerArgs(a: InitArgs, flags: u32): InitArgs {
    a.(flags := MergedFlags(flags, a.flags))
  }

  /** The queue a server builds over memory `m` once it has accepted the header of `a`. */
  function ServerQueue(a: InitArgs, flags: u32, m: Memory): Queue {
    var b := ServerArgs(a, flags);
    Queue(b.flags, a.ringAddr,
          FastForward(Ring(SqGeometry(b), 0, 0), m), FastForward(Ring(CqGeometry(b), 0, 0), m))
  }

  lemma FinishedWords(a: InitArgs, sqBase: u32, cqBase: u32)
    requires RingLen(a.nSlots, a.slotSize) < 0x1_0000_0000
    ensures var h := FinishedHeader(a, sqBase, cqBase);
            && |h| == 11 && h[0] == ALLOC_MAGIC && h[1] == VERSION && h[2] == a.nSlots && h[3] == HEADER_SIZE
            && h[4] == a.slotSize && h[5] == HEADER_SIZE + a.nSlots * a.slotSize && h[8] == a.flags
  {
    MulMonotone(a.nSlots, 0, a.slotSize);
    MulMonotone(a.nSlots, a.slotSize, a.slotSize + COM_ENTRY_SIZE);
    WrapSmall(HEADER_SIZE + a.nSlots * a.slotSize);
  }

  /** The words of a finished header describe the geometry they were written for. */
  lemma HeaderDescribes(m: Memory, a: InitArgs, sqBase: u32, cqBase: u32, flags: u32)
    requires RingLen(a.nSlots, a.slotSize) < 0x1_0000_0000
    ensures AttachedQueue(FinishedHeader(a, sqBase, cqBase), MergedFlags(flags, a.flags), a.ringAddr,
                          a.sqProduced, a.cqProduced, m) == ServerQueue(a, flags, m)
  {
    FinishedWords(a, sqBase, cqBase);
  }

  /** A finished header decodes to the geometry it was written for, or is refused for its slot count. */
  lemma HeaderDecodes(m: Memory, a: InitArgs, sqBase: u32, cqBase: u32, flags: u32)
    requires RingLen(a.nSlots, a.slotSize) < 0x1_0000_0000
    requires SlotWords(m, a.ringAddr, 11) == FinishedHeader(a, sqBase, cqBase)
    ensures var m' := EnableInterrupt(m, MergedFlags(flags, a.flags), a.sqProduced);
            Attach(m, flags, a.ringAddr, a.sqProduced, a.cqProduced)
            == if a.nSlots >= MIN_NUM_SLOTS && IsPow2(a.nSlots) then Attached(ServerQueue(a, flags, m'), m')
               else EProto
  {
    HeaderDescribes(EnableInterrupt(m, MergedFlags(flags, a.flags), a.sqProduced), a, sqBase, cqBase, flags);
    FinishedWords(a, sqBase, cqBase);
    if a.nSlots >= MIN_NUM_SLOTS {
      PowerOfTwoTest(a.nSlots);
    }
  }

  /** The server does not force in-memory pointers on a queue that was set up with registers. */
  predicate SameMode(a: InitArgs, flags: u32) {
    InMemProd(flags) ==> InMemProd(a.flags)
  }

  /** Both sides look for the producer pointers in the same places exactly when their modes agree. */
  lemma SameGeometry(a: InitArgs, flags: u32)
    requires RegistersApart(a)
    ensures SqGeometry(ServerArgs(a, flags)) == SqGeometry(a) <==> SameMode(a, flags)
    ensures CqGeometry(ServerArgs(a, flags)) == CqGeometry(a) <==> SameMode(a, flags)
  {
    MergedModes(flags, a.flags);
    MulMonotone(a.nSlots, 0, a.slotSize + COM_ENTRY_SIZE);
    if !InMemProd(a.flags) {
      assert Outside(a, a.sqProduced) && Outside(a, a.cqProduced);
    }
  }

  /** Where both rings are empty and the modes agree, the server's copies are the client's. */
  lemma ServerSeesClient(m: Memory, a: InitArgs, q: Queue, flags: u32)
    requires RegistersApart(a) && RingsEmpty(m, q) && q.sq.geo == SqGeometry(a) && q.cq.geo == CqGeometry(a)
    requires SameMode(a, flags)
    ensures var m' := EnableInterrupt(m, a.flags, a.sqProduced);
            var server := ServerQueue(a, flags, m');
            server.sq == q.sq && server.cq == q.cq && RingsEmpty(m', server)
  {
    SameGeometry(a, flags);
    MulMonotone(a.nSlots, 0, a.slotSize + COM_ENTRY_SIZE);
    if !InMemProd(a.flags) {
      assert Outside(a, a.sqProduced + INTR_ENABLE_OFFSET);
    }
  }

  lemma SameInterrupt(m: Memory, a: InitArgs, flags: u32)
    requires SameMode(a, flags)
    ensures EnableInterrupt(m, MergedFlags(flags, a.flags), a.sqProduced) == EnableInterrupt(m, a.flags, a.sqProduced)
  {
    MergedModes(flags, a.flags);
  }

  /**
   * After xgq_init, xgq_attach succeeds if the slot count is a power of two of at least two and returns
   * -EPROTO otherwise. Its rings are where the client's are exactly when the server does not force
   * in-memory pointers on a register queue, and then they are the client's, counters included, both empty.
   */
  lemma AttachAfterInit(m: Memory, a: InitArgs, flags: u32)
    requires WellSized(a)
    ensures var r := Attach(InitMemory(m, a, INIT_WRITES), flags, a.ringAddr, a.sqProduced, a.cqProduced);
            var q := InitQueue(m, a);
            if a.nSlots >= MIN_NUM_SLOTS && IsPow2(a.nSlots) then
              && r.Attached?
              && (r.queue.sq.geo == q.sq.geo <==> SameMode(a, flags))
              && (r.queue.cq.geo == q.cq.geo <==> SameMode(a, flags))
              && (SameMode(a, flags) ==>
                    && r.queue.sq == q.sq && r.queue.cq == q.cq
                    && RingsEmpty(r.mem, r.queue)
                    && r.mem == EnableInterrupt(InitMemory(m, a, INIT_WRITES), a.flags, a.sqProduced))
            else r == EProto
  {
    var m', q := InitMemory(m, a, INIT_WRITES), InitQueue(m, a);
    InitHeader(m, a);
    HeaderDecodes(m', a, q.sq.produced, q.cq.produced, flags);
    SameGeometry(a, flags);
    if SameMode(a, flags) {
      InitRingsEmpty(m, a);
      SameInterrupt(m', a, flags);
      ServerSeesClient(m', a, q, flags);
    }
  }

  // ---- against any memory ----

  /** What xgq_attach answers to any header, byte offset by byte offset. */
  lemma AttachAnswers(m: Memory, flags: u32, ringAddr: nat, sqProduced: nat, cqProduced: nat)
    ensures var r := Attach(m, flags, ringAddr, sqProduced, cqProduced);
            var magic := Read(m, ringAddr) == 0x5847513F;
            var supported := 0x1_0000 <= Read(m, ringAddr + 4) < 0x2_0000;
            var slots := Read(m, ringAddr + 8);
            && (r == EAgain <==> !magic)
            && (r == EOpNotSupp <==> magic && !supported)
            && (r == EProto <==> magic && supported && !(slots >= 2 && IsPow2(slots)))
            && (r.Attached? <==> magic && supported && slots >= 2 && IsPow2(slots))
  {
    var h := SlotWords(m, ringAddr, 11);
    assert h[0] == Read(m, ringAddr) && h[1] == Read(m, ringAddr + 4) && h[2] == Read(m, ringAddr + 8);
    if h[2] >= 2 {
      PowerOfTwoTest(h[2]);
    }
  }

  /** The rings of an accepted header: where its words say, with the counters shared memory holds. */
  lemma AttachedRings(m: Memory, flags: u32, ringAddr: nat, sqProduced: nat, cqProduced: nat)
    requires Attach(m, flags, ringAddr, sqProduced, cqProduced).Attached?
    ensures var r := Attach(m, flags, ringAddr, sqProduced, cqProduced);
            var sq, cq, inMemory := r.queue.sq, r.queue.cq, InMemProd(flags) || InMemProd(Read(m, ringAddr + 32));
            && sq.geo == Geometry(Read(m, ringAddr + 8), Read(m, ringAddr + 16),
                                  if inMemory then ringAddr + 36 else sqProduced,
                                  ringAddr + 24, ringAddr + Read(m, ringAddr + 12))
            && cq.geo == Geometry(Read(m, ringAddr + 8), 16, if inMemory then ringAddr + 40 else cqProduced,
                                  ringAddr + 28, ringAddr + Read(m, ringAddr + 20))
            && sq.produced == Read(r.mem, sq.geo.producedAddr) && sq.consumed == Read(r.mem, ringAddr + 24)
            && cq.produced == Read(r.mem, cq.geo.producedAddr) && cq.consumed == Read(r.mem, ringAddr + 28)
  {
    MergedModes(flags, Read(m, ringAddr + 32));
    var h := SlotWords(m, ringAddr, 11);
    assert h[2] == Read(m, ringAddr + 8) && h[3] == Read(m, ringAddr + 12) && h[4] == Read(m, ringAddr + 16);
    assert h[5] == Read(m, ringAddr + 20) && h[8] == Read(m, ringAddr + 32);
  }

  /** All that xgq_attach writes: 1 into the enable register of the submission queue, in register mode. */
  lemma AttachEnables(m: Memory, flags: u32, ringAddr: nat, sqProduced: nat, cqProduced: nat, x: nat)
    requires Attach(m, flags, ringAddr, sqProduced, cqProduced).Attached?
    ensures var m' := Attach(m, flags, ringAddr, sqProduced, cqProduced).mem;
            Read(m', x) == if !InMemProd(flags) && !InMemProd(Read(m, ringAddr + 32)) && x == sqProduced + 12 then 1
                           else Read(m, x)
  {
    MergedModes(flags, Read(m, ringAddr + 32));
    assert SlotWords(m, ringAddr, 11)[8] == Read(m, ringAddr + 32);
  }

  /** The words xgq_init leaves, and its enabling of the completion interrupt in register mode. */
  lemma InitPublishes(m: Memory, a: InitArgs)
    requires WellSized(a)
    ensures var m' := InitMemory(m, a, INIT_WRITES);
            && SlotWords(m', a.ringAddr, 6)
               == [0x5847513F, 0x1_0000, a.nSlots, 44, a.slotSize, 44 + a.nSlots * a.slotSize]
            && Read(m', a.ringAddr + 32) == a.flags
            && (!InMemProd(a.flags) ==> Read(m', a.cqProduced + 12) == 1)
  {
    MulMonotone(a.nSlots, 0, a.slotSize);
    MulMonotone(a.nSlots, a.slotSize, a.slotSize + COM_ENTRY_SIZE);
    InitHeader(m, a);
    var m', q := InitMemory(m, a, INIT_WRITES), InitQueue(m, a);
    var h := FinishedHeader(a, q.sq.produced, q.cq.produced);
    WrapSmall(44 + a.nSlots * a.slotSize);
    assert SlotWords(m', a.ringAddr, 6) == SlotWords(m', a.ringAddr, 11)[..6];
    assert h[..6] == [0x5847513F, 0x1_0000, a.nSlots, 44, a.slotSize, 44 + a.nSlots * a.slotSize];
    assert SlotWords(m', a.ringAddr, 11)[8] == h[8] == a.flags;
    if !InMemProd(a.flags) {
      InterruptStands(m, a);
    }
  }

  lemma InterruptStands(m: Memory, a: InitArgs)
    requires !InMemProd(a.flags) && RegistersApart(a)
    ensures Read(InitMemory(m, a, INIT_WRITES), a.cqProduced + 12) == 1
  {
    MulMonotone(a.nSlots, 0, a.slotSize + COM_ENTRY_SIZE);
    assert Outside(a, a.cqProduced + INTR_ENABLE_OFFSET) && RingLen(a.nSlots, a.slotSize) >= HEADER_SIZE;
    HeaderMemory(m, a, 11);
    var x := a.cqProduced + INTR_ENABLE_OFFSET;
    assert Read(InitMemory(m, a, 11), x) == Read(EnableInterrupt(m, a.flags, a.cqProduced), x) == 1;
    assert Read(InitMemory(m, a, 13), x) == Read(InitMemory(m, a, 12), x) == Read(InitMemory(m, a, 11), x);
  }
}

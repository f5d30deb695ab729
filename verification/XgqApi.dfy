/** The XGQ calls as the code makes them: fields updated in place, shared words read and written one by one. */
module XgqApi {
  import opened Bits
  import opened XgqRing
  import opened XgqSetup
  import opened XgqAlloc
  import opened XgqGroup

  /** What an io handle reaches: ring memory and registers. */
  class Io {
    var words: Memory

    constructor (m: Memory)
      ensures words == m
    {
      words := m;
    }

    method Write32(a: nat, v: u32)
      modifies this
      ensures words == old(words)[a := v]
    {
      words := words[a := v];
    }

    method CopyToRing(src: seq<u32>, tgt: nat)
      modifies this
      ensures words == WriteWords(old(words), tgt, src)
    {
      var i := 0;
      while i < |src|
        invariant 0 <= i <= |src|
        invariant words == WriteWords(old(words), tgt, src[..i])
      {
        Write32(tgt + 4 * i, src[i]);
        assert src[..i + 1][..i] == src[..i];
        i := i + 1;
      }
      assert src[..|src|] == src;
    }

    method CopyFromRing(src: nat, n: nat) returns (buf: seq<u32>)
      ensures buf == SlotWords(words, src, n)
    {
      buf := [];
      var i := 0;
      while i < n
        invariant 0 <= i <= n && |buf| == i
        invariant forall k :: 0 <= k < i ==> buf[k] == SlotWords(words, src, n)[k]
      {
        buf := buf + [Read(words, src + 4 * i)];
        i := i + 1;
      }
    }
  }

  datatype Code = Ok | EInval | E2Big | NoSpace | NoEntry | Again | NotSupported | Protocol

  /** One endpoint of a queue; `server` is fixed when the endpoint is compiled. */
  class Xgq {
    const server: bool
    const io: Io
    var flags: u32
    var headerAddr: nat
    var sq: Ring
    var cq: Ring

    constructor (server: bool, io: Io)
      ensures this.server == server && this.io == io
    {
      this.server := server;
      this.io := io;
      flags, headerAddr := 0, 0;
      sq := Ring(Geometry(0, 0, 0, 0, 0), 0, 0);
      cq := Ring(Geometry(0, 0, 0, 0, 0), 0, 0);
    }

    /** The ring this endpoint produces on: the client submits, the server completes. */
    function Out(): Ring
      reads this
    {
      if server then cq else sq
    }

    function In(): Ring
      reads this
    {
      if server then sq else cq
    }

    function View(): Queue
      reads this
    {
      Queue(flags, headerAddr, sq, cq)
    }

    method SetOut(r: Ring)
      modifies this`sq, this`cq
      ensures Out() == r && In() == old(In())
    {
      if server { cq := r; } else { sq := r; }
    }

    method SetIn(r: Ring)
      modifies this`sq, this`cq
      ensures In() == r && Out() == old(Out())
    {
      if server { sq := r; } else { cq := r; }
    }

    method CanProduce() returns (yes: bool)
      modifies this`sq, this`cq
      ensures Out() == AfterCanProduce(old(Out()), io.words) && In() == old(In())
      ensures yes == !Full(Out())
    {
      if !Full(Out()) {
        return true;
      }
      SetOut(Out().(consumed := Read(io.words, Out().geo.consumedAddr)));
      return !Full(Out());
    }

    method CanConsume() returns (yes: bool)
      modifies this`sq, this`cq
      ensures In() == AfterCanConsume(old(In()), io.words) && Out() == old(Out())
      ensures yes == !Empty(In())
    {
      if !Empty(In()) {
        return true;
      }
      SetIn(In().(produced := Read(io.words, In().geo.producedAddr)));
      return !Empty(In());
    }

    method ProduceCall() returns (rc: Code, addr: nat)
      modifies this`sq, this`cq
      ensures In() == old(In()) && Out() == Produce(old(Out()), io.words).1
      ensures if server then sq == old(sq) else cq == old(cq)
      ensures match Produce(old(Out()), io.words).0
              case NoSlot => rc == NoSpace
              case Slot(a) => rc == Ok && addr == a
    {
      addr := 0;
      var yes := CanProduce();
      if !yes {
        return NoSpace, addr;
      }
      addr := SlotPtr(Out().geo, Out().produced);
      SetOut(Out().(produced := Inc32(Out().produced)));
      rc := Ok;
    }

    method ConsumeCall() returns (rc: Code, addr: nat)
      modifies this`sq, this`cq
      ensures Out() == old(Out()) && In() == Consume(old(In()), io.words).1
      ensures if server then cq == old(cq) else sq == old(sq)
      ensures match Consume(old(In()), io.words).0
              case NoSlot => rc == NoEntry
              case Slot(a) => rc == Ok && addr == a
    {
      addr := 0;
      var yes := CanConsume();
      if !yes {
        return NoEntry, addr;
      }
      addr := SlotPtr(In().geo, In().consumed);
      SetIn(In().(consumed := Inc32(In().consumed)));
      rc := Ok;
    }

    method NotifyPeerProduced()
      modifies io
      ensures io.words == WriteProduced(Out(), old(io.words))
      ensures var ring := if server then cq else sq; io.words == old(io.words)[ring.geo.producedAddr := ring.produced]
    {
      io.Write32(Out().geo.producedAddr, Out().produced);
    }

    method NotifyPeerConsumed()
      modifies io
      ensures io.words == WriteConsumed(In(), old(io.words))
      ensures var ring := if server then sq else cq; io.words == old(io.words)[ring.geo.consumedAddr := ring.consumed]
    {
      io.Write32(In().geo.consumedAddr, In().consumed);
    }

    /** Read back the produced word and publish it as consumed. */
    method ResetRing(r: Ring) returns (r': Ring)
      modifies io
      ensures io.words == SoftReset(old(io.words), r.geo)
      ensures r' == EmptyRing(r.geo, old(io.words))
    {
      r' := r.(produced := Read(io.words, r.geo.producedAddr));
      r' := r'.(consumed := r'.produced);
      io.Write32(r'.geo.consumedAddr, r'.consumed);
    }

    /** The first half of xgq_init: the software copies, and the interrupt when the pointers are registers. */
    method SetUpRings(a: InitArgs)
      modifies this, io
      ensures io.words == EnableInterrupt(old(io.words), a.flags, a.cqProduced)
      ensures flags == a.flags && headerAddr == a.ringAddr
      ensures sq == Ring(SqGeometry(a), 0, 0) && cq == Ring(CqGeometry(a), 0, 0)
    {
      flags, headerAddr := a.flags, a.ringAddr;
      var sqProd, cqProd := a.sqProduced, a.cqProduced;
      if InMemProd(flags) {
        sqProd, cqProd := a.ringAddr + SQ_PRODUCED, a.ringAddr + CQ_PRODUCED;
      } else {
        io.Write32(cqProd + INTR_ENABLE_OFFSET, 1);
      }
      sq := Ring(Geometry(a.nSlots, a.slotSize, sqProd, a.ringAddr + SQ_CONSUMED, a.ringAddr + HEADER_SIZE), 0, 0);
      cq := Ring(Geometry(a.nSlots, COM_ENTRY_SIZE, cqProd, a.ringAddr + CQ_CONSUMED,
                          a.ringAddr + HEADER_SIZE + a.nSlots * a.slotSize), 0, 0);
    }

    method Init(a: InitArgs)
      modifies this, io
      ensures io.words == InitMemory(old(io.words), a, INIT_WRITES)
      ensures View() == InitQueue(old(io.words), a)
    {
      InitSteps(io.words, a);
      SetUpRings(a);
      var hdr := [0, VERSION, a.nSlots, Wrap32(sq.geo.slotAddr - a.ringAddr), a.slotSize,
                  Wrap32(cq.geo.slotAddr - a.ringAddr), 0, 0, flags, 0, 0];
      assert hdr == Header(a);
      io.CopyToRing(hdr, a.ringAddr);
      sq := ResetRing(sq);
      cq := ResetRing(cq);
      io.CopyToRing([ALLOC_MAGIC], a.ringAddr);
    }

    /** The second half of xgq_attach, once the header is accepted; the header address is not recorded. */
    method AttachRings(hdr: seq<u32>, attachFlags: u32, ringAddr: nat, sqProduced: nat, cqProduced: nat)
      requires |hdr| == 11
      modifies this, io
      ensures flags == MergedFlags(attachFlags, hdr[8]) && headerAddr == old(headerAddr)
      ensures io.words == EnableInterrupt(old(io.words), flags, sqProduced)
      ensures var q := AttachedQueue(hdr, flags, ringAddr, sqProduced, cqProduced, io.words); sq == q.sq && cq == q.cq
    {
      flags := MergedFlags(attachFlags, hdr[8]);
      var sqProd, cqProd := sqProduced, cqProduced;
      if InMemProd(flags) {
        sqProd, cqProd := ringAddr + SQ_PRODUCED, ringAddr + CQ_PRODUCED;
      } else {
        io.Write32(sqProd + INTR_ENABLE_OFFSET, 1);
      }
      sq := Ring(Geometry(hdr[2], hdr[4], sqProd, ringAddr + SQ_CONSUMED, ringAddr + hdr[3]), 0, 0);
      cq := Ring(Geometry(hdr[2], COM_ENTRY_SIZE, cqProd, ringAddr + CQ_CONSUMED, ringAddr + hdr[5]), 0, 0);
      sq := FastForward(sq, io.words);
      cq := FastForward(cq, io.words);
    }

    method AttachCall(attachFlags: u32, ringAddr: nat, sqProduced: nat, cqProduced: nat) returns (rc: Code)
      modifies this, io
      ensures match Attach(old(io.words), attachFlags, ringAddr, sqProduced, cqProduced)
              case EAgain => rc == Again && io.words == old(io.words) && View() == old(View())
              case EOpNotSupp => rc == NotSupported && io.words == old(io.words) && View() == old(View())
              case EProto => rc == Protocol && io.words == old(io.words) && View() == old(View())
              case Attached(q, m) => rc == Ok && io.words == m && View() == q.(headerAddr := old(headerAddr))
    {
      var magic := io.CopyFromRing(ringAddr, 1);
      assert magic[0] == SlotWords(io.words, ringAddr, 11)[0];
      if magic[0] != ALLOC_MAGIC {
        return Again;
      }
      var hdr := io.CopyFromRing(ringAddr, 11);
      if hdr[1] / 0x1_0000 != 1 {
        return NotSupported;
      }
      var nSlots := hdr[2];
      if nSlots < MIN_NUM_SLOTS || And(nSlots, nSlots - 1) != 0 {
        return Protocol;
      }
      AttachRings(hdr, attachFlags, ringAddr, sqProduced, cqProduced);
      rc := Ok;
    }

    method Alloc(a: InitArgs, rlen: nat) returns (rc: Code, len: nat)
      modifies this, io
      ensures rc == (if a.slotSize % 4 != 0 then EInval
                     else if NumSlots(rlen, [a.slotSize]) < MIN_NUM_SLOTS then E2Big else Ok)
      ensures rc != Ok ==> io.words == old(io.words) && View() == old(View()) && len == rlen
      ensures rc == Ok ==>
                var a' := a.(nSlots := NumSlots(rlen, [a.slotSize]));
                && io.words == InitMemory(old(io.words), a', INIT_WRITES)
                && View() == InitQueue(old(io.words), a')
                && len == RingLen(a'.nSlots, a.slotSize)
                && (Bounded(rlen, [a.slotSize]) ==> len <= rlen && IsPow2(a'.nSlots))
    {
      if a.slotSize % 4 != 0 {
        return EInval, rlen;
      }
      var n := AllocNumSlots(rlen, [a.slotSize]);
      if n < MIN_NUM_SLOTS {
        return E2Big, rlen;
      }
      Init(a.(nSlots := n));
      ghost var sizes := [a.slotSize];
      assert sizes[..0] == [] && TotalLen(n, sizes) == RingLen(n, a.slotSize);
      if Bounded(rlen, sizes) {
        NumSlotsLargest(rlen, sizes);
      }
      return Ok, RingLen(n, a.slotSize);
    }
  }

  /** The last loop of xgq_group_alloc; the array of queues the caller passes is returned filled in. */
  method InitGroup(io: Io, flags: u32, ringAddr: nat, n: u32, sizes: seq<u32>) returns (queues: seq<Xgq>, end: nat)
    modifies io
    ensures io.words == GroupMemory(old(io.words), flags, ringAddr, n, sizes, |sizes|)
    ensures end == ringAddr + TotalLen(n, sizes)
    ensures |queues| == |sizes|
    ensures forall i :: 0 <= i < |sizes| ==>
              queues[i].View() == GroupQueue(old(io.words), flags, ringAddr, n, sizes, i)
  {
    ghost var m := io.words;
    queues, end := [], ringAddr;
    var i := 0;
    while i < |sizes|
      invariant 0 <= i <= |sizes| && |queues| == i
      invariant end == Base(ringAddr, n, sizes, i)
      invariant io.words == GroupMemory(m, flags, ringAddr, n, sizes, i)
      invariant forall j :: 0 <= j < i ==> fresh(queues[j])
      invariant forall j :: 0 <= j < i ==> queues[j].View() == GroupQueue(m, flags, ringAddr, n, sizes, j)
    {
      var q := new Xgq(false, io);
      q.Init(InitArgs(GroupFlags(flags), end, n, sizes[i], 0, 0));
      queues := queues + [q];
      assert sizes[..i + 1][..i] == sizes[..i];
      end := end + RingLen(n, sizes[i]);
      i := i + 1;
    }
    assert sizes[..|sizes|] == sizes;
  }

  method GroupAlloc(io: Io, flags: u32, ringAddr: nat, rlen: nat, sizes: seq<u32>, maxSlots: u32)
    returns (rc: Code, queues: seq<Xgq>, len: nat)
    modifies io
    ensures rc == (if exists i :: 0 <= i < |sizes| && sizes[i] % 4 != 0 then EInval
                   else if NumSlots(rlen, sizes) < MIN_NUM_SLOTS then E2Big else Ok)
    ensures rc != Ok ==> io.words == old(io.words) && len == rlen
    ensures rc == Ok ==>
              var n := GroupSlots(rlen, sizes, maxSlots);
              && io.words == GroupMemory(old(io.words), flags, ringAddr, n, sizes, |sizes|)
              && len == TotalLen(n, sizes)
              && |queues| == |sizes|
              && forall i :: 0 <= i < |sizes| ==>
                   queues[i].View() == GroupQueue(old(io.words), flags, ringAddr, n, sizes, i)
  {
    queues, len := [], rlen;
    var i := 0;
    while i < |sizes|
      invariant 0 <= i <= |sizes|
      invariant forall j :: 0 <= j < i ==> sizes[j] % 4 == 0
    {
      if sizes[i] % 4 != 0 {
        return EInval, queues, len;
      }
      i := i + 1;
    }
    var n := AllocNumSlots(rlen, sizes);
    if n < MIN_NUM_SLOTS {
      return E2Big, queues, len;
    }
    if maxSlots != 0 && n > maxSlots {
      n := maxSlots;
    }
    queues, len := InitGroup(io, flags, ringAddr, n, sizes);
    return Ok, queues, len - ringAddr;
  }
}

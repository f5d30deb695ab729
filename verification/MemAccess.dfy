/** Reading and writing device memory across banks: one linear buffer split over sorted banks. */
module MemAccess {
  import opened Bits
  import opened Results
  import opened Sorting

  /** One entry of the memory topology; sizes are in kilobytes. */
  datatype MemData = MemData(streaming: bool, used: bool, sizeKb: nat, base: nat)

  datatype Bank = Bank(base: nat, size: nat)

  type Bytes = map<nat, u8>

  function At(m: Bytes, a: nat): u8 {
    if a in m then m[a] else 0
  }

  // ---- the banks in use, by address ----

  function BankOf(d: MemData): Bank {
    Bank(d.base, d.sizeKb * 1024)
  }

  predicate Usable(d: MemData) {
    d.used && !d.streaming
  }

  function UsableBanks(topology: seq<MemData>): seq<Bank> {
    if topology == [] then []
    else (if Usable(topology[0]) then [BankOf(topology[0])] else []) + UsableBanks(topology[1..])
  }

  function ByBase(b: Bank): int {
    b.base
  }

  function DdrBanks(topology: seq<MemData>): seq<Bank> {
    StableSort(ByBase, UsableBanks(topology))
  }

  /** Used, non-streaming banks in order of address. */
  method GetDdrBanks(topology: seq<MemData>) returns (banks: seq<Bank>)
    ensures banks == DdrBanks(topology)
    ensures SortedBy(ByBase, banks) && multiset(banks) == multiset(UsableBanks(topology))
  {
    var found := [];
    var i := 0;
    while i < |topology|
      invariant 0 <= i <= |topology|
      invariant found + UsableBanks(topology[i..]) == UsableBanks(topology)
    {
      assert topology[i..][1..] == topology[i + 1..];
      if Usable(topology[i]) {
        found := found + [BankOf(topology[i])];
      }
      i := i + 1;
    }
    assert found == UsableBanks(topology);
    banks := StableSort(ByBase, found);
    SortSorted(ByBase, found);
    SortMultiset(ByBase, found);
  }

  // ---- splitting a transfer ----

  datatype Chunk = Chunk(addr: nat, len: nat)

  function Min(a: nat, b: nat): nat {
    if a < b then a else b
  }

  /** The chunks of `n` bytes from offset `off` of bank `k`, each inside one bank, until the banks run out. */
  function Plan(banks: seq<Bank>, k: nat, off: nat, n: nat): seq<Chunk>
    requires k <= |banks| && (k < |banks| ==> off <= banks[k].size)
    decreases |banks| - k
  {
    if n == 0 || k == |banks| then []
    else
      var len := Min(banks[k].size - off, n);
      [Chunk(banks[k].base + off, len)] + Plan(banks, k + 1, 0, n - len)
  }

  function Available(banks: seq<Bank>, k: nat): nat
    requires k <= |banks|
    decreases |banks| - k
  {
    if k == |banks| then 0 else banks[k].size + Available(banks, k + 1)
  }

  function PlanLen(plan: seq<Chunk>): nat {
    if plan == [] then 0 else plan[0].len + PlanLen(plan[1..])
  }

  /** The address of byte `i` of the buffer. */
  function AddrAt(plan: seq<Chunk>, i: nat): nat
    requires i < PlanLen(plan)
  {
    if i < plan[0].len then plan[0].addr + i else AddrAt(plan[1..], i - plan[0].len)
  }

  /** What fits is covered completely, so the shortfall error behind the loop cannot happen. */
  lemma {:induction false} PlanCovers(banks: seq<Bank>, k: nat, off: nat, n: nat)
    requires k <= |banks| && (k < |banks| ==> off <= banks[k].size) && (k == |banks| ==> off == 0)
    ensures PlanLen(Plan(banks, k, off, n)) == Min(n, Available(banks, k) - off)
    decreases |banks| - k
  {
    if n > 0 && k < |banks| {
      var len := Min(banks[k].size - off, n);
      var plan := Plan(banks, k, off, n);
      assert plan[0].len == len && plan[1..] == Plan(banks, k + 1, 0, n - len);
      PlanCovers(banks, k + 1, 0, n - len);
    }
  }

  ghost predicate Within(b: Bank, a: nat) {
    b.base <= a < b.base + b.size
  }

  /** Byte `i` of the buffer lands in some bank at or after the starting one. */
  lemma {:induction false} PlanInBanks(banks: seq<Bank>, k: nat, off: nat, n: nat, i: nat) returns (j: nat)
    requires k <= |banks| && (k < |banks| ==> off <= banks[k].size)
    requires i < PlanLen(Plan(banks, k, off, n))
    ensures k <= j < |banks| && Within(banks[j], AddrAt(Plan(banks, k, off, n), i))
    decreases |banks| - k
  {
    var plan := Plan(banks, k, off, n);
    var len := Min(banks[k].size - off, n);
    assert plan[0] == Chunk(banks[k].base + off, len) && plan[1..] == Plan(banks, k + 1, 0, n - len);
    if i < len {
      j := k;
    } else {
      j := PlanInBanks(banks, k + 1, 0, n - len, i - len);
    }
  }

  ghost predicate BanksDisjoint(banks: seq<Bank>) {
    forall i, j, a: nat :: 0 <= i < j < |banks| ==> !(Within(banks[i], a) && Within(banks[j], a))
  }

  ghost predicate Injective(plan: seq<Chunk>) {
    forall i, j :: 0 <= i < j < PlanLen(plan) ==> AddrAt(plan, i) != AddrAt(plan, j)
  }

  /** Over disjoint banks no two bytes of the buffer share an address. */
  lemma {:induction false} PlanInjective(banks: seq<Bank>, k: nat, off: nat, n: nat)
    requires k <= |banks| && (k < |banks| ==> off <= banks[k].size) && BanksDisjoint(banks)
    ensures Injective(Plan(banks, k, off, n))
    decreases |banks| - k
  {
    var plan := Plan(banks, k, off, n);
    if plan != [] {
      var len := Min(banks[k].size - off, n);
      assert plan[0] == Chunk(banks[k].base + off, len) && plan[1..] == Plan(banks, k + 1, 0, n - len);
      PlanInjective(banks, k + 1, 0, n - len);
      forall i, j | 0 <= i < j < PlanLen(plan) ensures AddrAt(plan, i) != AddrAt(plan, j) {
        if i < len <= j {
          assert Within(banks[k], AddrAt(plan, i));
          var l := PlanInBanks(banks, k + 1, 0, n - len, j - len);
          assert Within(banks[l], AddrAt(plan, j));
        } else if i >= len {
          assert AddrAt(plan[1..], i - len) != AddrAt(plan[1..], j - len);
        }
      }
    }
  }

  // ---- carrying out a plan ----

  function WriteBytes(m: Bytes, a: nat, src: seq<u8>): Bytes
    decreases |src|
  {
    if src == [] then m else WriteBytes(m[a := src[0]], a + 1, src[1..])
  }

  function ReadBytes(m: Bytes, a: nat, n: nat): (r: seq<u8>)
    ensures |r| == n
  {
    seq<u8>(n, k requires 0 <= k < n => At(m, a + k))
  }

  function WritePlan(m: Bytes, plan: seq<Chunk>, src: seq<u8>): Bytes
    requires |src| == PlanLen(plan)
    decreases |plan|
  {
    if plan == [] then m
    else WritePlan(WriteBytes(m, plan[0].addr, src[..plan[0].len]), plan[1..], src[plan[0].len..])
  }

  function ReadPlan(m: Bytes, plan: seq<Chunk>): (r: seq<u8>)
    ensures |r| == PlanLen(plan)
  {
    if plan == [] then [] else ReadBytes(m, plan[0].addr, plan[0].len) + ReadPlan(m, plan[1..])
  }

  /** The first chunk of a plan, and the plan of what remains. */
  lemma PlanHead(banks: seq<Bank>, k: nat, off: nat, n: nat)
    requires k < |banks| && off <= banks[k].size && n > 0
    ensures var plan, len := Plan(banks, k, off, n), Min(banks[k].size - off, n);
            plan[0] == Chunk(banks[k].base + off, len) && plan[1..] == Plan(banks, k + 1, 0, n - len)
  {
  }

  /** Carrying out the first chunk leaves the rest of the plan to do. */
  lemma WriteHead(m: Bytes, plan: seq<Chunk>, src: seq<u8>, seen: nat)
    requires plan != [] && seen <= |src| && |src| - seen == PlanLen(plan)
    ensures var len := plan[0].len;
            && |src| - seen - len == PlanLen(plan[1..])
            && WritePlan(m, plan, src[seen..])
               == WritePlan(WriteBytes(m, plan[0].addr, src[seen..seen + len]), plan[1..], src[seen + len..])
  {
    var len := plan[0].len;
    assert src[seen..][..len] == src[seen..seen + len] && src[seen..][len..] == src[seen + len..];
  }

  /** A write in progress: carrying out the rest of the plan from `m` gives `goal`. */
  ghost predicate ToDo(banks: seq<Bank>, k: nat, off: nat, src: seq<u8>, seen: nat, m: Bytes, goal: Bytes) {
    && k <= |banks| && (k < |banks| ==> off <= banks[k].size) && (k == |banks| ==> off == 0)
    && seen <= |src| && |src| - seen <= Available(banks, k) - off
    && PlanLen(Plan(banks, k, off, |src| - seen)) == |src| - seen
    && WritePlan(m, Plan(banks, k, off, |src| - seen), src[seen..]) == goal
  }

  lemma ToDoStep(banks: seq<Bank>, k: nat, off: nat, src: seq<u8>, seen: nat, m: Bytes, goal: Bytes)
    requires ToDo(banks, k, off, src, seen, m, goal) && k < |banks| && seen < |src|
    ensures var len := Min(banks[k].size - off, |src| - seen);
            ToDo(banks, k + 1, 0, src, seen + len, WriteBytes(m, banks[k].base + off, src[seen..seen + len]), goal)
  {
    PlanHead(banks, k, off, |src| - seen);
    WriteHead(m, Plan(banks, k, off, |src| - seen), src, seen);
  }

  lemma ToDoDone(banks: seq<Bank>, k: nat, off: nat, src: seq<u8>, seen: nat, m: Bytes, goal: Bytes)
    requires ToDo(banks, k, off, src, seen, m, goal) && (k == |banks| || seen == |src|)
    ensures m == goal && seen == |src|
  {
  }

  /** A read in progress: `data` and the rest of the plan give `goal`. */
  ghost predicate ToRead(banks: seq<Bank>, k: nat, off: nat, n: nat, m: Bytes, data: seq<u8>, goal: seq<u8>) {
    && k <= |banks| && (k < |banks| ==> off <= banks[k].size) && (k == |banks| ==> off == 0)
    && n <= Available(banks, k) - off
    && data + ReadPlan(m, Plan(banks, k, off, n)) == goal
  }

  lemma ToReadStep(banks: seq<Bank>, k: nat, off: nat, n: nat, m: Bytes, data: seq<u8>, goal: seq<u8>)
    requires ToRead(banks, k, off, n, m, data, goal) && k < |banks| && n > 0
    ensures var len := Min(banks[k].size - off, n);
            ToRead(banks, k + 1, 0, n - len, m, data + ReadBytes(m, banks[k].base + off, len), goal)
  {
    PlanHead(banks, k, off, n);
  }

  lemma ToReadDone(banks: seq<Bank>, k: nat, off: nat, n: nat, m: Bytes, data: seq<u8>, goal: seq<u8>)
    requires ToRead(banks, k, off, n, m, data, goal) && (k == |banks| || n == 0)
    ensures data == goal && n == 0
  {
  }

  lemma {:induction false} WriteBytesAt(m: Bytes, a: nat, src: seq<u8>, x: nat)
    ensures At(WriteBytes(m, a, src), x) == if a <= x < a + |src| then src[x - a] else At(m, x)
    decreases |src|
  {
    if src != [] {
      WriteBytesAt(m[a := src[0]], a + 1, src[1..], x);
    }
  }

  lemma {:induction false} ReadPlanAt(m: Bytes, plan: seq<Chunk>, i: nat)
    requires i < PlanLen(plan)
    ensures ReadPlan(m, plan)[i] == At(m, AddrAt(plan, i))
  {
    if i >= plan[0].len {
      ReadPlanAt(m, plan[1..], i - plan[0].len);
    }
  }

  ghost predicate Names(plan: seq<Chunk>, x: nat) {
    exists i :: 0 <= i < PlanLen(plan) && AddrAt(plan, i) == x
  }

  /** Writing a plan leaves every address it does not name alone. */
  lemma {:induction false} WritePlanFrame(m: Bytes, plan: seq<Chunk>, src: seq<u8>, x: nat)
    requires |src| == PlanLen(plan) && !Names(plan, x)
    ensures At(WritePlan(m, plan, src), x) == At(m, x)
    decreases |plan|
  {
    if plan != [] {
      var len := plan[0].len;
      var m1 := WriteBytes(m, plan[0].addr, src[..len]);
      WriteBytesAt(m, plan[0].addr, src[..len], x);
      if plan[0].addr <= x < plan[0].addr + len {
        assert AddrAt(plan, x - plan[0].addr) == x;
      }
      forall i | 0 <= i < PlanLen(plan[1..]) ensures AddrAt(plan[1..], i) != x {
        assert AddrAt(plan, i + len) == AddrAt(plan[1..], i);
      }
      assert !Names(plan[1..], x);
      WritePlanFrame(m1, plan[1..], src[len..], x);
    }
  }

  /** Each byte of the source arrives at its address. */
  lemma {:induction false} WritePlanAt(m: Bytes, plan: seq<Chunk>, src: seq<u8>, i: nat)
    requires |src| == PlanLen(plan) && Injective(plan) && i < PlanLen(plan)
    ensures At(WritePlan(m, plan, src), AddrAt(plan, i)) == src[i]
    decreases |plan|
  {
    var len := plan[0].len;
    var m1 := WriteBytes(m, plan[0].addr, src[..len]);
    forall j | 0 <= j < PlanLen(plan[1..]) ensures AddrAt(plan[1..], j) == AddrAt(plan, j + len) {
    }
    if i < len {
      WriteBytesAt(m, plan[0].addr, src[..len], AddrAt(plan, i));
      assert !Names(plan[1..], AddrAt(plan, i));
      WritePlanFrame(m1, plan[1..], src[len..], AddrAt(plan, i));
    } else {
      WritePlanAt(m1, plan[1..], src[len..], i - len);
    }
  }

  lemma RoundTrip(m: Bytes, plan: seq<Chunk>, src: seq<u8>)
    requires Injective(plan) && |src| == PlanLen(plan)
    ensures ReadPlan(WritePlan(m, plan, src), plan) == src
  {
    var m' := WritePlan(m, plan, src);
    forall i | 0 <= i < |src| ensures ReadPlan(m', plan)[i] == src[i] {
      WritePlanAt(m, plan, src, i);
      ReadPlanAt(m', plan, i);
    }
  }

  lemma RoundTripFails(m: Bytes, plan: seq<Chunk>) returns (src: seq<u8>)
    requires !Injective(plan)
    ensures |src| == PlanLen(plan) && ReadPlan(WritePlan(m, plan, src), plan) != src
  {
    var i, j :| 0 <= i < j < PlanLen(plan) && AddrAt(plan, i) == AddrAt(plan, j);
    src := seq(PlanLen(plan), k => if k == j then 1 else 0);
    ReadPlanAt(WritePlan(m, plan, src), plan, i);
    ReadPlanAt(WritePlan(m, plan, src), plan, j);
    assert src[i] != src[j];
  }

  // ---- when a plan is injective ----

  /** Two chunks share no address; one without length shares none. */
  predicate Apart(a: Chunk, b: Chunk) {
    a.len == 0 || b.len == 0 || a.addr + a.len <= b.addr || b.addr + b.len <= a.addr
  }

  predicate ChunksApart(plan: seq<Chunk>) {
    forall c, d :: 0 <= c < d < |plan| ==> Apart(plan[c], plan[d])
  }

  lemma {:induction false} AddrInChunk(plan: seq<Chunk>, i: nat) returns (c: nat)
    requires i < PlanLen(plan)
    ensures c < |plan| && plan[c].addr <= AddrAt(plan, i) < plan[c].addr + plan[c].len
    decreases |plan|
  {
    if i < plan[0].len {
      c := 0;
    } else {
      c := AddrInChunk(plan[1..], i - plan[0].len);
      c := c + 1;
    }
  }

  lemma {:induction false} ApartIsInjective(plan: seq<Chunk>)
    requires ChunksApart(plan)
    ensures Injective(plan)
    decreases |plan|
  {
    if plan != [] {
      var len := plan[0].len;
      ApartIsInjective(plan[1..]);
      forall i, j | 0 <= i < j < PlanLen(plan) ensures AddrAt(plan, i) != AddrAt(plan, j) {
        if i < len <= j {
          var c := AddrInChunk(plan[1..], j - len);
          assert Apart(plan[0], plan[c + 1]);
        } else if i >= len {
          assert AddrAt(plan[1..], i - len) != AddrAt(plan[1..], j - len);
        }
      }
    }
  }

  /** The first byte of the buffer that chunk `c` carries. */
  function FirstByte(plan: seq<Chunk>, c: nat): nat
    requires c <= |plan|
  {
    if c == 0 then 0 else plan[0].len + FirstByte(plan[1..], c - 1)
  }

  lemma {:induction false} ByteOfChunk(plan: seq<Chunk>, c: nat, t: nat)
    requires c < |plan| && t < plan[c].len
    ensures FirstByte(plan, c) + t < PlanLen(plan)
    ensures AddrAt(plan, FirstByte(plan, c) + t) == plan[c].addr + t
    decreases c
  {
    if c > 0 {
      ByteOfChunk(plan[1..], c - 1, t);
    }
  }

  lemma {:induction false} ChunksFollow(plan: seq<Chunk>, c: nat, d: nat)
    requires c < d < |plan|
    ensures FirstByte(plan, c) + plan[c].len <= FirstByte(plan, d)
    decreases c
  {
    if c > 0 {
      ChunksFollow(plan[1..], c - 1, d - 1);
    }
  }

  lemma InjectiveIsApart(plan: seq<Chunk>)
    requires Injective(plan)
    ensures ChunksApart(plan)
  {
    forall c, d | 0 <= c < d < |plan| ensures Apart(plan[c], plan[d]) {
      if !Apart(plan[c], plan[d]) {
        var x := if plan[c].addr < plan[d].addr then plan[d].addr else plan[c].addr;
        ByteOfChunk(plan, c, x - plan[c].addr);
        ByteOfChunk(plan, d, x - plan[d].addr);
        ChunksFollow(plan, c, d);
        assert false;
      }
    }
  }

  /** Writing then reading back returns every source exactly when the chunks are pairwise apart. */
  lemma RoundTripExactly(m: Bytes, plan: seq<Chunk>)
    ensures (forall src: seq<u8> :: |src| == PlanLen(plan) ==> ReadPlan(WritePlan(m, plan, src), plan) == src)
            <==> ChunksApart(plan)
  {
    if ChunksApart(plan) {
      ApartIsInjective(plan);
      forall src: seq<u8> | |src| == PlanLen(plan) ensures ReadPlan(WritePlan(m, plan, src), plan) == src {
        RoundTrip(m, plan, src);
      }
    } else {
      if Injective(plan) {
        InjectiveIsApart(plan);
      }
      var src := RoundTripFails(m, plan);
    }
  }

  // ---- one transfer ----

  /** PastBuffer is no error the code reports: it goes on to fill more than the buffer holds. */
  datatype Error = NoBanks | BadStart | TooLarge | PastBuffer

  /** Index of the first bank with any size, or the number of banks. */
  function FirstSized(banks: seq<Bank>): (k: nat)
    ensures k <= |banks| && (k < |banks| ==> banks[k].size > 0)
    ensures forall j :: 0 <= j < k ==> banks[j].size == 0
  {
    if banks == [] || banks[0].size > 0 then 0 else 1 + FirstSized(banks[1..])
  }

  /** Index of the first bank that contains an address, or the number of banks. */
  function FirstContaining(banks: seq<Bank>, a: nat): (k: nat)
    ensures k <= |banks| && (k < |banks| ==> Within(banks[k], a))
    ensures forall j :: 0 <= j < k ==> !Within(banks[j], a)
  {
    if banks == [] || banks[0].base <= a < banks[0].base + banks[0].size then 0
    else 1 + FirstContaining(banks[1..], a)
  }

  /** Address 0 stands for the start of the first bank. */
  function StartingAddress(banks: seq<Bank>, start: nat): nat
    requires FirstSized(banks) < |banks|
  {
    if start == 0 then banks[FirstSized(banks)].base else start
  }

  function Transfer(banks: seq<Bank>, start: nat, size: nat): (r: Result<seq<Chunk>, Error>)
    ensures r.Ok? ==> PlanLen(r.value) == size
  {
    if FirstSized(banks) == |banks| then Err(NoBanks)
    else
      var a := StartingAddress(banks, start);
      var k := FirstContaining(banks, a);
      if k == |banks| then Err(BadStart)
      else
        var off := a - banks[k].base;
        if size > Available(banks, k) - off then Err(TooLarge)
        else
          PlanCovers(banks, k, off, size);
          Ok(Plan(banks, k, off, size))
  }

  /** The checks before the loop: the bank and offset where the transfer starts, if it is acceptable. */
  method Locate(banks: seq<Bank>, start: nat, size: nat) returns (r: Result<(nat, nat), Error>)
    ensures match Transfer(banks, start, size)
            case Err(e) => r == Err(e)
            case Ok(plan) =>
              && r.Ok?
              && var (k, off) := r.value;
              && k < |banks| && off < banks[k].size && size <= Available(banks, k) - off
              && plan == Plan(banks, k, off, size)
  {
    var sized := FirstSized(banks);
    if sized == |banks| {
      return Err(NoBanks);
    }
    var a := StartingAddress(banks, start);
    var k := FirstContaining(banks, a);
    if k == |banks| {
      return Err(BadStart);
    }
    var off := a - banks[k].base;
    if size > Available(banks, k) - off {
      return Err(TooLarge);
    }
    return Ok((k, off));
  }

  /** A device's memory behind its banks. */
  class Device {
    const topology: seq<MemData>
    var mem: Bytes

    constructor (topology: seq<MemData>, mem: Bytes)
      ensures this.topology == topology && this.mem == mem
    {
      this.topology := topology;
      this.mem := mem;
    }

    method Write(banks: seq<Bank>, k: nat, off: nat, src: seq<u8>)
      requires k < |banks| && off <= banks[k].size && |src| <= Available(banks, k) - off
      modifies this
      ensures PlanLen(Plan(banks, k, off, |src|)) == |src|
      ensures mem == WritePlan(old(mem), Plan(banks, k, off, |src|), src)
    {
      PlanCovers(banks, k, off, |src|);
      ghost var goal := WritePlan(mem, Plan(banks, k, off, |src|), src);
      var it: nat, from: nat, remaining: nat, seen: nat := k, off, |src|, 0;
      assert src[0..] == src;
      while it < |banks| && remaining > 0
        invariant it <= |banks| && seen + remaining == |src|
        invariant ToDo(banks, it, from, src, seen, mem, goal)
        decreases |banks| - it
      {
        var len := Min(banks[it].size - from, remaining);
        ToDoStep(banks, it, from, src, seen, mem, goal);
        mem := WriteBytes(mem, banks[it].base + from, src[seen..seen + len]);
        it, from, remaining, seen := it + 1, 0, remaining - len, seen + len;
      }
      ToDoDone(banks, it, from, src, seen, mem, goal);
      assert remaining == 0;
    }

    method ReadOut(banks: seq<Bank>, k: nat, off: nat, size: nat) returns (data: seq<u8>)
      requires k < |banks| && off <= banks[k].size && size <= Available(banks, k) - off
      ensures data == ReadPlan(mem, Plan(banks, k, off, size)) && |data| == size
    {
      PlanCovers(banks, k, off, size);
      ghost var goal := ReadPlan(mem, Plan(banks, k, off, size));
      var it: nat, from: nat, remaining: nat := k, off, size;
      data := [];
      while it < |banks| && remaining > 0
        invariant it <= |banks|
        invariant ToRead(banks, it, from, remaining, mem, data, goal)
        decreases |banks| - it
      {
        var len := Min(banks[it].size - from, remaining);
        ToReadStep(banks, it, from, remaining, mem, data, goal);
        data := data + ReadBytes(mem, banks[it].base + from, len);
        it, from, remaining := it + 1, 0, remaining - len;
      }
      ToReadDone(banks, it, from, remaining, mem, data, goal);
      assert remaining == 0;
    }

    method DeviceMemWrite(start: nat, src: seq<u8>) returns (r: Result<(), Error>)
      modifies this
      ensures match Transfer(DdrBanks(topology), start, |src|)
              case Err(e) => r == Err(e) && mem == old(mem)
              case Ok(plan) => r == Ok(()) && mem == WritePlan(old(mem), plan, src)
    {
      var banks := GetDdrBanks(topology);
      var at := Locate(banks, start, |src|);
      if at.Err? {
        return Err(at.error);
      }
      var (k, off) := at.value;
      Write(banks, k, off, src);
      return Ok(());
    }

    /** A size of 0 stands for all that is available, for which the buffer allocated has no room. */
    method DeviceMemRead(start: nat, size: nat) returns (r: Result<seq<u8>, Error>)
      ensures match Transfer(DdrBanks(topology), start, size)
              case Err(e) => r == Err(e)
              case Ok(plan) => r == if size == 0 then Err(PastBuffer) else Ok(ReadPlan(mem, plan))
    {
      var banks := GetDdrBanks(topology);
      var at := Locate(banks, start, size);
      if at.Err? {
        return Err(at.error);
      }
      var (k, off) := at.value;
      var validated := if size == 0 then Available(banks, k) - off else size;
      if validated > size {
        return Err(PastBuffer);
      }
      var data := ReadOut(banks, k, off, validated);
      return Ok(data);
    }
  }

  // ---- the whole access ----

  /** An accepted transfer is a plan from the bank that contains the starting address. */
  lemma TransferPlan(banks: seq<Bank>, start: nat, size: nat) returns (k: nat, off: nat)
    requires Transfer(banks, start, size).Ok?
    ensures k < |banks| && off <= banks[k].size && Transfer(banks, start, size).value == Plan(banks, k, off, size)
  {
    var a := StartingAddress(banks, start);
    k := FirstContaining(banks, a);
    off := a - banks[k].base;
  }

  ghost predicate Inside(ch: Chunk, b: Bank) {
    b.base <= ch.addr && ch.addr + ch.len <= b.base + b.size
  }

  /**
   * Chunk `c` lies inside one bank, the c-th from the starting one; it begins where the bank does, or at
   * the offset in the first; and unless it is the last it goes on to the end of the bank.
   */
  lemma {:induction false} ChunkInBank(banks: seq<Bank>, k: nat, off: nat, n: nat, c: nat)
    requires k <= |banks| && (k < |banks| ==> off <= banks[k].size) && c < |Plan(banks, k, off, n)|
    ensures var plan := Plan(banks, k, off, n);
            && k + c < |banks| && Inside(plan[c], banks[k + c])
            && plan[c].addr == banks[k + c].base + (if c == 0 then off else 0)
            && (c + 1 < |plan| ==> plan[c].addr + plan[c].len == banks[k + c].base + banks[k + c].size)
    decreases |banks| - k
  {
    PlanHead(banks, k, off, n);
    if c > 0 {
      ChunkInBank(banks, k + 1, 0, n - Min(banks[k].size - off, n), c - 1);
    }
  }

  /** Inside the starting bank the bytes of the buffer have consecutive addresses. */
  lemma PlanStarts(banks: seq<Bank>, k: nat, off: nat, n: nat, i: nat)
    requires k < |banks| && off <= banks[k].size && i < n && off + i < banks[k].size
    ensures i < PlanLen(Plan(banks, k, off, n)) && AddrAt(Plan(banks, k, off, n), i) == banks[k].base + off + i
  {
    PlanHead(banks, k, off, n);
  }

  /** The address a transfer asks for: 0 stands for the first bank that has a size. */
  ghost predicate Asked(banks: seq<Bank>, start: nat, a: nat) {
    if start != 0 then a == start
    else exists k :: 0 <= k < |banks| && banks[k].size > 0 && (forall j :: 0 <= j < k ==> banks[j].size == 0)
                     && a == banks[k].base
  }

  /** An accepted transfer starts at the address asked for and runs on from it inside its bank. */
  lemma TransferStarts(banks: seq<Bank>, start: nat, size: nat, i: nat)
    requires Transfer(banks, start, size).Ok? && i < size
    ensures var plan := Transfer(banks, start, size).value;
            && Asked(banks, start, AddrAt(plan, 0))
            && var k := FirstContaining(banks, AddrAt(plan, 0));
            && k < |banks|
            && (Within(banks[k], AddrAt(plan, 0) + i) ==> AddrAt(plan, i) == AddrAt(plan, 0) + i)
  {
    var a := StartingAddress(banks, start);
    var k := FirstContaining(banks, a);
    var off := a - banks[k].base;
    PlanStarts(banks, k, off, size, 0);
    if off + i < banks[k].size {
      PlanStarts(banks, k, off, size, i);
    }
  }

  ghost predicate AnySized(banks: seq<Bank>) {
    exists j :: 0 <= j < |banks| && banks[j].size > 0
  }

  lemma SizedExactly(banks: seq<Bank>)
    ensures AnySized(banks) <==> FirstSized(banks) < |banks|
  {
  }

  lemma AskedIsStarting(banks: seq<Bank>, start: nat, a: nat)
    requires FirstSized(banks) < |banks| && Asked(banks, start, a)
    ensures a == StartingAddress(banks, start)
  {
  }

  lemma ContainedIsSized(banks: seq<Bank>, a: nat)
    requires FirstContaining(banks, a) < |banks|
    ensures AnySized(banks)
  {
    assert banks[FirstContaining(banks, a)].size > 0;
  }

  /** A transfer is refused for want of banks when none has a size, and for its start when no bank contains it. */
  lemma TransferRefused(banks: seq<Bank>, start: nat, size: nat)
    ensures Transfer(banks, start, size) == Err(NoBanks) <==> !AnySized(banks)
    ensures Transfer(banks, start, size) == Err(BadStart)
            <==> AnySized(banks) && start != 0 && forall j :: 0 <= j < |banks| ==> !Within(banks[j], start)
  {
    SizedExactly(banks);
    var k := FirstSized(banks);
    if k < |banks| && start == 0 {
      assert Within(banks[k], banks[k].base);
    }
  }

  /** And for its size when it needs more than there is from the address asked for to the end of the last bank. */
  lemma TransferTooLarge(banks: seq<Bank>, start: nat, size: nat, a: nat)
    requires Asked(banks, start, a)
    ensures var k := FirstContaining(banks, a);
            Transfer(banks, start, size) == Err(TooLarge)
            <==> k < |banks| && size > Available(banks, k) - (a - banks[k].base)
  {
    SizedExactly(banks);
    if AnySized(banks) {
      AskedIsStarting(banks, start, a);
    } else if FirstContaining(banks, a) < |banks| {
      ContainedIsSized(banks, a);
    }
  }

  /** The banks are exactly the used, non-streaming entries of the topology, in order of address. */
  lemma BanksExactly(topology: seq<MemData>)
    ensures var banks := DdrBanks(topology);
            && (forall i, j :: 0 <= i < j < |banks| ==> banks[i].base <= banks[j].base)
            && (forall b: Bank :: multiset(banks)[b] == BankCount(topology, b))
  {
    var found := UsableBanks(topology);
    SortSorted(ByBase, found);
    SortMultiset(ByBase, found);
    var banks := DdrBanks(topology);
    forall i, j | 0 <= i < j < |banks| ensures banks[i].base <= banks[j].base {
      assert ByBase(banks[i]) <= ByBase(banks[j]);
    }
    forall b: Bank ensures multiset(banks)[b] == BankCount(topology, b) {
      UsableCount(topology, b);
    }
  }

  /** How many used, non-streaming entries of the topology describe bank `b`. */
  function BankCount(topology: seq<MemData>, b: Bank): nat {
    if topology == [] then 0
    else
      var d := topology[0];
      (if d.used && !d.streaming && b.base == d.base && b.size == 1024 * d.sizeKb then 1 else 0)
      + BankCount(topology[1..], b)
  }

  lemma AppendCounts(a: seq<Bank>, c: seq<Bank>, b: Bank)
    ensures multiset(a + c)[b] == multiset(a)[b] + multiset(c)[b]
  {
    assert multiset(a + c) == multiset(a) + multiset(c);
  }

  lemma {:induction false} UsableCount(topology: seq<MemData>, b: Bank)
    ensures multiset(UsableBanks(topology))[b] == BankCount(topology, b)
    decreases |topology|
  {
    if topology != [] {
      UsableCount(topology[1..], b);
      var head := if Usable(topology[0]) then [BankOf(topology[0])] else [];
      assert multiset(head)[b] == if Usable(topology[0]) && b == BankOf(topology[0]) then 1 else 0;
      AppendCounts(head, UsableBanks(topology[1..]), b);
    }
  }

  /** Every chunk of a transfer lies inside one used, non-streaming bank of the topology. */
  lemma TransferInBanks(topology: seq<MemData>, start: nat, size: nat, c: nat)
    requires Transfer(DdrBanks(topology), start, size).Ok?
    requires c < |Transfer(DdrBanks(topology), start, size).value|
    ensures var plan := Transfer(DdrBanks(topology), start, size).value;
            exists d :: d in topology && d.used && !d.streaming && Inside(plan[c], Bank(d.base, 1024 * d.sizeKb))
  {
    var banks := DdrBanks(topology);
    var k, off := TransferPlan(banks, start, size);
    ChunkInBank(banks, k, off, size, c);
    SortMultiset(ByBase, UsableBanks(topology));
    SameMembers(banks, UsableBanks(topology), banks[k + c]);
    var d := UsableBankComesFrom(topology, banks[k + c]);
    assert BankOf(d) == Bank(d.base, 1024 * d.sizeKb);
  }

  lemma {:induction false} UsableBankComesFrom(topology: seq<MemData>, b: Bank) returns (d: MemData)
    requires b in UsableBanks(topology)
    ensures d in topology && Usable(d) && BankOf(d) == b
    decreases |topology|
  {
    if Usable(topology[0]) && BankOf(topology[0]) == b {
      d := topology[0];
    } else {
      d := UsableBankComesFrom(topology[1..], b);
    }
  }

  /** Over disjoint banks, what is written is what is read back, and nothing outside the transfer changes. */
  lemma WriteThenRead(topology: seq<MemData>, m: Bytes, start: nat, src: seq<u8>)
    requires BanksDisjoint(DdrBanks(topology)) && Transfer(DdrBanks(topology), start, |src|).Ok?
    ensures var plan := Transfer(DdrBanks(topology), start, |src|).value;
            && ReadPlan(WritePlan(m, plan, src), plan) == src
            && forall x: nat :: !Names(plan, x) ==> At(WritePlan(m, plan, src), x) == At(m, x)
  {
    var banks := DdrBanks(topology);
    var plan := Transfer(banks, start, |src|).value;
    TransferInjective(banks, start, |src|);
    RoundTrip(m, plan, src);
    forall x: nat | !Names(plan, x)
      ensures At(WritePlan(m, plan, src), x) == At(m, x)
    {
      WritePlanFrame(m, plan, src, x);
    }
  }

  lemma OnlyOneContains(banks: seq<Bank>, b: Bank, a: nat)
    requires BanksDisjoint(banks) && b in banks && Within(b, a)
    ensures FirstContaining(banks, a) < |banks| && banks[FirstContaining(banks, a)] == b
  {
    var j :| 0 <= j < |banks| && banks[j] == b;
    assert Within(banks[j], a);
  }

  /** In disjoint banks, byte `i` of a transfer is `i` bytes behind the address asked for, inside that bank. */
  lemma ByteAddress(banks: seq<Bank>, start: nat, size: nat, b: Bank, a: nat, i: nat)
    requires BanksDisjoint(banks) && Transfer(banks, start, size).Ok? && i < size
    requires Asked(banks, start, a) && b in banks && Within(b, a) && Within(b, a + i)
    ensures AddrAt(Transfer(banks, start, size).value, i) == a + i
  {
    TransferStarts(banks, start, size, i);
    AskedIsStarting(banks, start, a);
    AskedIsStarting(banks, start, AddrAt(Transfer(banks, start, size).value, 0));
    OnlyOneContains(banks, b, a);
  }

  lemma TransferInjective(banks: seq<Bank>, start: nat, size: nat)
    requires BanksDisjoint(banks) && Transfer(banks, start, size).Ok?
    ensures Injective(Transfer(banks, start, size).value)
  {
    var k, off := TransferPlan(banks, start, size);
    PlanInjective(banks, k, off, size);
  }

  /** Over disjoint banks, what is written stands in memory from the address asked for, inside that bank. */
  lemma WriteLands(banks: seq<Bank>, m: Bytes, start: nat, src: seq<u8>, b: Bank, a: nat, i: nat)
    requires BanksDisjoint(banks) && Transfer(banks, start, |src|).Ok? && i < |src|
    requires Asked(banks, start, a) && b in banks && Within(b, a) && Within(b, a + i)
    ensures At(WritePlan(m, Transfer(banks, start, |src|).value, src), a + i) == src[i]
  {
    ByteAddress(banks, start, |src|, b, a, i);
    TransferInjective(banks, start, |src|);
    WritePlanAt(m, Transfer(banks, start, |src|).value, src, i);
  }

  /** Two banks of 1 KB at 0 and at 512. */
  const OVERLAPPING := [MemData(false, true, 1, 0), MemData(false, true, 1, 512)]

  lemma OverlappingBanks()
    ensures DdrBanks(OVERLAPPING) == [Bank(0, 1024), Bank(512, 1024)]
  {
    var a, b := Bank(0, 1024), Bank(512, 1024);
    var last := OVERLAPPING[1..];
    assert last == [OVERLAPPING[1]] && last[1..] == [];
    assert UsableBanks(last) == [b] && UsableBanks(OVERLAPPING) == [a, b];
    assert [a, b][1..] == [b] && [b][1..] == [];
    assert StableSort(ByBase, [b]) == [b];
  }

  lemma OverlappingPlan()
    ensures var banks := [Bank(0, 1024), Bank(512, 1024)];
            Transfer(banks, 0, 1536) == Ok([Chunk(0, 1024), Chunk(512, 512)])
  {
    var banks := [Bank(0, 1024), Bank(512, 1024)];
    assert Available(banks, 2) == 0 && Available(banks, 1) == 1024 && Available(banks, 0) == 2048;
    assert FirstSized(banks) == 0 && FirstContaining(banks, 0) == 0;
    assert Plan(banks, 2, 0, 0) == [] && Plan(banks, 1, 0, 512) == [Chunk(512, 512)];
    assert Plan(banks, 0, 0, 1536) == [Chunk(0, 1024), Chunk(512, 512)];
  }

  /** Banks that overlap lose data: 1536 bytes accepted over 1 KB at 0 and 1 KB at 512 do not all read back. */
  lemma OverlapLosesData(m: Bytes) returns (src: seq<u8>)
    ensures |src| == 1536 && Transfer(DdrBanks(OVERLAPPING), 0, |src|).Ok?
    ensures var plan := Transfer(DdrBanks(OVERLAPPING), 0, |src|).value;
            ReadPlan(WritePlan(m, plan, src), plan) != src
  {
    OverlappingBanks();
    OverlappingPlan();
    var plan := Transfer(DdrBanks(OVERLAPPING), 0, 1536).value;
    assert !Apart(plan[0], plan[1]);
    if Injective(plan) {
      InjectiveIsApart(plan);
    }
    src := RoundTripFails(m, plan);
  }
}

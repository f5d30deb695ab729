/**
 * XGQ on platforms where the doorbell can overtake the slot contents (XGQ_OUT_OF_ORDER_WRITE).
 *
 * The producer's slot writes travel in order through `pending` and land one word at a time; its
 * doorbell is seen at once. The producer writes word 0, with the NEW flag, last. The consumer takes
 * an entry only once it sees the flag, and clears it.
 */
module XgqOutOfOrder {
  import opened Bits
  import opened XgqRing
  import opened XgqProtocol

  const NEW_FLAG := 0x8000_0000

  /** A slot write on its way. */
  datatype Write = Write(entry: nat, word: nat, value: u32)

  /** issued: entries whose word 0 has been written. */
  datatype State = State(ring: RingState, mem: Memory, pending: seq<Write>, issued: set<nat>) {
    function Geo(): Geometry {
      ring.prod.geo
    }
  }

  datatype OooStep =
    | ProducerCall
    | WriteWord(entry: nat, word: nat, value: u32)
    | Doorbell
    | Land
    | ConsumerCall
    | Release

  function AddressOf(g: Geometry, w: Write): nat
    requires g.slotNum > 0
  {
    SlotOf(g, w.entry) + 4 * w.word
  }

  /** Memory once every write in `ws` has landed. */
  function Landed(g: Geometry, m: Memory, ws: seq<Write>): Memory
    requires g.slotNum > 0
    decreases |ws|
  {
    if ws == [] then m else Landed(g, m[AddressOf(g, ws[0]) := ws[0].value], ws[1..])
  }

  /** The NEW flag of entry `e`'s slot, as the consumer sees it. */
  predicate NewFlag(g: Geometry, m: Memory, e: nat)
    requires g.slotNum > 0
  {
    Read(m, SlotOf(g, e)) >= NEW_FLAG
  }

  /** The producer's discipline: own slots only, word 0 last and flagged, all written before the doorbell. */
  ghost predicate Enabled(s: State, step: OooStep) {
    var h := s.ring.hist;
    match step
    case WriteWord(entry, word, value) =>
      && h.pPub <= entry < h.pLocal && entry !in s.issued
      && word < s.Geo().slotSz / 4 && (word == 0 ==> value >= NEW_FLAG)
    case Doorbell => forall e :: h.pPub <= e < h.pLocal ==> e in s.issued
    case Land => s.pending != []
    case _ => true
  }

  /** Memory after the consumer clears the flag of the slot at `a`. */
  function ClearFlag(m: Memory, a: nat): Memory
    requires Read(m, a) >= NEW_FLAG
  {
    m[a := Read(m, a) - NEW_FLAG]
  }

  /** An entry without its NEW flag, as the consumer's caller reads it. */
  function Unflag(e: Entry): Entry {
    if e != [] && e[0] >= NEW_FLAG then e[0 := e[0] - NEW_FLAG] else e
  }

  function Unflagged(es: seq<Entry>): (r: seq<Entry>)
    ensures |r| == |es|
  {
    seq(|es|, k requires 0 <= k < |es| => Unflag(es[k]))
  }

  ghost function Next(s: State, step: OooStep): State
    requires s.Geo().slotNum > 0 && s.ring.hist.pPub <= s.ring.hist.pLocal && Enabled(s, step)
  {
    var h := s.ring.hist;
    match step
    case ProducerCall => s.(ring := XgqProtocol.Next(s.ring, s.mem, ProduceStep).0)
    case WriteWord(entry, word, value) =>
      s.(pending := s.pending + [Write(entry, word, value)],
         issued := if word == 0 then s.issued + {entry} else s.issued)
    case Doorbell =>
      var entries := EntriesBetween(s.Geo(), Landed(s.Geo(), s.mem, s.pending), h.pPub, h.pLocal);
      s.(ring := s.ring.(hist := h.(pPub := h.pLocal, published := h.published + entries)),
         mem := WriteProduced(s.ring.prod, s.mem))
    case Land =>
      s.(mem := s.mem[AddressOf(s.Geo(), s.pending[0]) := s.pending[0].value], pending := s.pending[1..])
    case ConsumerCall =>
      // Until the flag shows, the call spins and nothing but the cached pointer has changed.
      var (result, r) := Consume(s.ring.cons, s.mem);
      if result.Slot? && Read(s.mem, result.addr) >= NEW_FLAG then
        var ring, m := XgqProtocol.Next(s.ring, s.mem, ConsumeStep).0, ClearFlag(s.mem, result.addr);
        var delivered := h.delivered + [SlotWords(m, result.addr, s.Geo().slotSz / 4)];
        s.(ring := ring.(hist := ring.hist.(delivered := delivered)), mem := m)
      else
        s.(ring := s.ring.(cons := AfterCanConsume(s.ring.cons, s.mem),
                           hist := h.(pSeen := if Empty(s.ring.cons) then h.pPub else h.pSeen)))
    case Release =>
      var (ring, m) := XgqProtocol.Next(s.ring, s.mem, NotifyConsumedStep);
      s.(ring := ring, mem := m)
  }

  // ---- the invariant ----

  /** In-flight writes go to slots not yet consumed, word 0 of an entry last. */
  ghost predicate Ordered(g: Geometry, pending: seq<Write>, issued: set<nat>, cLocal: nat, pLocal: nat) {
    && (forall k :: 0 <= k < |pending| ==>
          var w := pending[k];
          && cLocal <= w.entry < pLocal && w.word < g.slotSz / 4
          && (w.word == 0 ==> w.value >= NEW_FLAG && w.entry in issued))
    && (forall k, l :: 0 <= k < l < |pending| && pending[k].word == 0 ==> pending[l].entry != pending[k].entry)
  }

  ghost predicate NothingPending(pending: seq<Write>, e: nat) {
    forall k :: 0 <= k < |pending| ==> pending[k].entry != e
  }

  ghost predicate HeadPending(pending: seq<Write>, e: nat) {
    exists k :: 0 <= k < |pending| && pending[k].entry == e && pending[k].word == 0
  }

  /** A visible flag means the whole entry has landed; an issued entry's flag is visible or on its way. */
  ghost predicate Flags(g: Geometry, m: Memory, pending: seq<Write>, issued: set<nat>, cLocal: nat, pLocal: nat)
    requires g.slotNum > 0
  {
    && (forall e: nat :: cLocal <= e < cLocal + g.slotNum && NewFlag(g, m, e) ==>
          e < pLocal && e in issued && NothingPending(pending, e))
    && (forall e: nat :: cLocal <= e < pLocal && e in issued ==> NewFlag(g, m, e) || HeadPending(pending, e))
  }

  ghost predicate OooInv(s: State) {
    var h := s.ring.hist;
    && s.ring.prod.geo == s.ring.cons.geo
    && ValidGeometry(s.Geo()) && s.Geo().slotNum > 0 && s.Geo().slotSz >= 4
    && Chain(h, s.Geo().slotNum)
    && Mirrors(s.ring, s.mem)
    && (forall e :: e in s.issued ==> e < h.pLocal)
    && (forall e :: h.cLocal <= e < h.pPub ==> e in s.issued)
    && Ordered(s.Geo(), s.pending, s.issued, h.cLocal, h.pLocal)
    && Flags(s.Geo(), s.mem, s.pending, s.issued, h.cLocal, h.pLocal)
    && Standing(s.Geo(), Landed(s.Geo(), s.mem, s.pending), h.base, h.cLocal, h.pPub, h.published)
    && h.delivered == Unflagged(h.published[..h.cLocal - h.base])
    && Standing(s.Geo(), s.mem, h.base, h.cPub, h.cLocal, h.delivered)
  }

  // ---- landing ----

  lemma {:induction false} LandedAppend(g: Geometry, m: Memory, ws: seq<Write>, w: Write)
    requires g.slotNum > 0
    ensures Landed(g, m, ws + [w]) == Landed(g, m, ws)[AddressOf(g, w) := w.value]
    decreases |ws|
  {
    if ws == [] {
      assert ([] + [w])[1..] == [];
    } else {
      assert (ws + [w])[1..] == ws[1..] + [w];
      LandedAppend(g, m[AddressOf(g, ws[0]) := ws[0].value], ws[1..], w);
    }
  }

  /** Landing depends, at an address, only on what memory held there; untouched addresses keep it. */
  lemma {:induction false} LandedAt(g: Geometry, m: Memory, m': Memory, ws: seq<Write>, x: nat)
    requires g.slotNum > 0 && Read(m, x) == Read(m', x)
    ensures Read(Landed(g, m, ws), x) == Read(Landed(g, m', ws), x)
    ensures (forall k :: 0 <= k < |ws| ==> AddressOf(g, ws[k]) != x) ==> Read(Landed(g, m, ws), x) == Read(m, x)
    decreases |ws|
  {
    if ws != [] {
      var a := AddressOf(g, ws[0]);
      LandedAt(g, m[a := ws[0].value], m'[a := ws[0].value], ws[1..], x);
      if forall k :: 0 <= k < |ws| ==> AddressOf(g, ws[k]) != x {
        assert forall k :: 0 <= k < |ws| - 1 ==> AddressOf(g, ws[1..][k]) != x by {
          forall k | 0 <= k < |ws| - 1 ensures AddressOf(g, ws[1..][k]) != x {
            assert ws[1..][k] == ws[k + 1];
          }
        }
      }
    }
  }

  /** Memories that agree on the slots agree on them after landing. */
  lemma StandingAfterLanding(g: Geometry, m: Memory, m': Memory, ws: seq<Write>,
                             base: nat, lo: nat, hi: nat, published: seq<Entry>)
    requires g.slotNum > 0 && Standing(g, Landed(g, m, ws), base, lo, hi, published)
    requires forall i: nat, x: nat :: lo <= i < hi && SlotOf(g, i) <= x < SlotOf(g, i) + g.slotSz ==>
               Read(m, x) == Read(m', x)
    ensures Standing(g, Landed(g, m', ws), base, lo, hi, published)
  {
    var l, l' := Landed(g, m, ws), Landed(g, m', ws);
    forall i: nat | lo <= i < hi ensures EntryAt(g, l', i) == EntryAt(g, l, i) {
      forall x: nat | SlotOf(g, i) <= x < SlotOf(g, i) + g.slotSz ensures Read(l, x) == Read(l', x) {
        LandedAt(g, m, m', ws, x);
      }
      EntryFrame(g, l, l', i);
    }
  }

  /** With nothing in flight to its slot, an entry reads the same now as after landing. */
  lemma SettledEntry(s: State, e: nat)
    requires OooInv(s) && NothingPending(s.pending, e) && s.ring.hist.cLocal <= e < s.ring.hist.pPub
    ensures EntryAt(s.Geo(), s.mem, e) == EntryAt(s.Geo(), Landed(s.Geo(), s.mem, s.pending), e)
  {
    var g := s.Geo();
    forall x: nat | SlotOf(g, e) <= x < SlotOf(g, e) + g.slotSz
      ensures Read(s.mem, x) == Read(Landed(g, s.mem, s.pending), x)
    {
      forall k | 0 <= k < |s.pending| ensures AddressOf(g, s.pending[k]) != x {
        AwayFromSlot(s, k, e);
      }
      LandedAt(g, s.mem, s.mem, s.pending, x);
    }
    EntryFrame(g, s.mem, Landed(g, s.mem, s.pending), e);
  }

  /** A write in flight stays out of every other live slot. */
  lemma AwayFromSlot(s: State, k: nat, e: nat)
    requires OooInv(s) && k < |s.pending| && s.pending[k].entry != e
    requires s.ring.hist.cLocal <= e < s.ring.hist.cLocal + s.Geo().slotNum
    ensures var a := AddressOf(s.Geo(), s.pending[k]);
            a < SlotOf(s.Geo(), e) || SlotOf(s.Geo(), e) + s.Geo().slotSz <= a
  {
    var w := s.pending[k];
    if w.entry < e {
      SlotsDisjoint(s.Geo(), w.entry, e);
    } else {
      SlotsDisjoint(s.Geo(), e, w.entry);
    }
  }

  // ---- every step keeps the invariant ----

  lemma ProduceKeeps(s: State)
    requires OooInv(s)
    ensures OooInv(Next(s, ProducerCall))
  {
    ProduceCounts(s.ring, s.mem);
  }

  /** One more write in flight, to a slot whose head is not written yet. */
  lemma WriteFlags(g: Geometry, m: Memory, pending: seq<Write>, issued: set<nat>, cLocal: nat, pLocal: nat, w: Write)
    requires g.slotNum > 0 && pLocal <= cLocal + g.slotNum
    requires Ordered(g, pending, issued, cLocal, pLocal) && Flags(g, m, pending, issued, cLocal, pLocal)
    requires cLocal <= w.entry < pLocal && w.entry !in issued && w.word < g.slotSz / 4
    requires w.word == 0 ==> w.value >= NEW_FLAG
    ensures var issued' := if w.word == 0 then issued + {w.entry} else issued;
            && Ordered(g, pending + [w], issued', cLocal, pLocal)
            && Flags(g, m, pending + [w], issued', cLocal, pLocal)
  {
    var ws := pending + [w];
    assert ws[|pending|] == w;
    assert !NewFlag(g, m, w.entry);
    forall e: nat | HeadPending(pending, e) ensures HeadPending(ws, e) {
      var k :| 0 <= k < |pending| && pending[k].entry == e && pending[k].word == 0;
      assert ws[k] == pending[k];
    }
    assert forall e :: NothingPending(pending, e) && e != w.entry ==> NothingPending(ws, e);
  }

  lemma WriteKeeps(s: State, entry: nat, word: nat, value: u32)
    requires OooInv(s) && Enabled(s, WriteWord(entry, word, value))
    ensures OooInv(Next(s, WriteWord(entry, word, value)))
  {
    var h := s.ring.hist;
    var w := Write(entry, word, value);
    LandedAppend(s.Geo(), s.mem, s.pending, w);
    StandingAfterFill(s.Geo(), Landed(s.Geo(), s.mem, s.pending), h.base, h.cLocal, h.pPub, h.published,
                      entry, AddressOf(s.Geo(), w), value);
    WriteFlags(s.Geo(), s.mem, s.pending, s.issued, h.cLocal, h.pLocal, w);
  }

  /** Memories that agree on the slots show the same flags. */
  lemma SameFlags(g: Geometry, m: Memory, m': Memory, pending: seq<Write>, issued: set<nat>, cLocal: nat, pLocal: nat)
    requires g.slotNum > 0 && Flags(g, m, pending, issued, cLocal, pLocal)
    requires forall e: nat :: NewFlag(g, m', e) <==> NewFlag(g, m, e)
    ensures Flags(g, m', pending, issued, cLocal, pLocal)
  {
  }

  lemma DoorbellStands(s: State)
    requires OooInv(s) && Enabled(s, Doorbell)
    ensures var s' := Next(s, Doorbell);
            Standing(s.Geo(), Landed(s.Geo(), s'.mem, s.pending), s.ring.hist.base, s.ring.hist.cLocal,
                     s.ring.hist.pLocal, s'.ring.hist.published)
  {
    var s' := Next(s, Doorbell);
    var h, g := s.ring.hist, s.Geo();
    StandingAfterPublish(g, Landed(g, s.mem, s.pending), h.base, h.cLocal, h.pPub, h.pLocal, h.published);
    PointerWriteKeepsSlots(s, g.producedAddr, s.ring.prod.produced);
    StandingAfterLanding(g, s.mem, s'.mem, s.pending, h.base, h.cLocal, h.pLocal, s'.ring.hist.published);
  }

  lemma DoorbellKeeps(s: State)
    requires OooInv(s) && Enabled(s, Doorbell)
    ensures OooInv(Next(s, Doorbell))
  {
    var h, m := s.ring.hist, Next(s, Doorbell).mem;
    DoorbellStands(s);
    PointerWriteKeepsSlots(s, s.Geo().producedAddr, s.ring.prod.produced);
    SameFlags(s.Geo(), s.mem, m, s.pending, s.issued, h.cLocal, h.pLocal);
    StandingFrame(s.Geo(), s.mem, m, h.base, h.cPub, h.cLocal, h.delivered);
  }

  lemma PointerWriteKeepsSlots(s: State, a: nat, v: u32)
    requires ValidGeometry(s.Geo()) && s.Geo().slotNum > 0 && s.Geo().slotSz >= 4
    requires a == s.Geo().producedAddr || a == s.Geo().consumedAddr
    ensures forall i: nat, x: nat :: SlotOf(s.Geo(), i) <= x < SlotOf(s.Geo(), i) + s.Geo().slotSz ==>
              Read(s.mem, x) == Read(s.mem[a := v], x)
    ensures forall e: nat :: NewFlag(s.Geo(), s.mem[a := v], e) <==> NewFlag(s.Geo(), s.mem, e)
  {
    var m := s.mem[a := v];
    forall i: nat, x: nat | SlotOf(s.Geo(), i) <= x < SlotOf(s.Geo(), i) + s.Geo().slotSz
      ensures Read(s.mem, x) == Read(m, x)
    {
      SlotInside(s.Geo(), i);
    }
    forall e: nat ensures NewFlag(s.Geo(), m, e) <==> NewFlag(s.Geo(), s.mem, e) {
      SlotInside(s.Geo(), e);
    }
  }

  /** What is in flight once the oldest write is gone. */
  lemma LandPending(pending: seq<Write>, e: nat)
    requires pending != []
    ensures NothingPending(pending, e) ==> NothingPending(pending[1..], e)
    ensures HeadPending(pending, e) && !(pending[0].entry == e && pending[0].word == 0) ==> HeadPending(pending[1..], e)
  {
    if HeadPending(pending, e) && !(pending[0].entry == e && pending[0].word == 0) {
      var k :| 0 <= k < |pending| && pending[k].entry == e && pending[k].word == 0;
      assert pending[1..][k - 1] == pending[k];
    }
  }

  lemma LandFlags(s: State)
    requires OooInv(s) && s.pending != []
    ensures var h := s.ring.hist;
            Flags(s.Geo(), Next(s, Land).mem, s.pending[1..], s.issued, h.cLocal, h.pLocal)
  {
    var h, g, w, m := s.ring.hist, s.Geo(), s.pending[0], Next(s, Land).mem;
    forall e: nat | h.cLocal <= e < h.cLocal + g.slotNum && e != w.entry
      ensures NewFlag(g, m, e) <==> NewFlag(g, s.mem, e)
    {
      AwayFromSlot(s, 0, e);
    }
    assert w.word != 0 ==> !NewFlag(g, m, w.entry) by {
      assert !NothingPending(s.pending, w.entry);
    }
    assert w.word == 0 ==> NothingPending(s.pending[1..], w.entry);
    forall e: nat
      ensures NothingPending(s.pending, e) ==> NothingPending(s.pending[1..], e)
      ensures HeadPending(s.pending, e) && !(w.entry == e && w.word == 0) ==> HeadPending(s.pending[1..], e)
    {
      LandPending(s.pending, e);
    }
  }

  lemma LandKeeps(s: State)
    requires OooInv(s) && s.pending != []
    ensures OooInv(Next(s, Land))
  {
    var h, w := s.ring.hist, s.pending[0];
    SlotInside(s.Geo(), w.entry);
    LandFlags(s);
    StandingAfterFill(s.Geo(), s.mem, h.base, h.cPub, h.cLocal, h.delivered, w.entry, AddressOf(s.Geo(), w), w.value);
    assert forall k :: 0 <= k < |s.pending| - 1 ==> s.pending[1..][k] == s.pending[k + 1];
  }

  /** The entry a flag lets through is the next published one, whole. */
  lemma FlaggedEntryIsNext(s: State)
    requires OooInv(s) && s.ring.hist.cLocal < s.ring.hist.pPub && NewFlag(s.Geo(), s.mem, s.ring.hist.cLocal)
    ensures var h := s.ring.hist;
            EntryAt(s.Geo(), s.mem, h.cLocal) == h.published[h.cLocal - h.base]
  {
    var h, g := s.ring.hist, s.Geo();
    assert NothingPending(s.pending, h.cLocal);
    SettledEntry(s, h.cLocal);
    assert EntryAt(g, Landed(g, s.mem, s.pending), h.cLocal) == h.published[h.cLocal - h.base];
  }

  lemma ConsumeAddress(s: State)
    requires OooInv(s) && Consume(s.ring.cons, s.mem).0.Slot?
    ensures Consume(s.ring.cons, s.mem).0.addr == SlotOf(s.Geo(), s.ring.hist.cLocal)
    ensures s.ring.hist.cLocal < s.ring.hist.pPub
  {
    CanConsumeExact(s.ring, s.mem);
    SlotPtrFindsSlot(s.Geo(), s.ring.hist.cLocal);
  }

  /** Clearing the flag of the entry just taken, for every live slot after it. */
  lemma ClearedFlags(g: Geometry, m: Memory, c: nat, e: nat)
    requires g.slotNum > 0 && g.slotSz >= 4 && NewFlag(g, m, c) && c < e <= c + g.slotNum
    ensures var m' := ClearFlag(m, SlotOf(g, c));
            if e == c + g.slotNum then !NewFlag(g, m', e)
            else forall x: nat :: SlotOf(g, e) <= x < SlotOf(g, e) + g.slotSz ==> Read(m', x) == Read(m, x)
  {
    if e == c + g.slotNum {
      NextLapSameSlot(c, g.slotNum);
    } else {
      SlotsDisjoint(g, c, e);
    }
  }

  lemma NextLapSameSlot(c: nat, n: nat)
    requires n > 0
    ensures (c + n) % n == c % n
  {
    DivMod(c, n);
    assert (c / n + 1) * n == (c / n) * n + n;
    ModUnique(c + n, n, c / n + 1, c % n);
  }

  /** The consumer's call finds an entry whose flag shows. */
  ghost predicate Takes(s: State) {
    var result := Consume(s.ring.cons, s.mem).0;
    result.Slot? && Read(s.mem, result.addr) >= NEW_FLAG
  }

  /** Clearing the flag of entry `c` leaves the entries after it to land as published. */
  lemma ClearedStands(g: Geometry, m: Memory, ws: seq<Write>, base: nat, c: nat, hi: nat, published: seq<Entry>)
    requires g.slotNum > 0 && g.slotSz >= 4 && NewFlag(g, m, c) && c < hi <= c + g.slotNum
    requires Standing(g, Landed(g, m, ws), base, c, hi, published)
    ensures Standing(g, Landed(g, ClearFlag(m, SlotOf(g, c)), ws), base, c + 1, hi, published)
  {
    var m' := ClearFlag(m, SlotOf(g, c));
    forall i: nat, x: nat | c + 1 <= i < hi && SlotOf(g, i) <= x < SlotOf(g, i) + g.slotSz
      ensures Read(m, x) == Read(m', x)
    {
      ClearedFlags(g, m, c, i);
    }
    StandingAfterLanding(g, m, m', ws, base, c + 1, hi, published);
  }

  /** What was taken before entry `c` still stands, and so does that entry with its flag cleared. */
  lemma ClearedHolds(g: Geometry, m: Memory, base: nat, lo: nat, c: nat, delivered: seq<Entry>)
    requires g.slotNum > 0 && g.slotSz >= 4 && NewFlag(g, m, c) && c < lo + g.slotNum
    requires Standing(g, m, base, lo, c, delivered)
    ensures var m' := ClearFlag(m, SlotOf(g, c));
            Standing(g, m', base, lo, c + 1, delivered + [EntryAt(g, m', c)])
  {
    var a := SlotOf(g, c);
    var m' := ClearFlag(m, a);
    StandingAfterFill(g, m, base, lo, c, delivered, c, a, Read(m, a) - NEW_FLAG);
    StandingAfterPublish(g, m', base, lo, c, c + 1, delivered);
    assert EntriesBetween(g, m', c, c + 1) == [EntryAt(g, m', c)];
  }

  /** Taking the next entry clears its flag, and gives the caller the slot as it is then. */
  lemma TakeEffect(s: State)
    requires OooInv(s) && Takes(s)
    ensures var h, g, s' := s.ring.hist, s.Geo(), Next(s, ConsumerCall);
            && h.cLocal < h.pPub && NewFlag(g, s.mem, h.cLocal)
            && s'.mem == ClearFlag(s.mem, SlotOf(g, h.cLocal))
            && s'.ring.hist.delivered == h.delivered + [EntryAt(g, s'.mem, h.cLocal)]
  {
    ConsumeAddress(s);
  }

  lemma TakeStands(s: State)
    requires OooInv(s) && Takes(s)
    ensures var h := s.ring.hist;
            Standing(s.Geo(), Landed(s.Geo(), Next(s, ConsumerCall).mem, s.pending), h.base, h.cLocal + 1, h.pPub,
                     h.published)
  {
    var h := s.ring.hist;
    TakeEffect(s);
    ClearedStands(s.Geo(), s.mem, s.pending, h.base, h.cLocal, h.pPub, h.published);
  }

  lemma TakeFlags(s: State)
    requires OooInv(s) && Takes(s)
    ensures var h := s.ring.hist;
            && Ordered(s.Geo(), s.pending, s.issued, h.cLocal + 1, h.pLocal)
            && Flags(s.Geo(), Next(s, ConsumerCall).mem, s.pending, s.issued, h.cLocal + 1, h.pLocal)
  {
    var m := Next(s, ConsumerCall).mem;
    var g, c := s.Geo(), s.ring.hist.cLocal;
    ConsumeAddress(s);
    assert NothingPending(s.pending, c);
    forall e: nat | c < e <= c + g.slotNum
      ensures e < c + g.slotNum ==> (NewFlag(g, m, e) <==> NewFlag(g, s.mem, e))
      ensures e == c + g.slotNum ==> !NewFlag(g, m, e)
    {
      ClearedFlags(g, s.mem, c, e);
    }
  }

  lemma ClearedEntry(m: Memory, a: nat, n: nat)
    requires n > 0 && Read(m, a) >= NEW_FLAG
    ensures SlotWords(ClearFlag(m, a), a, n) == Unflag(SlotWords(m, a, n))
  {
  }

  lemma UnflaggedAppend(es: seq<Entry>, e: Entry)
    ensures Unflagged(es + [e]) == Unflagged(es) + [Unflag(e)]
  {
  }

  lemma TakeGives(s: State)
    requires OooInv(s) && Takes(s)
    ensures var h, h' := s.ring.hist, Next(s, ConsumerCall).ring.hist;
            && h.base <= h.cLocal < h.base + |h.published|
            && h'.delivered == h.delivered + [Unflag(h.published[h.cLocal - h.base])]
  {
    TakeEffect(s);
    FlaggedEntryIsNext(s);
    ClearedEntry(s.mem, SlotOf(s.Geo(), s.ring.hist.cLocal), s.Geo().slotSz / 4);
  }

  /** The caller is given the next published entry, whole, its flag cleared. */
  lemma TakeDelivers(s: State)
    requires OooInv(s) && Takes(s)
    ensures var h, h' := s.ring.hist, Next(s, ConsumerCall).ring.hist;
            && h.base <= h.cLocal < h.base + |h.published|
            && h'.delivered == h.delivered + [Unflag(h.published[h.cLocal - h.base])]
            && h'.delivered == Unflagged(h.published[..h.cLocal + 1 - h.base])
  {
    var h := s.ring.hist;
    TakeGives(s);
    UnflaggedAppend(h.published[..h.cLocal - h.base], h.published[h.cLocal - h.base]);
    assert h.published[..h.cLocal - h.base] + [h.published[h.cLocal - h.base]] == h.published[..h.cLocal + 1 - h.base];
  }

  /** What was taken and not released stands in its slots, the entry just taken included. */
  lemma TakeHolds(s: State)
    requires OooInv(s) && Takes(s)
    ensures var h, s' := s.ring.hist, Next(s, ConsumerCall);
            Standing(s.Geo(), s'.mem, h.base, h.cPub, h.cLocal + 1, s'.ring.hist.delivered)
  {
    var h := s.ring.hist;
    TakeEffect(s);
    ClearedHolds(s.Geo(), s.mem, h.base, h.cPub, h.cLocal, h.delivered);
  }

  lemma TakeCounts(s: State)
    requires OooInv(s) && Takes(s)
    ensures var s' := Next(s, ConsumerCall);
            && s'.ring.hist.cLocal == s.ring.hist.cLocal + 1
            && Chain(s'.ring.hist, s.Geo().slotNum) && Mirrors(s'.ring, s'.mem)
  {
    ConsumeAddress(s);
    ConsumeCounts(s.ring, s.mem);
    SlotInside(s.Geo(), s.ring.hist.cLocal);
  }

  lemma TakeKeeps(s: State)
    requires OooInv(s) && Takes(s)
    ensures OooInv(Next(s, ConsumerCall))
  {
    TakeCounts(s);
    TakeStands(s);
    TakeFlags(s);
    TakeDelivers(s);
    TakeHolds(s);
  }

  lemma SpinKeeps(s: State)
    requires OooInv(s) && !Takes(s)
    ensures OooInv(Next(s, ConsumerCall))
  {
    CanConsumeExact(s.ring, s.mem);
  }

  lemma ReleaseKeeps(s: State)
    requires OooInv(s)
    ensures OooInv(Next(s, Release))
  {
    var m := Next(s, Release).mem;
    var h, g := s.ring.hist, s.Geo();
    PointerWriteKeepsSlots(s, g.consumedAddr, s.ring.cons.consumed);
    StandingAfterLanding(g, s.mem, m, s.pending, h.base, h.cLocal, h.pPub, h.published);
    SameFlags(g, s.mem, m, s.pending, s.issued, h.cLocal, h.pLocal);
  }

  lemma StepKeeps(s: State, step: OooStep)
    requires OooInv(s) && Enabled(s, step)
    ensures OooInv(Next(s, step))
  {
    match step
    case ProducerCall => ProduceKeeps(s);
    case WriteWord(entry, word, value) => WriteKeeps(s, entry, word, value);
    case Doorbell => DoorbellKeeps(s);
    case Land => LandKeeps(s);
    case ConsumerCall =>
      if Takes(s) {
        TakeKeeps(s);
      } else {
        SpinKeeps(s);
      }
    case Release => ReleaseKeeps(s);
  }

  // ---- what each step does ----

  /** A slot write in flight arrives: it changes, once landed, that word of that entry and no other entry. */
  lemma WriteArrives(s: State, entry: nat, word: nat, value: u32, i: nat)
    requires OooInv(s) && Enabled(s, WriteWord(entry, word, value))
    requires s.ring.hist.cLocal <= i < s.ring.hist.pLocal
    ensures var g, s' := s.Geo(), Next(s, WriteWord(entry, word, value));
            var was, now := EntryAt(g, Landed(g, s.mem, s.pending), i), EntryAt(g, Landed(g, s'.mem, s'.pending), i);
            now == if i == entry then was[word := value] else was
  {
    var g, w := s.Geo(), Write(entry, word, value);
    LandedAppend(g, s.mem, s.pending, w);
    EntryAfterWrite(g, Landed(g, s.mem, s.pending), entry, word, value, i);
  }

  lemma EntryAfterWrite(g: Geometry, m: Memory, entry: nat, word: nat, value: u32, i: nat)
    requires g.slotNum > 0 && word < g.slotSz / 4 && entry - g.slotNum < i < entry + g.slotNum
    ensures var m' := m[SlotOf(g, entry) + 4 * word := value];
            EntryAt(g, m', i) == if i == entry then EntryAt(g, m, i)[word := value] else EntryAt(g, m, i)
  {
    var m' := m[SlotOf(g, entry) + 4 * word := value];
    if i == entry {
      WordUpdate(m, SlotOf(g, i), g.slotSz / 4, word, value);
    } else {
      if i < entry { SlotsDisjoint(g, i, entry); } else { SlotsDisjoint(g, entry, i); }
      EntryFrame(g, m, m', i);
    }
  }

  /** Landing takes the oldest write out of flight and changes nothing of what will stand in the end. */
  lemma LandMoves(s: State)
    requires OooInv(s) && s.pending != []
    ensures var g, s' := s.Geo(), Next(s, Land);
            && s'.pending == s.pending[1..] && s'.ring == s.ring
            && Read(s'.mem, AddressOf(g, s.pending[0])) == s.pending[0].value
            && Landed(g, s'.mem, s'.pending) == Landed(g, s.mem, s.pending)
  {
  }

  /** The doorbell publishes, in order, what will stand in every slot handed out since the last one. */
  lemma DoorbellPublishes(s: State)
    requires OooInv(s) && Enabled(s, Doorbell)
    ensures var h, g, published := s.ring.hist, s.Geo(), Next(s, Doorbell).ring.hist.published;
            && h.published <= published && |published| == h.pLocal - h.base
            && forall i: nat :: h.pPub <= i < h.pLocal ==>
                 published[i - h.base] == EntryAt(g, Landed(g, s.mem, s.pending), i)
  {
    var h, g := s.ring.hist, s.Geo();
    PublishedAre(g, Landed(g, s.mem, s.pending), h.base, h.pPub, h.pLocal, h.published);
  }

  /** It shows the producer's counter at once, so that the consumer's call finds an entry exactly if one is left. */
  lemma DoorbellShows(s: State)
    requires OooInv(s) && Enabled(s, Doorbell)
    ensures var s' := Next(s, Doorbell);
            && Read(s'.mem, s.Geo().producedAddr) == s.ring.prod.produced
            && (Consume(s'.ring.cons, s'.mem).0.Slot? <==> s.ring.hist.cLocal < s.ring.hist.pLocal)
  {
    var s' := Next(s, Doorbell);
    CanConsumeExact(s'.ring, s'.mem);
  }

  /** A release gives the producer back every slot consumed. */
  lemma ReleaseFrees(s: State)
    requires OooInv(s)
    ensures var h, g, s' := s.ring.hist, s.Geo(), Next(s, Release);
            && Read(s'.mem, g.consumedAddr) == s.ring.cons.consumed && s'.ring.hist.cPub == h.cLocal
            && (Produce(s'.ring.prod, s'.mem).0.Slot? <==> h.pLocal - h.cLocal < g.slotNum)
  {
    var s' := Next(s, Release);
    CanProduceExact(s'.ring, s'.mem);
  }

  // ---- whole runs ----

  ghost predicate Allowed(s: State, steps: seq<OooStep>)
    requires OooInv(s)
    decreases |steps|
  {
    steps == [] ||
    (Enabled(s, steps[0]) &&
     (StepKeeps(s, steps[0]);
      Allowed(Next(s, steps[0]), steps[1..])))
  }

  ghost function Final(s: State, steps: seq<OooStep>): (s': State)
    requires OooInv(s) && Allowed(s, steps)
    ensures OooInv(s')
    decreases |steps|
  {
    if steps == [] then s
    else
      StepKeeps(s, steps[0]);
      Final(Next(s, steps[0]), steps[1..])
  }

  /** A ring just set up, nothing in flight, and every slot's flag clear. */
  ghost predicate FreshFlags(s: State) {
    var b := s.ring.hist.base;
    && s.ring.prod.geo == s.ring.cons.geo
    && ValidGeometry(s.Geo()) && s.Geo().slotNum > 0 && s.Geo().slotSz >= 4
    && s.ring.hist == Hist(b, b, b, b, b, b, b, [], [])
    && Mirrors(s.ring, s.mem)
    && s.pending == [] && s.issued == {}
    && forall e: nat :: !NewFlag(s.Geo(), s.mem, e)
  }

  lemma FreshFlagsSafe(s: State)
    requires FreshFlags(s)
    ensures OooInv(s)
  {
  }

  /**
   * In every run that starts with all flags clear, what the consumer's callers were given is a prefix of
   * what was published, flags cleared: no stale, torn or repeated entry, however far the doorbell runs
   * ahead of the contents. And until it is released, an entry taken reads the same in its slot.
   */
  lemma NeverStale(s: State, steps: seq<OooStep>)
    requires FreshFlags(s) && (FreshFlagsSafe(s); Allowed(s, steps))
    ensures (FreshFlagsSafe(s);
            var f := Final(s, steps);
            var h := f.ring.hist;
            && h.delivered <= Unflagged(h.published)
            && Standing(f.Geo(), f.mem, h.base, h.cPub, h.cLocal, h.delivered))
  {
    FreshFlagsSafe(s);
    var h := Final(s, steps).ring.hist;
    UnflaggedPrefix(h.published, h.cLocal - h.base);
  }

  lemma UnflaggedPrefix(es: seq<Entry>, n: nat)
    requires n <= |es|
    ensures Unflagged(es[..n]) <= Unflagged(es)
  {
    forall k | 0 <= k < n ensures Unflagged(es[..n])[k] == Unflagged(es)[k] {
    }
  }

  function Lands(n: nat): (steps: seq<OooStep>)
    ensures |steps| == n
  {
    if n == 0 then [] else [Land] + Lands(n - 1)
  }

  lemma {:induction false} LandsDrain(s: State)
    requires OooInv(s)
    ensures Allowed(s, Lands(|s.pending|))
    ensures var s' := Final(s, Lands(|s.pending|)); s'.pending == [] && s'.ring == s.ring
    decreases |s.pending|
  {
    if s.pending != [] {
      var steps := Lands(|s.pending|);
      assert steps[0] == Land && steps[1..] == Lands(|s.pending| - 1);
      var s' := Next(s, Land);
      assert |s'.pending| == |s.pending| - 1 && s'.ring == s.ring;
      LandKeeps(s);
      LandsDrain(s');
    }
  }

  lemma SettledIsTaken(s: State)
    requires OooInv(s) && s.pending == [] && s.ring.hist.cLocal < s.ring.hist.pPub
    ensures Takes(s)
  {
    var c := s.ring.hist.cLocal;
    assert c in s.issued && !HeadPending(s.pending, c);
    assert NewFlag(s.Geo(), s.mem, c);
    CanConsumeExact(s.ring, s.mem);
    ConsumeAddress(s);
  }

  /** The spin always ends: once what is in flight lands, the next published entry is taken. */
  lemma SpinEnds(s: State)
    requires OooInv(s) && s.ring.hist.cLocal < s.ring.hist.pPub
    ensures Allowed(s, Lands(|s.pending|))
    ensures var s' := Final(s, Lands(|s.pending|)); s'.ring == s.ring && Takes(s')
  {
    LandsDrain(s);
    SettledIsTaken(Final(s, Lands(|s.pending|)));
  }
}

/**
 * The XGQ protocol as a state machine: any number of rings over one shared memory, each with a
 * producing and a consuming endpoint, under every interleaving of their API calls.
 *
 * What a call returns, and which shared words it writes, depends only on the 32-bit words the code sees.
 * `Hist` records beside them the unbounded counters and the entries that passed. It decides nothing but
 * which slots a well-behaved producer may fill.
 */
module XgqProtocol {
  import opened Bits
  import opened XgqRing

  /** The words of one queue entry. */
  type Entry = seq<u32>

  /**
   * base: counter value when the ring was set up; cSeen, pSeen: peer counters last read;
   * cPub, pPub: counters published in shared memory; cLocal, pLocal: the endpoints' own.
   * published: slot contents at the moment they were published; delivered: what the consumer was handed,
   * less what a re-attach makes it forget, which is handed out again.
   */
  datatype Hist = Hist(base: nat, cSeen: nat, cPub: nat, cLocal: nat, pSeen: nat, pPub: nat, pLocal: nat,
                       published: seq<Entry>, delivered: seq<Entry>)

  datatype RingState = RingState(prod: Ring, cons: Ring, hist: Hist) {
    function Geo(): Geometry {
      prod.geo
    }
  }

  /** The entry standing in the slot of counter value `i`. */
  function EntryAt(g: Geometry, m: Memory, i: nat): Entry
    requires g.slotNum > 0
  {
    SlotWords(m, SlotOf(g, i), g.slotSz / 4)
  }

  /**
   * Fill writes one word of a slot the producer was handed and has not published; filling in any
   * order, more than once or not at all are all sequences of such steps.
   */
  datatype Step =
    | ProduceStep
    | FillStep(entry: nat, word: nat, value: u32)
    | NotifyProducedStep
    | ConsumeStep
    | NotifyConsumedStep
    | ProducerFastForward
    | ConsumerFastForward

  /** What the two callers must respect; every API call itself is always allowed. */
  ghost predicate Enabled(s: RingState, step: Step) {
    match step
    case FillStep(entry, word, _) => s.hist.pPub <= entry < s.hist.pLocal && word < s.Geo().slotSz / 4
    case _ => true
  }

  function EntriesBetween(g: Geometry, m: Memory, lo: nat, hi: nat): (es: seq<Entry>)
    requires lo <= hi && g.slotNum > 0
    ensures |es| == hi - lo
  {
    seq(hi - lo, k requires 0 <= k < hi - lo => EntryAt(g, m, lo + k))
  }

  /** The first `n` elements, or all if there are fewer. */
  function Prefix<T>(s: seq<T>, n: int): seq<T> {
    if 0 <= n <= |s| then s[..n] else s
  }

  /** The effect of one call on the ring's two endpoints and on shared memory. */
  ghost function Next(s: RingState, m: Memory, step: Step): (RingState, Memory)
    requires s.prod.geo.slotNum > 0 && s.hist.pPub <= s.hist.pLocal
  {
    var h := s.hist;
    match step
    case ProduceStep =>
      var (result, r) := Produce(s.prod, m);
      var h' := h.(cSeen := if Full(s.prod) then h.cPub else h.cSeen,
                   pLocal := if result.Slot? then h.pLocal + 1 else h.pLocal);
      (s.(prod := r, hist := h'), m)
    case FillStep(entry, word, value) =>
      (s, m[SlotOf(s.Geo(), entry) + 4 * word := value])
    case NotifyProducedStep =>
      var h' := h.(pPub := h.pLocal, published := h.published + EntriesBetween(s.Geo(), m, h.pPub, h.pLocal));
      (s.(hist := h'), WriteProduced(s.prod, m))
    case ConsumeStep =>
      var (result, r) := Consume(s.cons, m);
      var h' := h.(pSeen := if Empty(s.cons) then h.pPub else h.pSeen,
                   cLocal := if result.Slot? then h.cLocal + 1 else h.cLocal,
                   delivered := if result.Slot? then h.delivered + [SlotWords(m, result.addr, s.Geo().slotSz / 4)]
                                else h.delivered);
      (s.(cons := r, hist := h'), m)
    case NotifyConsumedStep =>
      (s.(hist := h.(cPub := h.cLocal)), WriteConsumed(s.cons, m))
    case ProducerFastForward =>
      (s.(prod := FastForward(s.prod, m), hist := h.(cSeen := h.cPub, pLocal := h.pPub)), m)
    case ConsumerFastForward =>
      var h' := h.(pSeen := h.pPub, cLocal := h.cPub, delivered := Prefix(h.delivered, h.cPub - h.base));
      (s.(cons := FastForward(s.cons, m), hist := h'), m)
  }

  // ---- the invariant ----

  ghost predicate Chain(h: Hist, n: nat) {
    h.base <= h.cSeen <= h.cPub <= h.cLocal <= h.pSeen <= h.pPub <= h.pLocal <= h.cSeen + n
  }

  /** Every 32-bit word is its unbounded counter modulo 2^32. */
  ghost predicate Mirrors(s: RingState, m: Memory) {
    && s.prod.produced == Wrap32(s.hist.pLocal)
    && s.prod.consumed == Wrap32(s.hist.cSeen)
    && s.cons.produced == Wrap32(s.hist.pSeen)
    && s.cons.consumed == Wrap32(s.hist.cLocal)
    && Read(m, s.Geo().producedAddr) == Wrap32(s.hist.pPub)
    && Read(m, s.Geo().consumedAddr) == Wrap32(s.hist.cPub)
  }

  /** The entries with counter values in [lo, hi) stand in their slots, as published. */
  ghost predicate Standing(g: Geometry, m: Memory, base: nat, lo: nat, hi: nat, published: seq<Entry>)
    requires g.slotNum > 0
  {
    && base <= lo <= hi
    && |published| == hi - base
    && forall i: nat :: lo <= i < hi ==> EntryAt(g, m, i) == published[i - base]
  }

  ghost predicate Inv(s: RingState, m: Memory) {
    var h := s.hist;
    && s.prod.geo == s.cons.geo
    && ValidGeometry(s.Geo())
    && s.Geo().slotNum > 0
    && Chain(h, s.Geo().slotNum)
    && Mirrors(s, m)
    && Standing(s.Geo(), m, h.base, h.cPub, h.pPub, h.published)
    && h.delivered == h.published[..h.cLocal - h.base]
  }

  // ---- exactness of the cached checks ----

  lemma WrapDifference(a: nat, b: nat)
    requires 0 <= a - b < 0x1_0000_0000
    ensures Sub32(Wrap32(a), Wrap32(b)) == a - b
    ensures Wrap32(a) == Wrap32(b) <==> a == b
  {
    var q, r := a / 0x1_0000_0000 - b / 0x1_0000_0000, Wrap32(a) - Wrap32(b);
    assert a - b == q * 0x1_0000_0000 + r;
    if r >= 0 {
      assert q == 0;
      WrapSmall(r);
    } else {
      assert q == 1;
      ModUnique(r, 0x1_0000_0000, -1, a - b);
    }
  }

  lemma WrapNext(a: nat)
    ensures Inc32(Wrap32(a)) == Wrap32(a + 1)
  {
    WrapAdd(a, 1);
  }

  /** The producer's cached check answers exactly whether the peer's published counter leaves room. */
  lemma CanProduceExact(s: RingState, m: Memory)
    requires Chain(s.hist, s.Geo().slotNum) && Mirrors(s, m)
    ensures Produce(s.prod, m).0.Slot? <==> s.hist.pLocal - s.hist.cPub < s.Geo().slotNum
    ensures Full(s.prod) <==> s.hist.pLocal - s.hist.cSeen >= s.Geo().slotNum
    ensures !Full(AfterCanProduce(s.prod, m)) <==> !Full(ReadConsumed(s.prod, m))
  {
    WrapDifference(s.hist.pLocal, s.hist.cSeen);
    WrapDifference(s.hist.pLocal, s.hist.cPub);
  }

  /** The consumer's cached check answers exactly whether an entry is published and not yet consumed. */
  lemma CanConsumeExact(s: RingState, m: Memory)
    requires Chain(s.hist, s.Geo().slotNum) && Mirrors(s, m) && s.prod.geo == s.cons.geo
    ensures Consume(s.cons, m).0.Slot? <==> s.hist.cLocal < s.hist.pPub
    ensures Empty(s.cons) <==> s.hist.cLocal == s.hist.pSeen
    ensures !Empty(AfterCanConsume(s.cons, m)) <==> !Empty(ReadProduced(s.cons, m))
  {
    WrapDifference(s.hist.pSeen, s.hist.cLocal);
    WrapDifference(s.hist.pPub, s.hist.cLocal);
  }

  /** The slot handed to the producer shares no byte with an entry the consumer has not released. */
  lemma ProducedSlotIsFree(s: RingState, m: Memory, i: nat)
    requires Inv(s, m) && Produce(s.prod, m).0.Slot?
    requires s.hist.cPub <= i < s.hist.pLocal
    ensures var a := Produce(s.prod, m).0.addr;
            && a == SlotOf(s.Geo(), s.hist.pLocal)
            && s.Geo().slotAddr <= a && a + s.Geo().slotSz <= SlotEnd(s.Geo())
            && (a + s.Geo().slotSz <= SlotOf(s.Geo(), i) || SlotOf(s.Geo(), i) + s.Geo().slotSz <= a)
  {
    CanProduceExact(s, m);
    SlotPtrFindsSlot(s.Geo(), s.hist.pLocal);
    SlotInside(s.Geo(), s.hist.pLocal);
    SlotsDisjoint(s.Geo(), i, s.hist.pLocal);
  }

  // ---- slots and writes ----

  /** Memory that agrees on a slot holds the same entry in it. */
  lemma EntryFrame(g: Geometry, m: Memory, m': Memory, i: nat)
    requires g.slotNum > 0
    requires forall a: nat :: SlotOf(g, i) <= a < SlotOf(g, i) + g.slotSz ==> Read(m, a) == Read(m', a)
    ensures EntryAt(g, m, i) == EntryAt(g, m', i)
  {
    SlotWordsFrame(m, m', SlotOf(g, i), g.slotSz / 4);
  }

  /** Memory that agrees on all slots keeps the entries standing. */
  lemma StandingFrame(g: Geometry, m: Memory, m': Memory, base: nat, lo: nat, hi: nat, published: seq<Entry>)
    requires g.slotNum > 0 && Standing(g, m, base, lo, hi, published)
    requires forall a: nat :: g.slotAddr <= a < SlotEnd(g) ==> Read(m, a) == Read(m', a)
    ensures Standing(g, m', base, lo, hi, published)
  {
    forall i: nat | lo <= i < hi ensures EntryAt(g, m', i) == EntryAt(g, m, i) {
      SlotInside(g, i);
      EntryFrame(g, m, m', i);
    }
  }

  /** Filling the slot of a later entry, less than a ring ahead, keeps the earlier ones standing. */
  lemma StandingAfterFill(g: Geometry, m: Memory, base: nat, lo: nat, hi: nat, published: seq<Entry>,
                          entry: nat, a: nat, value: u32)
    requires g.slotNum > 0 && Standing(g, m, base, lo, hi, published)
    requires hi <= entry < lo + g.slotNum
    requires SlotOf(g, entry) <= a < SlotOf(g, entry) + g.slotSz
    ensures Standing(g, m[a := value], base, lo, hi, published)
  {
    var m' := m[a := value];
    forall i: nat | lo <= i < hi ensures EntryAt(g, m', i) == EntryAt(g, m, i) {
      SlotsDisjoint(g, i, entry);
      EntryFrame(g, m, m', i);
    }
  }

  /** Publishing up to `hi'` records exactly what stands in the slots. */
  lemma StandingAfterPublish(g: Geometry, m: Memory, base: nat, lo: nat, hi: nat, hi': nat, published: seq<Entry>)
    requires g.slotNum > 0 && Standing(g, m, base, lo, hi, published) && hi <= hi'
    ensures Standing(g, m, base, lo, hi', published + EntriesBetween(g, m, hi, hi'))
  {
    var es := EntriesBetween(g, m, hi, hi');
    forall i: nat | lo <= i < hi' ensures EntryAt(g, m, i) == (published + es)[i - base] {
      if i >= hi {
        assert (published + es)[i - base] == es[i - hi];
      }
    }
  }

  // ---- every step keeps the invariant ----

  /** Memory that agrees on a ring's own addresses keeps what the ring relies on. */
  lemma InvFrame(s: RingState, m: Memory, m': Memory)
    requires Inv(s, m)
    requires forall a: nat :: Owns(s.Geo(), a) ==> Read(m, a) == Read(m', a)
    ensures Inv(s, m')
  {
    var h := s.hist;
    StandingFrame(s.Geo(), m, m', h.base, h.cPub, h.pPub, h.published);
    assert Owns(s.Geo(), s.Geo().producedAddr) && Owns(s.Geo(), s.Geo().consumedAddr);
  }

  lemma ProduceCounts(s: RingState, m: Memory)
    requires Chain(s.hist, s.Geo().slotNum) && Mirrors(s, m) && s.Geo().slotNum > 0
    ensures var s' := Next(s, m, ProduceStep).0; Chain(s'.hist, s.Geo().slotNum) && Mirrors(s', m)
  {
    CanProduceExact(s, m);
    if Produce(s.prod, m).0.Slot? {
      WrapNext(s.hist.pLocal);
    }
  }

  lemma ProduceKeeps(s: RingState, m: Memory)
    requires Inv(s, m)
    ensures Inv(Next(s, m, ProduceStep).0, m)
  {
    ProduceCounts(s, m);
  }

  lemma FillKeeps(s: RingState, m: Memory, entry: nat, word: nat, value: u32)
    requires Inv(s, m) && Enabled(s, FillStep(entry, word, value))
    ensures Inv(s, Next(s, m, FillStep(entry, word, value)).1)
  {
    var a := SlotOf(s.Geo(), entry) + 4 * word;
    var h := s.hist;
    SlotInside(s.Geo(), entry);
    StandingAfterFill(s.Geo(), m, h.base, h.cPub, h.pPub, h.published, entry, a, value);
  }

  lemma NotifyProducedKeeps(s: RingState, m: Memory)
    requires Inv(s, m)
    ensures var (s', m') := Next(s, m, NotifyProducedStep); Inv(s', m')
  {
    var (s', m') := Next(s, m, NotifyProducedStep);
    var h := s.hist;
    StandingAfterPublish(s.Geo(), m, h.base, h.cPub, h.pPub, h.pLocal, h.published);
    StandingFrame(s.Geo(), m, m', h.base, h.cPub, h.pLocal, s'.hist.published);
  }

  lemma ConsumeCounts(s: RingState, m: Memory)
    requires Chain(s.hist, s.Geo().slotNum) && Mirrors(s, m) && s.Geo().slotNum > 0 && s.prod.geo == s.cons.geo
    ensures var s' := Next(s, m, ConsumeStep).0; Chain(s'.hist, s.Geo().slotNum) && Mirrors(s', m)
  {
    CanConsumeExact(s, m);
    if Consume(s.cons, m).0.Slot? {
      WrapNext(s.hist.cLocal);
    }
  }

  /** The entry handed to the consumer is the next published one. */
  lemma ConsumedIsNext(s: RingState, m: Memory)
    requires Inv(s, m) && Consume(s.cons, m).0.Slot?
    ensures var h := s.hist;
            && h.base <= h.cLocal < h.base + |h.published|
            && SlotWords(m, Consume(s.cons, m).0.addr, s.Geo().slotSz / 4) == h.published[h.cLocal - h.base]
  {
    CanConsumeExact(s, m);
    SlotPtrFindsSlot(s.Geo(), s.hist.cLocal);
    assert SlotWords(m, Consume(s.cons, m).0.addr, s.Geo().slotSz / 4) == EntryAt(s.Geo(), m, s.hist.cLocal);
  }

  /** Consuming extends what was delivered by the next published entry, if there is one. */
  lemma ConsumeDelivers(s: RingState, m: Memory)
    requires Inv(s, m)
    ensures var h' := Next(s, m, ConsumeStep).0.hist;
            && s.hist.base <= h'.cLocal <= s.hist.base + |s.hist.published|
            && h'.delivered == s.hist.published[..h'.cLocal - s.hist.base]
  {
    var h := s.hist;
    if Consume(s.cons, m).0.Slot? {
      ConsumedIsNext(s, m);
      assert h.published[..h.cLocal - h.base] + [h.published[h.cLocal - h.base]]
          == h.published[..h.cLocal + 1 - h.base];
    }
  }

  lemma ConsumeKeeps(s: RingState, m: Memory)
    requires Inv(s, m)
    ensures Inv(Next(s, m, ConsumeStep).0, m)
  {
    ConsumeCounts(s, m);
    ConsumeDelivers(s, m);
  }

  lemma NotifyConsumedKeeps(s: RingState, m: Memory)
    requires Inv(s, m)
    ensures var (s', m') := Next(s, m, NotifyConsumedStep); Inv(s', m')
  {
    var (s', m') := Next(s, m, NotifyConsumedStep);
    var h := s.hist;
    StandingFrame(s.Geo(), m, m', h.base, h.cPub, h.pPub, h.published);
  }

  /** Re-attaching at any moment, with entries consumed or produced and not notified or without. */
  lemma FastForwardKeeps(s: RingState, m: Memory, step: Step)
    requires Inv(s, m) && (step.ProducerFastForward? || step.ConsumerFastForward?)
    ensures Inv(Next(s, m, step).0, m)
  {
    var h := s.hist;
    assert h.published[..h.cLocal - h.base][..h.cPub - h.base] == h.published[..h.cPub - h.base];
  }

  /** A consumer that re-attaches continues from what it last notified: later entries are handed out again. */
  lemma ConsumerResumes(s: RingState, m: Memory)
    requires Inv(s, m)
    ensures var h, s' := s.hist, Next(s, m, ConsumerFastForward).0;
            var r := Consume(s'.cons, m).0;
            && s'.hist.cLocal == h.cPub && s'.hist.delivered == h.published[..h.cPub - h.base]
            && (r.Slot? <==> h.cPub < h.pPub)
            && (r.Slot? ==> SlotWords(m, r.addr, s.Geo().slotSz / 4) == h.published[h.cPub - h.base])
  {
    var h, s' := s.hist, Next(s, m, ConsumerFastForward).0;
    FastForwardKeeps(s, m, ConsumerFastForward);
    CanConsumeExact(s', m);
    SlotPtrFindsSlot(s.Geo(), h.cPub);
    if h.cPub < h.pPub {
      assert EntryAt(s.Geo(), m, h.cPub) == h.published[h.cPub - h.base];
    }
  }

  /** A producer that re-attaches continues from what it last notified: later slots are reused. */
  lemma ProducerResumes(s: RingState, m: Memory)
    requires Inv(s, m)
    ensures var h, s' := s.hist, Next(s, m, ProducerFastForward).0;
            var r := Produce(s'.prod, m).0;
            && s'.hist.pLocal == h.pPub
            && (r.Slot? <==> h.pPub - h.cPub < s.Geo().slotNum)
            && (r.Slot? ==> r.addr == SlotOf(s.Geo(), h.pPub))
  {
    var h, s' := s.hist, Next(s, m, ProducerFastForward).0;
    FastForwardKeeps(s, m, ProducerFastForward);
    CanProduceExact(s', m);
    SlotPtrFindsSlot(s.Geo(), h.pPub);
  }

  // ---- what each call does ----

  /** xgq_produce hands out the next slot exactly if there is room, and only then moves on. */
  lemma ProduceAdvances(s: RingState, m: Memory)
    requires Inv(s, m)
    ensures var h, r, s' := s.hist, Produce(s.prod, m).0, Next(s, m, ProduceStep).0;
            if h.pLocal - h.cPub < s.Geo().slotNum then
              r == Slot(SlotOf(s.Geo(), h.pLocal)) && s'.hist.pLocal == h.pLocal + 1
              && s'.prod.produced == Wrap32(h.pLocal + 1)
            else r == NoSlot && s'.hist.pLocal == h.pLocal && s'.prod.produced == s.prod.produced
  {
    CanProduceExact(s, m);
    SlotPtrFindsSlot(s.Geo(), s.hist.pLocal);
    ProduceCounts(s, m);
  }

  /** Filling a word changes that word of that slot, and no other published or handed out one. */
  lemma FillWrites(s: RingState, m: Memory, entry: nat, word: nat, value: u32, i: nat)
    requires Inv(s, m) && Enabled(s, FillStep(entry, word, value)) && s.hist.cPub <= i < s.hist.pLocal
    ensures var m' := Next(s, m, FillStep(entry, word, value)).1;
            EntryAt(s.Geo(), m', i)
            == if i == entry then EntryAt(s.Geo(), m, i)[word := value] else EntryAt(s.Geo(), m, i)
  {
    var g := s.Geo();
    var m' := Next(s, m, FillStep(entry, word, value)).1;
    if i == entry {
      assert |EntryAt(g, m, i)| == g.slotSz / 4;
      WordUpdate(m, SlotOf(g, i), g.slotSz / 4, word, value);
    } else {
      if i < entry { SlotsDisjoint(g, i, entry); } else { SlotsDisjoint(g, entry, i); }
      EntryFrame(g, m, m', i);
    }
  }

  /** What publishing up to `hi` adds to what was published up to `lo`. */
  lemma PublishedAre(g: Geometry, m: Memory, base: nat, lo: nat, hi: nat, published: seq<Entry>)
    requires g.slotNum > 0 && base <= lo <= hi && |published| == lo - base
    ensures var all := published + EntriesBetween(g, m, lo, hi);
            && published <= all && |all| == hi - base
            && forall i: nat :: lo <= i < hi ==> all[i - base] == EntryAt(g, m, i)
  {
    var es := EntriesBetween(g, m, lo, hi);
    forall i: nat | lo <= i < hi ensures (published + es)[i - base] == EntryAt(g, m, i) {
      assert (published + es)[i - base] == es[i - lo];
    }
  }

  /** Notifying production publishes, in order, what stands in every slot handed out since the last time. */
  lemma NotifyProducedPublishes(s: RingState, m: Memory)
    requires Inv(s, m)
    ensures var h, published := s.hist, Next(s, m, NotifyProducedStep).0.hist.published;
            && h.published <= published && |published| == h.pLocal - h.base
            && forall i: nat :: h.pPub <= i < h.pLocal ==> published[i - h.base] == EntryAt(s.Geo(), m, i)
  {
    PublishedAre(s.Geo(), m, s.hist.base, s.hist.pPub, s.hist.pLocal, s.hist.published);
  }

  /** It shows the peer the producer's counter, and the consumer then has an entry exactly if one is left. */
  lemma NotifyProducedShows(s: RingState, m: Memory)
    requires Inv(s, m)
    ensures var (s', m') := Next(s, m, NotifyProducedStep);
            && Read(m', s.Geo().producedAddr) == s.prod.produced
            && (Consume(s'.cons, m').0.Slot? <==> s.hist.cLocal < s.hist.pLocal)
  {
    var (s', m') := Next(s, m, NotifyProducedStep);
    CanConsumeExact(s', m');
  }

  /** Consuming hands over the next entry exactly if one is published, and only then moves on. */
  lemma ConsumeAdvances(s: RingState, m: Memory)
    requires Inv(s, m)
    ensures var h, h', r := s.hist, Next(s, m, ConsumeStep).0.hist, Consume(s.cons, m).0;
            if h.cLocal < h.pPub then
              && r == Slot(SlotOf(s.Geo(), h.cLocal)) && h'.cLocal == h.cLocal + 1
              && h.base <= h.cLocal < h.base + |h.published|
              && h'.delivered == h.delivered + [h.published[h.cLocal - h.base]]
            else r == NoSlot && h'.cLocal == h.cLocal && h'.delivered == h.delivered
  {
    CanConsumeExact(s, m);
    SlotPtrFindsSlot(s.Geo(), s.hist.cLocal);
    if s.hist.cLocal < s.hist.pPub {
      ConsumedIsNext(s, m);
    }
  }

  /** Notifying consumption shows the peer the consumer's counter, and gives it back every slot consumed. */
  lemma NotifyConsumedReleases(s: RingState, m: Memory)
    requires Inv(s, m)
    ensures var h, (s', m') := s.hist, Next(s, m, NotifyConsumedStep);
            && Read(m', s.Geo().consumedAddr) == s.cons.consumed
            && s'.hist.cPub == h.cLocal
            && (Produce(s'.prod, m').0.Slot? <==> h.pLocal - h.cLocal < s.Geo().slotNum)
  {
    var (s', m') := Next(s, m, NotifyConsumedStep);
    NotifyConsumedKeeps(s, m);
    CanProduceExact(s', m');
  }

  // ---- one entry from end to end ----

  /** Memory after the first `k` words of `ws` are filled into the slot of `entry`. */
  ghost function FilledWords(s: RingState, m: Memory, entry: nat, ws: seq<u32>, k: nat): Memory
    requires Inv(s, m) && s.hist.pPub <= entry < s.hist.pLocal && k <= |ws| == s.Geo().slotSz / 4
  {
    if k == 0 then m else Next(s, FilledWords(s, m, entry, ws, k - 1), FillStep(entry, k - 1, ws[k - 1])).1
  }

  lemma {:induction false} FilledStands(s: RingState, m: Memory, entry: nat, ws: seq<u32>, k: nat)
    requires Inv(s, m) && s.hist.pPub <= entry < s.hist.pLocal && k <= |ws| == s.Geo().slotSz / 4
    ensures Inv(s, FilledWords(s, m, entry, ws, k))
    ensures EntryAt(s.Geo(), FilledWords(s, m, entry, ws, k), entry)[..k] == ws[..k]
    decreases k
  {
    if k > 0 {
      FilledStands(s, m, entry, ws, k - 1);
      var m1 := FilledWords(s, m, entry, ws, k - 1);
      FillKeeps(s, m1, entry, k - 1, ws[k - 1]);
      FillWrites(s, m1, entry, k - 1, ws[k - 1], entry);
      var e := EntryAt(s.Geo(), m1, entry);
      assert e[k - 1 := ws[k - 1]][..k] == e[..k - 1] + [ws[k - 1]];
      assert ws[..k] == ws[..k - 1] + [ws[k - 1]];
    }
  }

  /** With room: produce, and fill the slot handed out with `ws`. */
  lemma SendFills(s: RingState, m: Memory, ws: seq<u32>)
    requires Inv(s, m) && s.hist.pLocal - s.hist.cPub < s.Geo().slotNum && |ws| == s.Geo().slotSz / 4
    ensures var s1 := Next(s, m, ProduceStep).0;
            && Inv(s1, m) && s1.Geo() == s.Geo() && s1.hist.pPub <= s.hist.pLocal < s1.hist.pLocal
            && var m1 := FilledWords(s1, m, s.hist.pLocal, ws, |ws|);
            && Inv(s1, m1) && EntryAt(s.Geo(), m1, s.hist.pLocal) == ws
  {
    var s1 := Next(s, m, ProduceStep).0;
    ProduceAdvances(s, m);
    ProduceKeeps(s, m);
    FilledStands(s1, m, s.hist.pLocal, ws, |ws|);
    WholeEntry(EntryAt(s.Geo(), FilledWords(s1, m, s.hist.pLocal, ws, |ws|), s.hist.pLocal), ws);
  }

  lemma NotifyOne(s: RingState, m: Memory, ws: seq<u32>)
    requires Inv(s, m) && s.hist.pLocal == s.hist.pPub + 1 && EntryAt(s.Geo(), m, s.hist.pPub) == ws
    ensures var h' := Next(s, m, NotifyProducedStep).0.hist;
            h'.published == s.hist.published + [ws] && h'.delivered == s.hist.delivered
  {
    assert EntriesBetween(s.Geo(), m, s.hist.pPub, s.hist.pLocal) == [ws];
  }

  /**
   * With room and nothing unpublished: produce, fill the slot with `ws`, notify. The entry `ws` is then
   * published behind all earlier ones, and nothing delivered changes.
   */
  lemma SendPublishes(s: RingState, m: Memory, ws: seq<u32>)
    requires Inv(s, m) && s.hist.pLocal == s.hist.pPub && s.hist.pLocal - s.hist.cPub < s.Geo().slotNum
    requires |ws| == s.Geo().slotSz / 4
    ensures (SendFills(s, m, ws);
             var s1 := Next(s, m, ProduceStep).0;
             var m1 := FilledWords(s1, m, s.hist.pLocal, ws, |ws|);
             var (s2, m2) := Next(s1, m1, NotifyProducedStep);
             Inv(s2, m2) && s2.hist.published == s.hist.published + [ws] && s2.hist.delivered == s.hist.delivered)
  {
    SendFills(s, m, ws);
    ProduceAdvances(s, m);
    var s1 := Next(s, m, ProduceStep).0;
    var m1 := FilledWords(s1, m, s.hist.pLocal, ws, |ws|);
    NotifyProducedKeeps(s1, m1);
    NotifyOne(s1, m1, ws);
  }

  lemma WholeEntry(e: seq<u32>, ws: seq<u32>)
    requires |e| == |ws| && e[..|ws|] == ws[..|ws|]
    ensures e == ws
  {
    assert e[..|ws|] == e && ws[..|ws|] == ws;
  }

  /** Every enabled step of a ring keeps its invariant and touches only addresses the ring owns. */
  lemma StepKeeps(s: RingState, m: Memory, step: Step)
    requires Inv(s, m) && Enabled(s, step)
    ensures var (s', m') := Next(s, m, step);
            && Inv(s', m')
            && s'.Geo() == s.Geo()
            && forall a: nat :: !Owns(s.Geo(), a) ==> Read(m', a) == Read(m, a)
  {
    match step
    case ProduceStep => ProduceKeeps(s, m);
    case FillStep(entry, word, value) =>
      FillKeeps(s, m, entry, word, value);
      SlotInside(s.Geo(), entry);
    case NotifyProducedStep => NotifyProducedKeeps(s, m);
    case ConsumeStep => ConsumeKeeps(s, m);
    case NotifyConsumedStep => NotifyConsumedKeeps(s, m);
    case ProducerFastForward => FastForwardKeeps(s, m, step);
    case ConsumerFastForward => FastForwardKeeps(s, m, step);
  }
}

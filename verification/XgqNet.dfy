/** Whole runs: any number of XGQ rings over one memory, their endpoints interleaved in any way. */
module XgqNet {
  import opened Bits
  import opened XgqRing
  import opened XgqProtocol

  datatype Net = Net(rings: seq<RingState>, mem: Memory)

  /** Some endpoint of ring `ring` takes a step. */
  datatype NetStep = NetStep(ring: nat, step: Step)

  ghost predicate NetInv(net: Net) {
    && (forall i :: 0 <= i < |net.rings| ==> Inv(net.rings[i], net.mem))
    && forall i, j, a: nat :: 0 <= i < j < |net.rings| ==>
         !(Owns(net.rings[i].Geo(), a) && Owns(net.rings[j].Geo(), a))
  }

  ghost predicate NetEnabled(net: Net, t: NetStep) {
    t.ring < |net.rings| && Enabled(net.rings[t.ring], t.step)
  }

  ghost function NetNext(net: Net, t: NetStep): Net
    requires NetInv(net) && NetEnabled(net, t)
  {
    var (s, m) := Next(net.rings[t.ring], net.mem, t.step);
    Net(net.rings[t.ring := s], m)
  }

  lemma NetStepKeeps(net: Net, t: NetStep)
    requires NetInv(net) && NetEnabled(net, t)
    ensures NetInv(NetNext(net, t))
  {
    var net' := NetNext(net, t);
    StepKeeps(net.rings[t.ring], net.mem, t.step);
    forall i | 0 <= i < |net.rings| ensures Inv(net'.rings[i], net'.mem) {
      if i != t.ring {
        assert forall a: nat :: Owns(net.rings[i].Geo(), a) ==> !Owns(net.rings[t.ring].Geo(), a);
        InvFrame(net.rings[i], net.mem, net'.mem);
      }
    }
    assert forall i :: 0 <= i < |net.rings| ==> net'.rings[i].Geo() == net.rings[i].Geo();
  }

  /** A schedule in which every caller keeps to the slots it was handed. */
  ghost predicate Allowed(net: Net, steps: seq<NetStep>)
    requires NetInv(net)
    decreases |steps|
  {
    steps == [] ||
    (NetEnabled(net, steps[0]) &&
     (NetStepKeeps(net, steps[0]);
      Allowed(NetNext(net, steps[0]), steps[1..])))
  }

  ghost function Final(net: Net, steps: seq<NetStep>): (net': Net)
    requires NetInv(net) && Allowed(net, steps)
    ensures NetInv(net') && |net'.rings| == |net.rings|
    decreases |steps|
  {
    if steps == [] then net
    else
      NetStepKeeps(net, steps[0]);
      Final(NetNext(net, steps[0]), steps[1..])
  }

  /** A ring just set up: every counter, on both sides and in shared memory, reads `base`. */
  ghost predicate Fresh(s: RingState, m: Memory) {
    var b := s.hist.base;
    && s.prod.geo == s.cons.geo
    && ValidGeometry(s.Geo())
    && s.hist == Hist(b, b, b, b, b, b, b, [], [])
    && Wrap32(b) == s.prod.produced == s.prod.consumed == s.cons.produced == s.cons.consumed
       == Read(m, s.Geo().producedAddr) == Read(m, s.Geo().consumedAddr)
  }

  ghost predicate FreshNet(net: Net) {
    && (forall i :: 0 <= i < |net.rings| ==> Fresh(net.rings[i], net.mem))
    && forall i, j, a: nat :: 0 <= i < j < |net.rings| ==>
         !(Owns(net.rings[i].Geo(), a) && Owns(net.rings[j].Geo(), a))
  }

  lemma FreshIsSafe(net: Net)
    requires FreshNet(net)
    ensures NetInv(net)
  {
    forall i | 0 <= i < |net.rings| ensures Inv(net.rings[i], net.mem) {
      assert IsPow2(net.rings[i].Geo().slotNum);
    }
  }

  /**
   * In every run, from any starting counter and across any number of 32-bit wraps: what ring `k`
   * delivered is a prefix of what was published on it; the consumer is handed another entry exactly
   * when one is outstanding; the producer is handed a slot exactly when fewer than a ring's worth is
   * unreleased; and every entry the consumer holds still reads as published.
   */
  lemma RunDeliversInOrder(net: Net, steps: seq<NetStep>, k: nat)
    requires FreshNet(net) && k < |net.rings|
    requires (FreshIsSafe(net); Allowed(net, steps))
    ensures (FreshIsSafe(net);
            var net' := Final(net, steps);
            var s, m := net'.rings[k], net'.mem;
            && s.hist.delivered <= s.hist.published
            && (Consume(s.cons, m).0.Slot? <==> |s.hist.delivered| < |s.hist.published|)
            && (Produce(s.prod, m).0.Slot? <==> s.hist.pLocal - s.hist.cPub < s.Geo().slotNum)
            && Standing(s.Geo(), m, s.hist.base, s.hist.cPub, s.hist.pPub, s.hist.published))
  {
    FreshIsSafe(net);
    var net' := Final(net, steps);
    var s := net'.rings[k];
    CanConsumeExact(s, net'.mem);
    CanProduceExact(s, net'.mem);
  }

  /** What the consumer of a ring has been handed and has notified as consumed. */
  ghost function Released(h: Hist): seq<Entry>
    requires h.base <= h.cPub <= h.base + |h.published|
  {
    h.published[..h.cPub - h.base]
  }

  /** The consumer of ring `k` re-attaches. */
  ghost predicate Reattaches(t: NetStep, k: nat) {
    t == NetStep(k, ConsumerFastForward)
  }

  ghost predicate Extends(h: Hist, h': Hist) {
    h.published <= h'.published && h.base == h'.base && h.cPub <= h'.cPub
  }

  lemma StepExtends(net: Net, t: NetStep, k: nat)
    requires NetInv(net) && NetEnabled(net, t) && k < |net.rings|
    ensures var h, h' := net.rings[k].hist, NetNext(net, t).rings[k].hist;
            Extends(h, h') && (!Reattaches(t, k) ==> h.delivered <= h'.delivered)
  {
  }

  lemma {:induction false} RunGrows(net: Net, steps: seq<NetStep>, k: nat)
    requires NetInv(net) && Allowed(net, steps) && k < |net.rings|
    ensures var h, h' := net.rings[k].hist, Final(net, steps).rings[k].hist;
            && Extends(h, h')
            && ((forall i :: 0 <= i < |steps| ==> !Reattaches(steps[i], k)) ==> h.delivered <= h'.delivered)
    decreases |steps|
  {
    if steps != [] {
      NetStepKeeps(net, steps[0]);
      var next := NetNext(net, steps[0]);
      StepExtends(net, steps[0], k);
      RunGrows(next, steps[1..], k);
    }
  }

  /**
   * History only grows: nothing published changes or disappears, what was released is never handed out
   * again, and without a re-attach of the consumer nothing at all is.
   */
  lemma RunExtends(net: Net, steps: seq<NetStep>, k: nat)
    requires NetInv(net) && Allowed(net, steps) && k < |net.rings|
    ensures var h, h' := net.rings[k].hist, Final(net, steps).rings[k].hist;
            && h.published <= h'.published
            && h.base <= h.cPub <= h.base + |h.published|
            && Released(h) <= h'.delivered
            && ((forall i :: 0 <= i < |steps| ==> !Reattaches(steps[i], k)) ==> h.delivered <= h'.delivered)
  {
    RunGrows(net, steps, k);
    var h, h' := net.rings[k].hist, Final(net, steps).rings[k].hist;
    assert Inv(net.rings[k], net.mem) && Inv(Final(net, steps).rings[k], Final(net, steps).mem);
    assert h'.delivered[..h.cPub - h.base] == Released(h);
  }

  /** `count` calls of xgq_consume on ring `k`. */
  function ConsumeCalls(k: nat, count: nat): (steps: seq<NetStep>)
    ensures |steps| == count
  {
    if count == 0 then [] else [NetStep(k, ConsumeStep)] + ConsumeCalls(k, count - 1)
  }

  /** With an entry outstanding, one call delivers one more and publishes nothing. */
  lemma ConsumeOne(net: Net, k: nat)
    requires NetInv(net) && k < |net.rings|
    requires |net.rings[k].hist.delivered| < |net.rings[k].hist.published|
    ensures var h, h' := net.rings[k].hist, NetNext(net, NetStep(k, ConsumeStep)).rings[k].hist;
            h'.published == h.published && |h'.delivered| == |h.delivered| + 1
  {
    CanConsumeExact(net.rings[k], net.mem);
  }

  /** Nothing published is ever lost: consuming as often as entries are outstanding delivers them all. */
  lemma {:induction false} DrainDeliversAll(net: Net, k: nat, count: nat)
    requires NetInv(net) && k < |net.rings|
    requires count == |net.rings[k].hist.published| - |net.rings[k].hist.delivered|
    ensures Allowed(net, ConsumeCalls(k, count))
    ensures var h := Final(net, ConsumeCalls(k, count)).rings[k].hist;
            h.delivered == net.rings[k].hist.published
    decreases count
  {
    if count > 0 {
      var t := NetStep(k, ConsumeStep);
      var steps := ConsumeCalls(k, count);
      assert steps[0] == t && steps[1..] == ConsumeCalls(k, count - 1);
      NetStepKeeps(net, t);
      ConsumeOne(net, k);
      DrainDeliversAll(NetNext(net, t), k, count - 1);
    } else {
      assert net.rings[k].hist.delivered == net.rings[k].hist.published;
    }
  }
}

/** Compute units of an xclbin: their order, the address encoding, and the indices derived from them. */
module ComputeUnits {
  import opened Bits
  import opened Sorting

  const NO_ADDRESS: u64 := 0xFFFF_FFFF_FFFF_FFFF

  datatype IpType = Kernel | PsKernel | Other

  /** Contexts a kernel may use, from configuration; at most 31. */
  type Contexts = x: int | 0 <= x < 32

  datatype Ip = Ip(kind: IpType, properties: u32, base: u64, name: string, contexts: Contexts)

  predicate ValidCu(ip: Ip) {
    ip.kind.Kernel? || ip.kind.PsKernel?
  }

  function InterruptId(ip: Ip): nat {
    And(ip.properties, 0x00FE)
  }

  function Control(ip: Ip): nat {
    And(ip.properties, 0xFF00) / 0x100
  }

  /** Free-running units are given the highest aligned address. */
  function BaseAddress(ip: Ip): u64 {
    if ip.base == NO_ADDRESS then 0xFFFF_FFFF_FFFF_FF00 else ip.base
  }

  /** compare_intr_id: free-running units last, the others by interrupt id. */
  predicate Precedes(l: Ip, r: Ip) {
    if l.base == NO_ADDRESS then false
    else if r.base == NO_ADDRESS then true
    else InterruptId(l) < InterruptId(r)
  }

  function OrderKey(ip: Ip): int {
    if ip.base == NO_ADDRESS then 0x100 else InterruptId(ip)
  }

  /** The comparator orders by a key, so it is a strict weak order as the sort needs. */
  lemma PrecedesByKey(l: Ip, r: Ip)
    ensures Precedes(l, r) <==> OrderKey(l) < OrderKey(r)
  {
  }

  // ---- the list of addresses ----

  /** Control protocol in bits 0-2 and contexts in bits 3-7 of the address. */
  function Encoded(ip: Ip): nat {
    Or(Or(BaseAddress(ip), Control(ip)), ip.contexts * 8)
  }

  function Address(ip: Ip, encode: bool): nat {
    if encode then Encoded(ip) else BaseAddress(ip)
  }

  function Addresses(ips: seq<Ip>, encode: bool): (r: seq<int>)
    ensures |r| == |ips|
  {
    if ips == [] then [] else [Address(ips[0], encode)] + Addresses(ips[1..], encode)
  }

  function ValidCus(layout: seq<Ip>): seq<Ip> {
    if layout == [] then []
    else (if ValidCu(layout[0]) then [layout[0]] else []) + ValidCus(layout[1..])
  }

  /** No compute unit has an interrupt id. */
  predicate Legacy(layout: seq<Ip>) {
    forall i :: 0 <= i < |layout| && ValidCu(layout[i]) ==> InterruptId(layout[i]) == 0
  }

  /** The addresses of units already in order: sorted by address in legacy mode, as they come otherwise. */
  function CusOf(ips: seq<Ip>, legacy: bool, encode: bool): seq<int> {
    if legacy then StableSort(Identity, Addresses(ips, encode)) else Addresses(ips, encode)
  }

  function InOrder(layout: seq<Ip>): seq<Ip> {
    if Legacy(layout) then ValidCus(layout) else StableSort(OrderKey, ValidCus(layout))
  }

  function Cus(layout: seq<Ip>, encode: bool): seq<int> {
    CusOf(InOrder(layout), Legacy(layout), encode)
  }

  method IsLegacyCuIntr(layout: seq<Ip>) returns (legacy: bool)
    ensures legacy == Legacy(layout)
  {
    var cuCount, intrCount := 0, 0;
    var i := 0;
    while i < |layout|
      invariant 0 <= i <= |layout| && intrCount <= cuCount
      invariant cuCount == intrCount <==> Legacy(layout[..i])
    {
      if ValidCu(layout[i]) {
        cuCount := cuCount + 1;
        if InterruptId(layout[i]) == 0 {
          intrCount := intrCount + 1;
        }
      }
      assert layout[..i + 1][..i] == layout[..i] && layout[..i + 1][i] == layout[i];
      assert Legacy(layout[..i + 1]) <==>
             Legacy(layout[..i]) && (ValidCu(layout[i]) ==> InterruptId(layout[i]) == 0) by {
        forall k | 0 <= k < i ensures layout[..i + 1][k] == layout[..i][k] {
        }
      }
      i := i + 1;
    }
    assert layout[..|layout|] == layout;
    legacy := cuCount == intrCount;
  }

  method CollectCus(layout: seq<Ip>) returns (ips: seq<Ip>)
    ensures ips == ValidCus(layout)
  {
    ips := [];
    var i := 0;
    while i < |layout|
      invariant 0 <= i <= |layout|
      invariant ips + ValidCus(layout[i..]) == ValidCus(layout)
    {
      assert layout[i..][1..] == layout[i + 1..];
      if ValidCu(layout[i]) {
        ips := ips + [layout[i]];
      }
      i := i + 1;
    }
  }

  method CollectAddresses(ips: seq<Ip>, encode: bool) returns (cus: seq<int>)
    ensures cus == Addresses(ips, encode)
  {
    cus := [];
    var i := 0;
    while i < |ips|
      invariant 0 <= i <= |ips|
      invariant cus + Addresses(ips[i..], encode) == Addresses(ips, encode)
    {
      assert ips[i..][1..] == ips[i + 1..];
      cus := cus + [Address(ips[i], encode)];
      i := i + 1;
    }
  }

  // ---- what the list holds, in which order ----

  /** Some compute unit has an interrupt id: bits 1-7 of its properties. */
  ghost predicate HasInterrupts(layout: seq<Ip>) {
    exists i :: 0 <= i < |layout| && !layout[i].kind.Other? && And(layout[i].properties, 0x00FE) != 0
  }

  lemma LegacyExactly(layout: seq<Ip>)
    ensures Legacy(layout) <==> !HasInterrupts(layout)
  {
  }

  /** The compute units of the layout, each as often as it stands there. */
  ghost predicate UnitsOf(layout: seq<Ip>, ips: seq<Ip>) {
    forall u: Ip :: multiset(ips)[u] == if u.kind.Other? then 0 else multiset(layout)[u]
  }

  /** Entry `k` is the address of unit `k`: the base, with control and contexts below it when encoded. */
  ghost predicate ListedBy(cus: seq<int>, ips: seq<Ip>, encode: bool) {
    && |cus| == |ips|
    && forall k :: 0 <= k < |ips| ==>
         var base := if ips[k].base == 0xFFFF_FFFF_FFFF_FFFF then 0xFFFF_FFFF_FFFF_FF00 else ips[k].base;
         cus[k] == if encode then Or(Or(base, And(ips[k].properties, 0xFF00) / 0x100), ips[k].contexts * 8) else base
  }

  /** Free-running units last, the others by interrupt id. */
  ghost predicate ByInterrupt(ips: seq<Ip>) {
    forall i, j :: 0 <= i < j < |ips| ==>
      || ips[j].base == 0xFFFF_FFFF_FFFF_FFFF
      || (ips[i].base != 0xFFFF_FFFF_FFFF_FFFF && And(ips[i].properties, 0x00FE) <= And(ips[j].properties, 0x00FE))
  }

  ghost predicate Ascending(s: seq<int>) {
    forall i, j :: 0 <= i < j < |s| ==> s[i] <= s[j]
  }

  lemma HeadCounts(head: Ip, rest: seq<Ip>, u: Ip)
    ensures multiset([head] + rest)[u] == (if u == head then 1 else 0) + multiset(rest)[u]
  {
    assert multiset([head] + rest) == multiset{head} + multiset(rest);
  }

  lemma {:induction false} ValidCusCount(layout: seq<Ip>, u: Ip)
    ensures multiset(ValidCus(layout))[u] == if u.kind.Other? then 0 else multiset(layout)[u]
    decreases |layout|
  {
    if layout != [] {
      ValidCusCount(layout[1..], u);
      HeadCounts(layout[0], layout[1..], u);
      assert [layout[0]] + layout[1..] == layout;
      if ValidCu(layout[0]) {
        HeadCounts(layout[0], ValidCus(layout[1..]), u);
      } else {
        assert ValidCus(layout) == ValidCus(layout[1..]);
      }
    }
  }

  lemma InOrderUnits(layout: seq<Ip>)
    ensures UnitsOf(layout, InOrder(layout))
  {
    SortMultiset(OrderKey, ValidCus(layout));
    forall u: Ip ensures multiset(InOrder(layout))[u] == if u.kind.Other? then 0 else multiset(layout)[u] {
      ValidCusCount(layout, u);
    }
  }

  lemma {:induction false} AddressAt(ips: seq<Ip>, encode: bool, k: nat)
    requires k < |ips|
    ensures Addresses(ips, encode)[k] == Address(ips[k], encode)
    decreases k
  {
    if k > 0 {
      AddressAt(ips[1..], encode, k - 1);
    }
  }

  lemma AddressesListed(ips: seq<Ip>, encode: bool)
    ensures ListedBy(Addresses(ips, encode), ips, encode)
  {
    forall k | 0 <= k < |ips| ensures Addresses(ips, encode)[k] == Address(ips[k], encode) {
      AddressAt(ips, encode, k);
    }
  }

  /** With interrupt ids, the list follows the units by interrupt id, free-running ones last. */
  lemma CusByInterrupt(layout: seq<Ip>, encode: bool) returns (ips: seq<Ip>)
    requires HasInterrupts(layout)
    ensures UnitsOf(layout, ips) && ByInterrupt(ips) && ListedBy(Cus(layout, encode), ips, encode)
  {
    ips := InOrder(layout);
    LegacyExactly(layout);
    InOrderUnits(layout);
    AddressesListed(ips, encode);
    SortSorted(OrderKey, ValidCus(layout));
    forall i, j | 0 <= i < j < |ips| ensures OrderKey(ips[i]) <= OrderKey(ips[j]) {
    }
    forall i | 0 <= i < |ips| ensures OrderKey(ips[i]) == 0x100 <==> ips[i].base == NO_ADDRESS {
    }
  }

  /** Without, the list holds the addresses of the units in ascending order. */
  lemma CusByAddress(layout: seq<Ip>, encode: bool) returns (ips: seq<Ip>, list: seq<int>)
    requires !HasInterrupts(layout)
    ensures UnitsOf(layout, ips) && ListedBy(list, ips, encode)
    ensures Ascending(Cus(layout, encode)) && multiset(Cus(layout, encode)) == multiset(list)
  {
    ips := InOrder(layout);
    list := Addresses(ips, encode);
    LegacyExactly(layout);
    InOrderUnits(layout);
    AddressesListed(ips, encode);
    SortMultiset(Identity, list);
    SortSorted(Identity, list);
    var cus := Cus(layout, encode);
    forall i, j | 0 <= i < j < |cus| ensures cus[i] <= cus[j] {
      assert Identity(cus[i]) <= Identity(cus[j]);
    }
  }

  method GetCus(layout: seq<Ip>, encode: bool) returns (cus: seq<int>)
    ensures cus == Cus(layout, encode)
    ensures HasInterrupts(layout) ==>
              exists ips :: UnitsOf(layout, ips) && ByInterrupt(ips) && ListedBy(cus, ips, encode)
    ensures !HasInterrupts(layout) ==>
              && Ascending(cus)
              && exists ips, list :: UnitsOf(layout, ips) && ListedBy(list, ips, encode)
                                     && multiset(cus) == multiset(list)
  {
    var ips := CollectCus(layout);
    var legacy := IsLegacyCuIntr(layout);
    if !legacy {
      ips := StableSort(OrderKey, ips);
    }
    cus := CollectAddresses(ips, encode);
    if legacy {
      cus := StableSort(Identity, cus);
    }
    LegacyExactly(layout);
    if legacy {
      var _, _ := CusByAddress(layout, encode);
    } else {
      var _ := CusByInterrupt(layout, encode);
    }
  }

  // ---- the encoding ----

  function ClearLowByte(x: int): int {
    x - x % 0x100
  }

  lemma ClearIsAligned(x: int)
    ensures ClearLowByte(x) % 0x100 == 0
  {
  }

  lemma ClearAdds(base: nat, low: nat)
    requires base % 0x100 == 0 && low < 0x100
    ensures ClearLowByte(base + low) == base
  {
  }

  lemma ControlBound(ip: Ip)
    ensures Control(ip) < 0x100
  {
    assert And(ip.properties, 0xFF00) <= 0xFF00;
  }

  lemma AlignedBase(b: nat)
    requires b % 0x100 == 0
    ensures Aligned(b, 8)
  {
    Pow2Of8();
    MultipleIsAligned(b / 0x100, 8);
    assert (b / 0x100) * 0x100 == b;
  }

  lemma OrFields(b: nat, k: nat, c: nat, x: nat)
    requires Aligned(b, k) && c < Pow2(k) && x < Pow2(k)
    ensures Or(Or(b, c), x) == b + Or(c, x)
  {
    OrAligned(b, k, c);
    OrLow(b, k, c, x);
  }

  /** For an aligned address the encoding adds control and contexts below it. */
  lemma EncodedSplits(ip: Ip)
    requires BaseAddress(ip) % 0x100 == 0
    ensures Encoded(ip) == BaseAddress(ip) + Or(Control(ip), ip.contexts * 8)
    ensures Or(Control(ip), ip.contexts * 8) < 0x100
  {
    Pow2Of8();
    ControlBound(ip);
    AlignedBase(BaseAddress(ip));
    OrFields(BaseAddress(ip), 8, Control(ip), ip.contexts * 8);
    OrBounded(Control(ip), ip.contexts * 8, 8);
  }

  /** Clearing the low byte gives the address back exactly when the address was 256-byte aligned. */
  lemma ClearedIsBase(ip: Ip)
    ensures ClearLowByte(Encoded(ip)) == BaseAddress(ip) <==> BaseAddress(ip) % 0x100 == 0
  {
    ClearIsAligned(Encoded(ip));
    if BaseAddress(ip) % 0x100 == 0 {
      EncodedSplits(ip);
      ClearAdds(BaseAddress(ip), Or(Control(ip), ip.contexts * 8));
    }
  }

  lemma FieldsAdd(c: nat, contexts: Contexts)
    requires c < 8
    ensures Or(c, contexts * 8) == contexts * 8 + c
  {
    OrCommutes(c, contexts * 8);
    assert Pow2(3) == 8;
    MultipleIsAligned(contexts, 3);
    OrAligned(contexts * 8, 3, c);
  }

  lemma FieldsSplit(base: nat, contexts: Contexts, c: nat)
    requires base % 0x100 == 0 && c < 8
    ensures (base + (contexts * 8 + c)) % 8 == c && ((base + (contexts * 8 + c)) / 8) % 32 == contexts
  {
  }

  /** Control and contexts decode back, for an aligned address, exactly when the control value has three bits. */
  lemma DecodesBack(ip: Ip)
    requires BaseAddress(ip) % 0x100 == 0
    ensures Encoded(ip) % 8 == Control(ip) && (Encoded(ip) / 8) % 32 == ip.contexts <==> Control(ip) < 8
  {
    if Control(ip) < 8 {
      EncodedSplits(ip);
      FieldsAdd(Control(ip), ip.contexts);
      FieldsSplit(BaseAddress(ip), ip.contexts, Control(ip));
    }
  }

  /** Every value of a field can stand in it. */
  lemma ControlValue(c: nat, k: nat, p: nat)
    requires c < p && p == Pow2(k)
    ensures And(c * p, (p - 1) * p) == c * p
  {
    AndMask(c, k);
    ModUnique(c, p, 0, c);
    AndShift(c, p - 1, k, p);
  }

  /** A unit with control value 8: it is read back as control 0 and one context. */
  lemma WideControlIsLost() returns (ip: Ip)
    ensures ip.contexts == 0 && BaseAddress(ip) % 0x100 == 0 && Control(ip) == 8
    ensures Encoded(ip) % 8 == 0 && (Encoded(ip) / 8) % 32 == 1
  {
    var p := Pow2(8);
    Pow2Of8();
    ControlValue(8, 8, p);
    ip := Ip(Kernel, 8 * p, 0x100, "k", 0);
    EncodedSplits(ip);
  }

  /** A base at 0x104 is not read back. */
  lemma UnalignedBaseIsLost()
    ensures var ip := Ip(Kernel, 0, 0x104, "k", 0); ClearLowByte(Encoded(ip)) != BaseAddress(ip) == 0x104
  {
    ClearedIsBase(Ip(Kernel, 0, 0x104, "k", 0));
  }

  lemma ClearIsMonotone()
    ensures Monotone(ClearLowByte)
  {
  }

  lemma {:induction false} ClearedAddresses(ips: seq<Ip>)
    requires forall i :: 0 <= i < |ips| ==> BaseAddress(ips[i]) % 0x100 == 0
    ensures Map(ClearLowByte, Addresses(ips, true)) == Addresses(ips, false)
    decreases |ips|
  {
    if ips != [] {
      ClearedIsBase(ips[0]);
      ClearedAddresses(ips[1..]);
      assert Addresses(ips, true)[1..] == Addresses(ips[1..], true);
    }
  }

  /** In either order, clearing the low byte of every encoded entry gives the plain list, entry by entry. */
  lemma EncodedListMatches(ips: seq<Ip>, legacy: bool)
    requires forall i :: 0 <= i < |ips| ==> BaseAddress(ips[i]) % 0x100 == 0
    ensures Map(ClearLowByte, CusOf(ips, legacy, true)) == CusOf(ips, legacy, false)
  {
    ClearedAddresses(ips);
    ClearIsMonotone();
    MapSort(ClearLowByte, Addresses(ips, true));
  }

  // ---- indices ----

  /** domain 0: PL kernels, by position in the address list; domain 1: PS kernels, in layout order. */
  datatype CuIndex = CuIndex(domain: nat, domainIndex: nat)

  /** Position of the first entry equal to `a`, or the length of the list. */
  function Find(cus: seq<int>, a: int): (k: nat)
    ensures k <= |cus| && (k < |cus| ==> cus[k] == a)
    ensures a in cus <==> k < |cus|
  {
    if cus == [] || cus[0] == a then 0 else 1 + Find(cus[1..], a)
  }

  function PsCount(layout: seq<Ip>): nat {
    if layout == [] then 0
    else PsCount(layout[..|layout| - 1]) + (if layout[|layout| - 1].kind.PsKernel? then 1 else 0)
  }

  /** A 16-bit index. */
  function Wrap16(x: nat): nat {
    x % 0x1_0000
  }

  /** Whether unit `i` gets an index, and which. */
  function IndexOf(layout: seq<Ip>, cus: seq<int>, i: nat): (bool, CuIndex)
    requires i < |layout|
  {
    match layout[i].kind
    case Other => (false, CuIndex(0, 0))
    case PsKernel => (true, CuIndex(1, Wrap16(PsCount(layout[..i]))))
    case Kernel =>
      var k := Find(cus, layout[i].base);
      (k < |cus|, CuIndex(0, Wrap16(k)))
  }

  /** The map after the first `n` units; a name already present is kept. */
  function Indices(layout: seq<Ip>, cus: seq<int>, n: nat): map<string, CuIndex>
    requires n <= |layout|
  {
    if n == 0 then map[]
    else
      var m := Indices(layout, cus, n - 1);
      var (has, idx) := IndexOf(layout, cus, n - 1);
      if has && layout[n - 1].name !in m then m[layout[n - 1].name := idx] else m
  }

  lemma NextPs(layout: seq<Ip>, i: nat)
    requires i < |layout|
    ensures Wrap16(PsCount(layout[..i + 1]))
         == if layout[i].kind.PsKernel? then (Wrap16(PsCount(layout[..i])) + 1) % 0x1_0000
            else Wrap16(PsCount(layout[..i]))
  {
    assert layout[..i + 1][..i] == layout[..i];
  }

  method IndexUnits(layout: seq<Ip>, cus: seq<int>) returns (cu2idx: map<string, CuIndex>)
    ensures cu2idx == Indices(layout, cus, |layout|)
  {
    var psIdx := 0;
    cu2idx := map[];
    var count := 0;
    while count < |layout|
      invariant 0 <= count <= |layout| && psIdx == Wrap16(PsCount(layout[..count]))
      invariant cu2idx == Indices(layout, cus, count)
    {
      var ip := layout[count];
      var valid, idx := ValidCu(ip), CuIndex(0, 0);
      NextPs(layout, count);
      if ip.kind.PsKernel? {
        idx := CuIndex(1, psIdx);
        psIdx := (psIdx + 1) % 0x1_0000;
      } else if ip.kind.Kernel? {
        var itr := Find(cus, ip.base);
        valid := itr != |cus|;
        idx := CuIndex(0, itr % 0x1_0000);
      }
      assert valid == IndexOf(layout, cus, count).0 && (valid ==> idx == IndexOf(layout, cus, count).1);
      if valid && ip.name !in cu2idx {
        cu2idx := cu2idx[ip.name := idx];
      }
      count := count + 1;
    }
  }

  method GetCuIndices(layout: seq<Ip>) returns (cu2idx: map<string, CuIndex>)
    ensures cu2idx == Indices(layout, Cus(layout, false), |layout|)
  {
    var cus := GetCus(layout, false);
    cu2idx := IndexUnits(layout, cus);
  }

  ghost predicate HasAddress(ips: seq<Ip>, a: int) {
    exists i :: 0 <= i < |ips| && BaseAddress(ips[i]) == a
  }

  lemma {:induction false} AddressesMember(ips: seq<Ip>, a: int)
    ensures a in Addresses(ips, false) <==> HasAddress(ips, a)
    decreases |ips|
  {
    if ips != [] {
      AddressesMember(ips[1..], a);
      if HasAddress(ips[1..], a) {
        var i :| 0 <= i < |ips[1..]| && BaseAddress(ips[1..][i]) == a;
        assert BaseAddress(ips[i + 1]) == a;
      }
      if HasAddress(ips, a) {
        var i :| 0 <= i < |ips| && BaseAddress(ips[i]) == a;
        if i > 0 { assert BaseAddress(ips[1..][i - 1]) == a; }
      }
    }
  }

  lemma CusOfMember(ips: seq<Ip>, legacy: bool, a: int)
    ensures a in CusOf(ips, legacy, false) <==> HasAddress(ips, a)
    ensures |CusOf(ips, legacy, false)| == |ips|
  {
    AddressesMember(ips, a);
    var list := Addresses(ips, false);
    SortMultiset(Identity, list);
    SameMembers(StableSort(Identity, list), list, a);
  }

  lemma {:induction false} ValidCusMember(layout: seq<Ip>, ip: Ip)
    ensures ip in ValidCus(layout) <==> ip in layout && ValidCu(ip)
    decreases |layout|
  {
    if layout != [] {
      ValidCusMember(layout[1..], ip);
    }
  }

  lemma InOrderMember(layout: seq<Ip>, ip: Ip)
    ensures ip in InOrder(layout) <==> ip in layout && ValidCu(ip)
    ensures |InOrder(layout)| == |ValidCus(layout)|
  {
    ValidCusMember(layout, ip);
    SortMultiset(OrderKey, ValidCus(layout));
    SameMembers(StableSort(OrderKey, ValidCus(layout)), ValidCus(layout), ip);
  }

  /** A PL kernel gets an index exactly when it has an address, and the list holds that address there. */
  lemma IndexPointsAtAddress(layout: seq<Ip>, ip: Ip)
    requires ip in layout && ip.kind.Kernel?
    ensures ip.base in Cus(layout, false) <==> ip.base != NO_ADDRESS
    ensures |Cus(layout, false)| == |ValidCus(layout)|
  {
    var ips := InOrder(layout);
    CusOfMember(ips, Legacy(layout), ip.base);
    InOrderMember(layout, ip);
    if ip.base != NO_ADDRESS {
      var i :| 0 <= i < |ips| && ips[i] == ip;
      assert BaseAddress(ips[i]) == ip.base;
    }
  }

  lemma DistinctPositions(cus: seq<int>, a: int, b: int)
    requires a in cus && b in cus && a != b && |cus| <= 0x1_0000
    ensures Wrap16(Find(cus, a)) != Wrap16(Find(cus, b))
  {
    var p, q := Find(cus, a), Find(cus, b);
    assert cus[p] != cus[q];
    Wrap16Small(p);
    Wrap16Small(q);
  }

  lemma Wrap16Small(x: nat)
    requires x < 0x1_0000
    ensures Wrap16(x) == x
  {
  }

  /** PL kernels at different addresses get different indices, as long as the list fits 16 bits. */
  lemma DistinctIndices(layout: seq<Ip>, i: nat, j: nat)
    requires i < |layout| && j < |layout| && layout[i].kind.Kernel? && layout[j].kind.Kernel?
    requires layout[i].base != NO_ADDRESS && layout[j].base != NO_ADDRESS && layout[i].base != layout[j].base
    requires |ValidCus(layout)| <= 0x1_0000
    ensures var cus := Cus(layout, false);
            && IndexOf(layout, cus, i).0 && IndexOf(layout, cus, j).0
            && IndexOf(layout, cus, i).1 != IndexOf(layout, cus, j).1
  {
    IndexPointsAtAddress(layout, layout[i]);
    IndexPointsAtAddress(layout, layout[j]);
    DistinctPositions(Cus(layout, false), layout[i].base, layout[j].base);
  }

  /** No unit of that name among the first `n` has an index. */
  ghost predicate NoneNamed(layout: seq<Ip>, cus: seq<int>, n: nat, name: string)
    requires n <= |layout|
  {
    forall j :: 0 <= j < n && layout[j].name == name ==> !IndexOf(layout, cus, j).0
  }

  /** A name is in the map only if some unit of that name has an index. */
  lemma {:induction false} MapHoldsNone(layout: seq<Ip>, cus: seq<int>, n: nat, name: string)
    requires n <= |layout| && NoneNamed(layout, cus, n, name)
    ensures name !in Indices(layout, cus, n)
    decreases n
  {
    if n > 0 {
      MapHoldsNone(layout, cus, n - 1, name);
    }
  }

  /** Under a name the map holds the index of the first unit of that name that has one. */
  lemma {:induction false} MapHoldsFirst(layout: seq<Ip>, cus: seq<int>, n: nat, k: nat)
    requires k < n <= |layout| && IndexOf(layout, cus, k).0 && NoneNamed(layout, cus, k, layout[k].name)
    ensures var m := Indices(layout, cus, n);
            layout[k].name in m && m[layout[k].name] == IndexOf(layout, cus, k).1
    decreases n
  {
    if k < n - 1 {
      MapHoldsFirst(layout, cus, n - 1, k);
    } else {
      MapHoldsNone(layout, cus, k, layout[k].name);
    }
  }

  /** The PS kernels among the first `n` units. */
  ghost function PsBefore(layout: seq<Ip>, n: nat): set<int>
    requires n <= |layout|
  {
    set j | 0 <= j < n && layout[j].kind.PsKernel?
  }

  lemma {:induction false} PsCountIs(layout: seq<Ip>, n: nat)
    requires n <= |layout|
    ensures PsCount(layout[..n]) == |PsBefore(layout, n)|
    decreases n
  {
    if n > 0 {
      PsCountIs(layout, n - 1);
      assert layout[..n][..n - 1] == layout[..n - 1];
      assert PsBefore(layout, n)
          == PsBefore(layout, n - 1) + (if layout[n - 1].kind.PsKernel? then {n - 1} else {});
    }
  }

  /** Which units have an index, and what it is. */
  lemma IndexMeans(layout: seq<Ip>, i: nat)
    requires i < |layout|
    ensures var ip, cus, (has, idx) := layout[i], Cus(layout, false), IndexOf(layout, Cus(layout, false), i);
            && (has <==> ip.kind.PsKernel? || (ip.kind.Kernel? && ip.base != 0xFFFF_FFFF_FFFF_FFFF))
            && (ip.kind.PsKernel? ==>
                  idx == CuIndex(1, |PsBefore(layout, i)| % 0x1_0000))
            && (has && ip.kind.Kernel? ==>
                  && idx.domain == 0
                  && (|cus| <= 0x1_0000 ==> idx.domainIndex < |cus| && cus[idx.domainIndex] == ip.base))
  {
    var cus := Cus(layout, false);
    if layout[i].kind.Kernel? {
      IndexPointsAtAddress(layout, layout[i]);
      if |cus| <= 0x1_0000 && layout[i].base in cus {
        Wrap16Small(Find(cus, layout[i].base));
      }
    } else if layout[i].kind.PsKernel? {
      PsCountIs(layout, i);
    }
  }

  /** With distinct names, the map gives every unit exactly its own index. */
  lemma MapHoldsIndices(layout: seq<Ip>, cus: seq<int>, i: nat)
    requires i < |layout|
    requires forall k, l :: 0 <= k < l < |layout| ==> layout[k].name != layout[l].name
    ensures var m := Indices(layout, cus, |layout|);
            && (layout[i].name in m <==> IndexOf(layout, cus, i).0)
            && (layout[i].name in m ==> m[layout[i].name] == IndexOf(layout, cus, i).1)
  {
    if IndexOf(layout, cus, i).0 {
      MapHoldsFirst(layout, cus, |layout|, i);
    } else {
      MapHoldsNone(layout, cus, |layout|, layout[i].name);
    }
  }
}

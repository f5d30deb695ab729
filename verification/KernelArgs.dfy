/** Kernel arguments of an xclbin: components with the same index are merged into one argument. */
module KernelArgs {
  import opened Bits
  import opened Results
  import opened Sorting

  const NO_INDEX: u64 := 0xFFFF_FFFF_FFFF_FFFF

  datatype Arg = Arg(name: string, hostType: string, port: string, portWidth: u64,
                     index: u64, offset: u64, size: u64, hostSize: u64)

  datatype Error = MismatchedIndex

  function ByIndex(a: Arg): int {
    a.index
  }

  /** 64-bit sum, which wraps. */
  function Add64(a: u64, b: u64): u64 {
    (a + b) % 0x1_0000_0000_0000_0000
  }

  function MergeInto(a: Arg, b: Arg): Arg {
    a.(size := Add64(a.size, b.size), hostSize := Add64(a.hostSize, b.hostSize),
       offset := Min64(a.offset, b.offset))
  }

  /** `first` after merging every component of `rest` into it, in order. */
  function MergeAll(first: Arg, rest: seq<Arg>): Arg
    decreases |rest|
  {
    if rest == [] then first else MergeAll(MergeInto(first, rest[0]), rest[1..])
  }

  /** The first `n` arguments share the first one's index, and the next does not. */
  ghost predicate IsRun(args: seq<Arg>, n: nat) {
    && 1 <= n <= |args|
    && (forall i :: 0 <= i < n ==> args[i].index == args[0].index)
    && (n < |args| ==> args[n].index != args[0].index)
  }

  /** How many arguments at the front share the first one's index. */
  function RunLength(args: seq<Arg>): (n: nat)
    requires args != []
    ensures 1 <= n <= |args| && IsRun(args, n)
  {
    if |args| > 1 && args[1].index == args[0].index then 1 + RunLength(args[1..]) else 1
  }

  /** The list after merging, run by run, up to the first argument without an index. */
  function Merge(args: seq<Arg>): seq<Arg>
    decreases |args|
  {
    if args == [] || args[0].index == NO_INDEX then args
    else
      var n := RunLength(args);
      [MergeAll(args[0], args[1..n])] + Merge(args[n..])
  }

  predicate InPlace(args: seq<Arg>) {
    forall i :: 0 <= i < |args| ==> args[i].index == i || args[i].index == NO_INDEX
  }

  lemma {:induction false} MergeAllAppend(first: Arg, rest: seq<Arg>, b: Arg)
    ensures MergeAll(first, rest + [b]) == MergeInto(MergeAll(first, rest), b)
    decreases |rest|
  {
    if rest == [] {
      assert ([] + [b])[1..] == [];
    } else {
      assert (rest + [b])[1..] == rest[1..] + [b];
      MergeAllAppend(MergeInto(first, rest[0]), rest[1..], b);
    }
  }

  lemma RunLengthIs(args: seq<Arg>, n: nat)
    requires IsRun(args, n)
    ensures RunLength(args) == n
  {
  }

  /** The list once its first run is merged into the first component and the others are erased. */
  function FirstRunMerged(args: seq<Arg>): (r: seq<Arg>)
    requires args != []
    ensures r != [] && |r| <= |args|
  {
    var n := RunLength(args);
    [MergeAll(args[0], args[1..n])] + args[n..]
  }

  /** One pass of the outer loop, for the run at `idx`. */
  method MergeRun(args: seq<Arg>, idx: nat) returns (r: seq<Arg>)
    requires idx < |args|
    ensures r == args[..idx] + FirstRunMerged(args[idx..])
  {
    var arg := args[idx];
    var next := idx + 1;
    ghost var tail := args[idx..];
    while next < |args| && args[next].index == arg.index
      invariant idx + 1 <= next <= |args| && arg.index == args[idx].index
      invariant forall i :: 0 <= i < next - idx ==> tail[i].index == tail[0].index
      invariant arg == MergeAll(tail[0], tail[1..next - idx])
    {
      MergeAllAppend(tail[0], tail[1..next - idx], tail[next - idx]);
      assert tail[1..next - idx] + [tail[next - idx]] == tail[1..next + 1 - idx];
      arg := MergeInto(arg, args[next]);
      next := next + 1;
    }
    RunLengthIs(tail, next - idx);
    assert args[next..] == tail[next - idx..];
    r := args[..idx] + ([arg] + args[next..]);
  }

  lemma MergeFirstRun(args: seq<Arg>)
    requires args != [] && args[0].index != NO_INDEX
    ensures var r := FirstRunMerged(args); Merge(args) == [r[0]] + Merge(r[1..])
  {
    assert FirstRunMerged(args)[1..] == args[RunLength(args)..];
  }

  /** One pass moves the boundary between merged and unmerged arguments by one. */
  lemma MergeBoundary(done: seq<Arg>, todo: seq<Arg>)
    requires todo != [] && todo[0].index != NO_INDEX
    ensures var r := FirstRunMerged(todo);
            && done + Merge(todo) == (done + [r[0]]) + Merge(r[1..])
            && done + r == (done + [r[0]]) + r[1..]
  {
    var r := FirstRunMerged(todo);
    AppendAssociates(done, [r[0]], r[1..]);
    AppendAssociates(done, [r[0]], Merge(r[1..]));
    assert r == [r[0]] + r[1..];
    MergeFirstRun(todo);
  }

  method MergeRuns(args: seq<Arg>) returns (v: seq<Arg>)
    ensures v == Merge(args)
  {
    v := args;
    var idx := 0;
    ghost var done, todo := [], args;
    while idx < |v| && v[idx].index != NO_INDEX
      invariant v == done + todo && idx == |done|
      invariant done + Merge(todo) == Merge(args)
      decreases |todo|
    {
      assert v[..idx] == done && v[idx..] == todo;
      v := MergeRun(v, idx);
      MergeBoundary(done, todo);
      done, todo := done + [FirstRunMerged(todo)[0]], FirstRunMerged(todo)[1..];
      idx := idx + 1;
    }
  }

  method MergeArgs(args: seq<Arg>) returns (r: Result<seq<Arg>, Error>)
    ensures r == if InPlace(Merge(args)) then Ok(Merge(args)) else Err(MismatchedIndex)
  {
    var v := MergeRuns(args);
    var argIdx := 0;
    while argIdx < |v|
      invariant 0 <= argIdx <= |v|
      invariant forall i :: 0 <= i < argIdx ==> v[i].index == i || v[i].index == NO_INDEX
    {
      if v[argIdx].index != argIdx && v[argIdx].index != NO_INDEX {
        return Err(MismatchedIndex);
      }
      argIdx := argIdx + 1;
    }
    return Ok(v);
  }

  // ---- merging is grouping by index ----

  function SumSize(g: seq<Arg>): nat {
    if g == [] then 0 else g[0].size + SumSize(g[1..])
  }

  function SumHostSize(g: seq<Arg>): nat {
    if g == [] then 0 else g[0].hostSize + SumHostSize(g[1..])
  }

  function Min64(a: u64, b: u64): u64 {
    if b < a then b else a
  }

  function MinOffset(g: seq<Arg>): u64
    requires g != []
  {
    if |g| == 1 then g[0].offset else Min64(g[0].offset, MinOffset(g[1..]))
  }

  lemma {:induction false} MinOffsetIsLeast(g: seq<Arg>)
    requires g != []
    ensures forall i :: 0 <= i < |g| ==> MinOffset(g) <= g[i].offset
    ensures exists i :: 0 <= i < |g| && MinOffset(g) == g[i].offset
    decreases |g|
  {
    if |g| > 1 {
      MinOffsetIsLeast(g[1..]);
      var i :| 0 <= i < |g[1..]| && MinOffset(g[1..]) == g[1..][i].offset;
      assert g[i + 1] == g[1..][i];
      assert MinOffset(g) == g[0].offset || MinOffset(g) == g[i + 1].offset;
    } else {
      assert MinOffset(g) == g[0].offset;
    }
  }

  /** The argument a group of components stands for: sizes added up, least offset, the rest from the first. */
  function Combined(g: seq<Arg>): Arg
    requires g != []
  {
    g[0].(size := SumSize(g) % 0x1_0000_0000_0000_0000, hostSize := SumHostSize(g) % 0x1_0000_0000_0000_0000,
          offset := MinOffset(g))
  }

  lemma Add64Sum(a: u64, b: u64, rest: nat)
    ensures (Add64(a, b) + rest) % 0x1_0000_0000_0000_0000 == (a + (b + rest)) % 0x1_0000_0000_0000_0000
  {
    var w := 0x1_0000_0000_0000_0000;
    var x := Add64(a, b) + rest;
    var q := (a + b) / w;
    DivMod(a + b, w);
    DivMod(x, w);
    assert a + (b + rest) == (q + x / w) * w + x % w;
    ModUnique(a + (b + rest), w, q + x / w, x % w);
  }

  /** What a group stands for, from its first component and the others. */
  lemma SumsOfHead(first: Arg, rest: seq<Arg>)
    ensures SumSize([first] + rest) == first.size + SumSize(rest)
    ensures SumHostSize([first] + rest) == first.hostSize + SumHostSize(rest)
  {
    var g := [first] + rest;
    assert g[0] == first && g[1..] == rest;
  }

  lemma MinOfHead(first: Arg, rest: seq<Arg>)
    ensures MinOffset([first] + rest) == if rest == [] then first.offset else Min64(first.offset, MinOffset(rest))
  {
    var g := [first] + rest;
    assert g[0] == first && g[1..] == rest;
  }

  lemma MinStep(first: Arg, rest: seq<Arg>)
    requires rest != []
    ensures MinOffset([MergeInto(first, rest[0])] + rest[1..]) == MinOffset([first] + rest)
  {
    var head, tail := rest[0], rest[1..];
    assert [head] + tail == rest;
    MinOfHead(first, rest);
    MinOfHead(head, tail);
    MinOfHead(MergeInto(first, head), tail);
  }

  lemma SumStep(first: Arg, rest: seq<Arg>)
    requires rest != []
    ensures var g, g' := [first] + rest, [MergeInto(first, rest[0])] + rest[1..];
            && SumSize(g') % 0x1_0000_0000_0000_0000 == SumSize(g) % 0x1_0000_0000_0000_0000
            && SumHostSize(g') % 0x1_0000_0000_0000_0000 == SumHostSize(g) % 0x1_0000_0000_0000_0000
  {
    var head, tail := rest[0], rest[1..];
    assert [head] + tail == rest;
    SumsOfHead(first, rest);
    SumsOfHead(head, tail);
    SumsOfHead(MergeInto(first, head), tail);
    Add64Sum(first.size, head.size, SumSize(tail));
    Add64Sum(first.hostSize, head.hostSize, SumHostSize(tail));
  }

  /** Folding the second component of a group into the first leaves what the group stands for. */
  lemma CombinedStep(first: Arg, rest: seq<Arg>)
    requires rest != []
    ensures Combined([MergeInto(first, rest[0])] + rest[1..]) == Combined([first] + rest)
  {
    SumStep(first, rest);
    MinStep(first, rest);
  }

  lemma CombinedOne(first: Arg)
    ensures Combined([first] + []) == first
  {
    SumsOfHead(first, []);
    MinOfHead(first, []);
  }

  /** Merging component by component is combining the whole group. */
  lemma {:induction false} MergeAllCombines(first: Arg, rest: seq<Arg>)
    ensures MergeAll(first, rest) == Combined([first] + rest)
    decreases |rest|
  {
    if rest == [] {
      CombinedOne(first);
    } else {
      MergeAllCombines(MergeInto(first, rest[0]), rest[1..]);
      CombinedStep(first, rest);
    }
  }

  // ---- what the merged list is, for a sorted one ----

  /** The components with index `k`. */
  function Group(args: seq<Arg>, k: u64): seq<Arg> {
    WithKey(ByIndex, k, args)
  }

  lemma {:induction false} GroupAppend(a: seq<Arg>, b: seq<Arg>, k: u64)
    ensures Group(a + b, k) == Group(a, k) + Group(b, k)
    decreases |a|
  {
    if a == [] {
      assert a + b == b;
    } else {
      assert (a + b)[1..] == a[1..] + b;
      GroupAppend(a[1..], b, k);
    }
  }

  lemma {:induction false} GroupUniform(a: seq<Arg>, i: u64, k: u64)
    requires forall j :: 0 <= j < |a| ==> a[j].index == i
    ensures Group(a, k) == if k == i then a else []
    decreases |a|
  {
    if a != [] {
      GroupUniform(a[1..], i, k);
    }
  }

  lemma {:induction false} GroupAbsent(a: seq<Arg>, k: u64)
    requires forall j :: 0 <= j < |a| ==> a[j].index != k
    ensures Group(a, k) == []
    decreases |a|
  {
    if a != [] {
      GroupAbsent(a[1..], k);
    }
  }

  lemma BehindRun(args: seq<Arg>, n: nat)
    requires SortedBy(ByIndex, args) && IsRun(args, n)
    ensures SortedBy(ByIndex, args[n..])
    ensures forall j :: 0 <= j < |args[n..]| ==> args[n..][j].index > args[0].index
  {
    forall j | n <= j < |args| ensures args[j].index > args[0].index {
      assert ByIndex(args[0]) <= ByIndex(args[n]);
      if n < j { assert ByIndex(args[n]) <= ByIndex(args[j]); }
    }
  }

  /** A list split into a uniform front and a back without the front's index. */
  lemma GroupOfSplit(a: seq<Arg>, b: seq<Arg>, i: u64, k: u64)
    requires forall j :: 0 <= j < |a| ==> a[j].index == i
    requires forall j :: 0 <= j < |b| ==> b[j].index != i
    ensures Group(a + b, k) == if k == i then a else Group(b, k)
  {
    GroupAppend(a, b, k);
    GroupUniform(a, i, k);
    if k == i {
      GroupAbsent(b, k);
    }
  }

  /** In a sorted list the first run is a whole group, and the other groups lie behind it. */
  lemma FirstRun(args: seq<Arg>, n: nat, k: u64)
    requires SortedBy(ByIndex, args) && IsRun(args, n)
    ensures Group(args, k) == if k == args[0].index then args[..n] else Group(args[n..], k)
  {
    assert args[..n] + args[n..] == args;
    BehindRun(args, n);
    GroupOfSplit(args[..n], args[n..], args[0].index, k);
  }

  /** Every indexed argument of `r` is combined from exactly the components with its index. */
  ghost predicate FromGroups(args: seq<Arg>, r: seq<Arg>) {
    forall i :: 0 <= i < |r| && r[i].index != NO_INDEX ==>
      Group(args, r[i].index) != [] && r[i] == Combined(Group(args, r[i].index))
  }

  /** One argument per index, ascending, those without an index last. */
  ghost predicate Ordered(r: seq<Arg>) {
    forall i, j :: 0 <= i < j < |r| ==> r[i].index < r[j].index || r[i].index == r[j].index == NO_INDEX
  }

  ghost predicate HasIndex(args: seq<Arg>, k: u64) {
    exists i :: 0 <= i < |args| && args[i].index == k
  }

  /**
   * The merged list `r` is `args` grouped by index: one argument per index, combined from exactly the
   * components with that index, in ascending order, then the arguments without an index, untouched.
   */
  ghost predicate GroupedByIndex(args: seq<Arg>, r: seq<Arg>) {
    && FromGroups(args, r)
    && Ordered(r)
    && (forall k: u64 :: HasIndex(args, k) <==> HasIndex(r, k))
    && Group(r, NO_INDEX) == Group(args, NO_INDEX)
  }

  lemma {:induction false} MergeGroups(args: seq<Arg>)
    requires SortedBy(ByIndex, args)
    ensures GroupedByIndex(args, Merge(args))
    decreases |args|
  {
    if args == [] {
    } else if args[0].index == NO_INDEX {
      forall i | 0 <= i < |args| ensures args[i].index == NO_INDEX {
        if i > 0 { assert ByIndex(args[0]) <= ByIndex(args[i]); }
      }
    } else {
      var n := RunLength(args);
      BehindRun(args, n);
      MergeGroups(args[n..]);
      FirstOfRun(args, n);
      PrependGroup(args, n, Combined(args[..n]), Merge(args[n..]));
    }
  }

  /** What the first run is merged into. */
  lemma FirstOfRun(args: seq<Arg>, n: nat)
    requires 1 <= n <= |args|
    ensures MergeAll(args[0], args[1..n]) == Combined(args[..n])
  {
    MergeAllCombines(args[0], args[1..n]);
    assert [args[0]] + args[1..n] == args[..n];
  }

  lemma RestBehindFirst(tail: seq<Arg>, i: u64, rest: seq<Arg>)
    requires forall j :: 0 <= j < |tail| ==> tail[j].index > i
    requires GroupedByIndex(tail, rest)
    ensures forall j :: 0 <= j < |rest| ==> rest[j].index > i
  {
    forall j | 0 <= j < |rest| ensures rest[j].index > i {
      assert HasIndex(rest, rest[j].index);
      assert HasIndex(tail, rest[j].index);
    }
  }

  lemma PrependFromGroups(args: seq<Arg>, n: nat, first: Arg, rest: seq<Arg>)
    requires SortedBy(ByIndex, args) && IsRun(args, n)
    requires first == Combined(args[..n]) && FromGroups(args[n..], rest)
    requires forall j :: 0 <= j < |rest| ==> rest[j].index > args[0].index
    ensures FromGroups(args, [first] + rest)
  {
    var r := [first] + rest;
    forall i | 0 <= i < |r| && r[i].index != NO_INDEX
      ensures Group(args, r[i].index) != [] && r[i] == Combined(Group(args, r[i].index))
    {
      FirstRun(args, n, r[i].index);
      if i > 0 { assert r[i] == rest[i - 1]; }
    }
  }

  lemma HasIndexAppend(a: seq<Arg>, b: seq<Arg>, k: u64)
    ensures HasIndex(a + b, k) <==> HasIndex(a, k) || HasIndex(b, k)
  {
    if HasIndex(a, k) {
      var i :| 0 <= i < |a| && a[i].index == k;
      assert (a + b)[i].index == k;
    }
    if HasIndex(b, k) {
      var i :| 0 <= i < |b| && b[i].index == k;
      assert (a + b)[|a| + i].index == k;
    }
  }

  lemma HasIndexUniform(a: seq<Arg>, i: u64, k: u64)
    requires a != [] && forall j :: 0 <= j < |a| ==> a[j].index == i
    ensures HasIndex(a, k) <==> k == i
  {
    assert a[0].index == i;
  }

  lemma PrependHasIndex(args: seq<Arg>, n: nat, first: Arg, rest: seq<Arg>, k: u64)
    requires IsRun(args, n) && first.index == args[0].index
    requires HasIndex(args[n..], k) <==> HasIndex(rest, k)
    ensures HasIndex(args, k) <==> HasIndex([first] + rest, k)
  {
    assert args[..n] + args[n..] == args;
    HasIndexAppend(args[..n], args[n..], k);
    HasIndexUniform(args[..n], first.index, k);
    HasIndexAppend([first], rest, k);
    HasIndexUniform([first], first.index, k);
  }

  lemma PrependOrdered(first: Arg, rest: seq<Arg>)
    requires Ordered(rest) && forall j :: 0 <= j < |rest| ==> rest[j].index > first.index
    ensures Ordered([first] + rest)
  {
    var r := [first] + rest;
    forall i, j | 0 <= i < j < |r| ensures r[i].index < r[j].index || r[i].index == r[j].index == NO_INDEX {
      assert r[j] == rest[j - 1];
      if i > 0 { assert r[i] == rest[i - 1]; }
    }
  }

  lemma PrependUnindexed(args: seq<Arg>, n: nat, first: Arg, rest: seq<Arg>)
    requires SortedBy(ByIndex, args) && IsRun(args, n) && first.index == args[0].index != NO_INDEX
    requires Group(rest, NO_INDEX) == Group(args[n..], NO_INDEX)
    ensures Group([first] + rest, NO_INDEX) == Group(args, NO_INDEX)
  {
    FirstRun(args, n, NO_INDEX);
    WithKeyHead(ByIndex, NO_INDEX, first, rest);
  }

  lemma PrependGroup(args: seq<Arg>, n: nat, first: Arg, rest: seq<Arg>)
    requires SortedBy(ByIndex, args) && IsRun(args, n) && args[0].index != NO_INDEX
    requires first == Combined(args[..n]) && GroupedByIndex(args[n..], rest)
    ensures GroupedByIndex(args, [first] + rest)
  {
    BehindRun(args, n);
    RestBehindFirst(args[n..], args[0].index, rest);
    PrependFromGroups(args, n, first, rest);
    PrependOrdered(first, rest);
    forall k: u64 ensures HasIndex(args, k) <==> HasIndex([first] + rest, k) {
      PrependHasIndex(args, n, first, rest, k);
    }
    PrependUnindexed(args, n, first, rest);
  }

  // ---- when the check behind the merge passes ----

  /** The indices used are 0, 1, 2, ... without a gap. */
  ghost predicate NoGaps(args: seq<Arg>) {
    forall k: u64, j: u64 :: HasIndex(args, k) && k != NO_INDEX && j < k ==> HasIndex(args, j)
  }

  lemma {:induction false} PlacedUpTo(args: seq<Arg>, r: seq<Arg>, i: nat)
    requires GroupedByIndex(args, r) && NoGaps(args) && i < |r| && r[i].index != NO_INDEX
    ensures r[i].index == i
    decreases i
  {
    forall l | 0 <= l < i ensures l == r[l].index < r[i].index {
      PlacedUpTo(args, r, l);
    }
    assert i > 0 ==> i - 1 == r[i - 1].index < r[i].index;
    assert HasIndex(r, r[i].index) && i <= r[i].index;
    assert HasIndex(args, i);
    var l :| 0 <= l < |r| && r[l].index == i;
    assert l >= i;
  }

  /** Merging succeeds exactly when the indices have no gaps; every indexed argument then sits at its index. */
  lemma MergeSucceedsIff(args: seq<Arg>)
    requires SortedBy(ByIndex, args)
    ensures InPlace(Merge(args)) <==> NoGaps(args)
  {
    MergeGroups(args);
    var r := Merge(args);
    if NoGaps(args) {
      forall i | 0 <= i < |r| ensures r[i].index == i || r[i].index == NO_INDEX {
        if r[i].index != NO_INDEX { PlacedUpTo(args, r, i); }
      }
    }
    if InPlace(r) {
      forall k: u64, j: u64 | HasIndex(args, k) && k != NO_INDEX && j < k ensures HasIndex(args, j) {
        var i :| 0 <= i < |r| && r[i].index == k;
        assert i == k && r[j].index == j;
        assert HasIndex(r, j);
      }
    }
  }

  // ---- from document order ----

  /** get_kernel_arguments from the arguments in document order. */
  function KernelArguments(doc: seq<Arg>): Result<seq<Arg>, Error> {
    var r := Merge(StableSort(ByIndex, doc));
    if InPlace(r) then Ok(r) else Err(MismatchedIndex)
  }

  lemma SortKeepsIndices(doc: seq<Arg>, k: u64)
    ensures HasIndex(StableSort(ByIndex, doc), k) <==> HasIndex(doc, k)
  {
    var s := StableSort(ByIndex, doc);
    SortMultiset(ByIndex, doc);
    if HasIndex(s, k) {
      var i :| 0 <= i < |s| && s[i].index == k;
      SameMembers(s, doc, s[i]);
    }
    if HasIndex(doc, k) {
      var i :| 0 <= i < |doc| && doc[i].index == k;
      SameMembers(s, doc, doc[i]);
    }
  }

  lemma SortKeepsGaps(doc: seq<Arg>)
    ensures NoGaps(StableSort(ByIndex, doc)) <==> NoGaps(doc)
  {
    forall k: u64 ensures HasIndex(StableSort(ByIndex, doc), k) <==> HasIndex(doc, k) {
      SortKeepsIndices(doc, k);
    }
  }

  /** Sorting and merging groups the document itself. */
  lemma DocumentGroups(doc: seq<Arg>)
    ensures GroupedByIndex(doc, Merge(StableSort(ByIndex, doc)))
  {
    var s := StableSort(ByIndex, doc);
    SortSorted(ByIndex, doc);
    MergeGroups(s);
    forall k: u64 ensures HasIndex(s, k) <==> HasIndex(doc, k) {
      SortKeepsIndices(doc, k);
    }
    forall k: u64 ensures Group(s, k) == Group(doc, k) {
      SortStable(ByIndex, k, doc);
    }
  }

  /**
   * For any document: the call succeeds exactly when the indices have no gaps, and then argument i is
   * the combination, in document order, of exactly the components with index i; arguments without an
   * index follow, in document order.
   */
  lemma ArgumentsOfDocument(doc: seq<Arg>)
    ensures KernelArguments(doc).Ok? <==> NoGaps(doc)
    ensures KernelArguments(doc).Ok? ==>
              var r := KernelArguments(doc).value;
              && GroupedByIndex(doc, r)
              && forall i :: 0 <= i < |r| && r[i].index != NO_INDEX ==>
                   r[i].index == i && Group(doc, i) != [] && r[i] == Combined(Group(doc, i))
  {
    SortSorted(ByIndex, doc);
    MergeSucceedsIff(StableSort(ByIndex, doc));
    SortKeepsGaps(doc);
    DocumentGroups(doc);
  }
}

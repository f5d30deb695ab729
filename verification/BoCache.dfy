/**
 * The pool of command buffer objects. Looking in the pool and putting back are critical sections under
 * its mutex; creating and unmapping a buffer happen outside it, so other threads may come in between.
 */
module BoCache {

  /** A buffer object, numbered in the order of creation. */
  type Bo = nat

  /** A maximum of zero switches the pool off. */
  predicate Hit(max: nat, cache: seq<Bo>) {
    max != 0 && cache != []
  }

  predicate HasRoom(max: nat, cache: seq<Bo>) {
    max != 0 && |cache| < max
  }

  /**
   * held: buffers callers have; missed: threads that found nothing and are about to create one;
   * dropping: buffers about to be unmapped; unmapped: every unmap that was done, repeats included.
   */
  datatype State = State(max: nat, cache: seq<Bo>, held: multiset<Bo>, missed: nat, created: nat,
                         dropping: multiset<Bo>, unmapped: multiset<Bo>, closed: bool)

  datatype Step =
    | Alloc
    | Create
    | Release(bo: Bo)
    | Unmap(bo: Bo)
    | Close

  /** Callers release only what they hold, and nobody uses a pool that is gone. */
  ghost predicate Enabled(s: State, step: Step) {
    !s.closed &&
    match step
    case Alloc => true
    case Create => s.missed > 0
    case Release(bo) => bo in s.held
    case Unmap(bo) => bo in s.dropping
    case Close => s.missed == 0 && s.dropping == multiset{}
  }

  ghost function Next(s: State, step: Step): State
    requires Enabled(s, step)
  {
    match step
    case Alloc =>
      if Hit(s.max, s.cache) then
        s.(cache := s.cache[..|s.cache| - 1], held := s.held + multiset{s.cache[|s.cache| - 1]})
      else s.(missed := s.missed + 1)
    case Create => s.(missed := s.missed - 1, created := s.created + 1, held := s.held + multiset{s.created})
    case Release(bo) =>
      if HasRoom(s.max, s.cache) then s.(cache := s.cache + [bo], held := s.held - multiset{bo})
      else s.(held := s.held - multiset{bo}, dropping := s.dropping + multiset{bo})
    case Unmap(bo) => s.(dropping := s.dropping - multiset{bo}, unmapped := s.unmapped + multiset{bo})
    case Close => s.(cache := [], unmapped := s.unmapped + multiset(s.cache), closed := true)
  }

  function NewPool(max: nat): State {
    State(max, [], multiset{}, 0, 0, multiset{}, multiset{}, false)
  }

  /** Every buffer ever created, once. */
  function Created(n: nat): (m: multiset<Bo>)
    ensures |m| == n
    ensures forall x: Bo :: m[x] == if x < n then 1 else 0
  {
    if n == 0 then multiset{} else Created(n - 1) + multiset{n - 1}
  }

  /** Every buffer created is in exactly one place, and the pool is within its bound. */
  ghost predicate Inv(s: State) {
    && multiset(s.cache) + s.held + s.dropping + s.unmapped == Created(s.created)
    && |s.cache| <= s.max
  }

  lemma PopBack(cache: seq<Bo>)
    requires cache != []
    ensures multiset(cache) == multiset(cache[..|cache| - 1]) + multiset{cache[|cache| - 1]}
  {
    assert cache == cache[..|cache| - 1] + [cache[|cache| - 1]];
  }

  /** Handing one buffer from one place to another keeps the whole. */
  lemma Moved(a: multiset<Bo>, b: multiset<Bo>, rest: multiset<Bo>, bo: Bo)
    requires bo in a
    ensures (a - multiset{bo}) + (b + multiset{bo}) + rest == a + b + rest
  {
    assert a == (a - multiset{bo}) + multiset{bo};
  }

  lemma AllocKeeps(s: State)
    requires Inv(s) && Enabled(s, Alloc)
    ensures Inv(Next(s, Alloc))
  {
    if Hit(s.max, s.cache) {
      PopBack(s.cache);
      var rest, bo := s.cache[..|s.cache| - 1], s.cache[|s.cache| - 1];
      Moved(multiset(s.cache), s.held, s.dropping + s.unmapped, bo);
      assert multiset(rest) == multiset(s.cache) - multiset{bo};
      assert multiset(rest) + (s.held + multiset{bo}) + s.dropping + s.unmapped
          == multiset(rest) + (s.held + multiset{bo}) + (s.dropping + s.unmapped);
    }
  }

  lemma CreateKeeps(s: State)
    requires Inv(s) && Enabled(s, Create)
    ensures Inv(Next(s, Create))
  {
    assert multiset(s.cache) + (s.held + multiset{s.created}) + s.dropping + s.unmapped
        == (multiset(s.cache) + s.held + s.dropping + s.unmapped) + multiset{s.created};
  }

  lemma ReleaseKeeps(s: State, bo: Bo)
    requires Inv(s) && Enabled(s, Release(bo))
    ensures Inv(Next(s, Release(bo)))
  {
    if HasRoom(s.max, s.cache) {
      Moved(s.held, multiset(s.cache), s.dropping + s.unmapped, bo);
      assert multiset(s.cache + [bo]) == multiset(s.cache) + multiset{bo};
    } else {
      Moved(s.held, s.dropping, multiset(s.cache) + s.unmapped, bo);
    }
  }

  lemma UnmapKeeps(s: State, bo: Bo)
    requires Inv(s) && Enabled(s, Unmap(bo))
    ensures Inv(Next(s, Unmap(bo)))
  {
    Moved(s.dropping, s.unmapped, multiset(s.cache) + s.held, bo);
  }

  lemma StepKeeps(s: State, step: Step)
    requires Inv(s) && Enabled(s, step)
    ensures Inv(Next(s, step))
  {
    match step
    case Alloc => AllocKeeps(s);
    case Create => CreateKeeps(s);
    case Release(bo) => ReleaseKeeps(s, bo);
    case Unmap(bo) => UnmapKeeps(s, bo);
    case Close =>
  }

  lemma UnmapsAdd(a: seq<Bo>, b: seq<Bo>)
    ensures multiset(a + b) == multiset(a) + multiset(b)
    ensures |b| == 1 ==> multiset(b) == multiset{b[0]}
  {
    if |b| == 1 {
      assert b == [b[0]];
    }
  }

  // ---- the pool object ----

  /**
   * The pool, with the device behind it: `created` counts the buffers it made, `unmapped` logs its unmap
   * calls. `state` says also where the buffers outside the pool are; every critical section, creation and
   * unmapping is one step of it.
   */
  class Pool {
    const max: nat
    var cache: seq<Bo>
    var created: nat
    var unmapped: seq<Bo>
    ghost var state: State

    ghost predicate Valid()
      reads this
    {
      state.max == max && state.cache == cache && state.created == created && state.unmapped == multiset(unmapped)
    }

    constructor (max: nat)
      ensures Valid() && state == NewPool(max)
    {
      this.max := max;
      cache, created, unmapped := [], 0, [];
      state := NewPool(max);
    }

    /** The guarded part of alloc_impl. */
    method TakeCached() returns (hit: bool, bo: Bo)
      requires Valid() && Enabled(state, Alloc)
      modifies this`cache, this`state
      ensures Valid() && state == Next(old(state), Alloc)
      ensures hit <==> max != 0 && old(cache) != []
      ensures if hit then old(cache) == cache + [bo] else cache == old(cache)
    {
      state := Next(state, Alloc);
      hit, bo := false, 0;
      if max != 0 {
        if cache != [] {
          hit, bo := true, cache[|cache| - 1];
          cache := cache[..|cache| - 1];
        }
      }
    }

    /** Allocate and map a new buffer, outside the lock. */
    method CreateBo() returns (bo: Bo)
      requires Valid() && Enabled(state, Create)
      modifies this`created, this`state
      ensures Valid() && state == Next(old(state), Create) && bo == old(created)
    {
      state := Next(state, Create);
      bo := created;
      created := created + 1;
    }

    /** alloc_impl with nobody in between: the last cached buffer if there is one, else a new one. */
    method AllocImpl() returns (bo: Bo)
      requires Valid() && Enabled(state, Alloc)
      modifies this
      ensures Valid() && state.held == old(state.held) + multiset{bo} && unmapped == old(unmapped)
      ensures if max != 0 && old(cache) != [] then old(cache) == cache + [bo] && created == old(created)
              else cache == old(cache) && bo == old(created) && created == old(created) + 1
    {
      var hit: bool;
      hit, bo := TakeCached();
      if !hit {
        bo := CreateBo();
      }
    }

    /** The guarded part of release_impl; what is not kept is to be unmapped. */
    method KeepIfRoom(bo: Bo) returns (kept: bool)
      requires Valid() && Enabled(state, Release(bo))
      modifies this`cache, this`state
      ensures Valid() && state == Next(old(state), Release(bo))
      ensures kept <==> |old(cache)| < max
      ensures cache == if kept then old(cache) + [bo] else old(cache)
    {
      state := Next(state, Release(bo));
      kept := false;
      if max != 0 {
        if |cache| < max {
          cache := cache + [bo];
          kept := true;
        }
      }
    }

    method UnmapBo(bo: Bo)
      modifies this`unmapped
      ensures unmapped == old(unmapped) + [bo]
    {
      unmapped := unmapped + [bo];
    }

    /** Unmap a buffer that was not kept, outside the lock. */
    method Destroy(bo: Bo)
      requires Valid() && Enabled(state, Unmap(bo))
      modifies this`unmapped, this`state
      ensures Valid() && state == Next(old(state), Unmap(bo)) && unmapped == old(unmapped) + [bo]
    {
      UnmapsAdd(unmapped, [bo]);
      state := Next(state, Unmap(bo));
      UnmapBo(bo);
    }

    /** release_impl with nobody in between: the buffer is cached if there is room, else unmapped. */
    method ReleaseImpl(bo: Bo)
      requires Valid() && Enabled(state, Release(bo))
      modifies this
      ensures Valid() && created == old(created)
      ensures if |old(cache)| < max then cache == old(cache) + [bo] && unmapped == old(unmapped)
              else cache == old(cache) && unmapped == old(unmapped) + [bo]
    {
      var kept := KeepIfRoom(bo);
      if !kept {
        Destroy(bo);
      }
    }

    /** The destructor unmaps what is cached, first to last. */
    method Drain()
      requires Valid() && Enabled(state, Close)
      modifies this
      ensures Valid() && state == Next(old(state), Close) && unmapped == old(unmapped) + old(cache)
    {
      var i := 0;
      while i < |cache|
        invariant 0 <= i <= |cache|
        invariant cache == old(cache) && created == old(created) && state == old(state)
        invariant unmapped == old(unmapped) + cache[..i]
      {
        UnmapBo(cache[i]);
        i := i + 1;
      }
      assert unmapped == old(unmapped) + cache;
      UnmapsAdd(old(unmapped), cache);
      state := Next(state, Close);
      cache := [];
    }
  }

  // ---- whole runs ----

  ghost predicate Allowed(s: State, steps: seq<Step>)
    decreases |steps|
  {
    steps == [] || (Enabled(s, steps[0]) && Allowed(Next(s, steps[0]), steps[1..]))
  }

  ghost function Final(s: State, steps: seq<Step>): State
    requires Allowed(s, steps)
    decreases |steps|
  {
    if steps == [] then s else Final(Next(s, steps[0]), steps[1..])
  }

  lemma {:induction false} RunKeeps(s: State, steps: seq<Step>)
    requires Inv(s) && Allowed(s, steps)
    ensures Inv(Final(s, steps)) && Final(s, steps).max == s.max
    decreases |steps|
  {
    if steps != [] {
      StepKeeps(s, steps[0]);
      RunKeeps(Next(s, steps[0]), steps[1..]);
    }
  }

  /**
   * Over every interleaving: the pool never exceeds its maximum; created buffers are exactly those
   * cached, held, about to be unmapped or unmapped; a buffer is in one of these places only and at most
   * once in it, so none is handed to two callers and none is unmapped twice.
   */
  lemma PoolConserves(max: nat, steps: seq<Step>, bo: Bo)
    requires Allowed(NewPool(max), steps)
    ensures var s := Final(NewPool(max), steps);
            && |s.cache| <= max
            && s.created - |s.unmapped| == |s.held| + |s.cache| + |s.dropping|
            && multiset(s.cache)[bo] + s.held[bo] + s.dropping[bo] + s.unmapped[bo] == (if bo < s.created then 1 else 0)
  {
    RunKeeps(NewPool(max), steps);
    var s := Final(NewPool(max), steps);
    assert |multiset(s.cache) + s.held + s.dropping + s.unmapped| == s.created;
    assert (multiset(s.cache) + s.held + s.dropping + s.unmapped)[bo] == Created(s.created)[bo];
  }

  /** When nobody holds a buffer, the destructor leaves nothing mapped. */
  lemma CloseUnmapsRest(s: State)
    requires Inv(s) && Enabled(s, Close) && s.held == multiset{}
    ensures Next(s, Close).unmapped == Created(s.created)
  {
    assert multiset(s.cache) + s.held + s.dropping + s.unmapped == multiset(s.cache) + s.unmapped;
  }

  /** The pool is last in, first out: with room, a release followed by an alloc gives the same buffer back. */
  lemma ReleaseThenAlloc(s: State, bo: Bo)
    requires Enabled(s, Release(bo))
    requires |s.cache| < s.max
    ensures Next(Next(s, Release(bo)), Alloc) == s
  {
    var mid := Next(s, Release(bo));
    assert mid.cache[..|mid.cache| - 1] == s.cache;
    assert (s.held - multiset{bo}) + multiset{bo} == s.held;
  }

  /** With nothing cached, an alloc followed by its creation hands out a buffer that did not exist before. */
  lemma AllocCreates(s: State)
    requires Enabled(s, Alloc) && s.cache == []
    ensures Next(Next(s, Alloc), Create) == s.(created := s.created + 1, held := s.held + multiset{s.created})
  {
  }

  /** Without room, a release followed by its unmap takes the buffer out of use. */
  lemma ReleaseUnmaps(s: State, bo: Bo)
    requires Enabled(s, Release(bo)) && |s.cache| >= s.max
    ensures Next(Next(s, Release(bo)), Unmap(bo))
         == s.(held := s.held - multiset{bo}, unmapped := s.unmapped + multiset{bo})
  {
    assert s.dropping + multiset{bo} - multiset{bo} == s.dropping;
  }

  function Min(a: nat, b: nat): nat {
    if a < b then a else b
  }

  function Releases(bos: seq<Bo>): seq<Step> {
    if bos == [] then [] else [Release(bos[0])] + Releases(bos[1..])
  }

  function Allocs(n: nat): seq<Step> {
    if n == 0 then [] else [Alloc] + Allocs(n - 1)
  }

  lemma RunHead(s: State, step: Step, rest: seq<Step>)
    requires Allowed(s, [step] + rest)
    ensures Enabled(s, step) && Allowed(Next(s, step), rest)
    ensures Final(s, [step] + rest) == Final(Next(s, step), rest)
  {
    assert ([step] + rest)[1..] == rest;
  }

  /** Of `bos`, the first that fit are behind `cache` in `cache'`; the others were added to `dropping`. */
  ghost predicate Filled(max: nat, cache: seq<Bo>, dropping: multiset<Bo>, bos: seq<Bo>,
                         cache': seq<Bo>, dropping': multiset<Bo>)
  {
    && |cache| <= max
    && var room := Min(|bos|, max - |cache|);
       cache' == cache + bos[..room] && dropping' == dropping + multiset(bos[room..])
  }

  lemma FillOne(max: nat, cache: seq<Bo>, dropping: multiset<Bo>, bos: seq<Bo>,
                cache': seq<Bo>, dropping': multiset<Bo>)
    requires bos != [] && |cache| < max && Filled(max, cache + [bos[0]], dropping, bos[1..], cache', dropping')
    ensures Filled(max, cache, dropping, bos, cache', dropping')
  {
    var room := Min(|bos|, max - |cache|);
    assert bos[1..][room - 1..] == bos[room..] && bos[..room] == [bos[0]] + bos[1..][..room - 1];
    AppendOne(cache, bos[0], bos[1..][..room - 1]);
  }

  lemma AppendOne(cache: seq<Bo>, bo: Bo, rest: seq<Bo>)
    ensures (cache + [bo]) + rest == cache + ([bo] + rest)
  {
  }

  lemma DropOne(max: nat, cache: seq<Bo>, dropping: multiset<Bo>, bos: seq<Bo>,
                cache': seq<Bo>, dropping': multiset<Bo>)
    requires bos != [] && |cache| == max
    requires Filled(max, cache, dropping + multiset{bos[0]}, bos[1..], cache', dropping')
    ensures Filled(max, cache, dropping, bos, cache', dropping')
  {
    assert bos[0..] == bos == [bos[0]] + bos[1..] && bos[1..][0..] == bos[1..];
  }

  /** Releases fill the pool up to its maximum, in order; the rest are to be unmapped. */
  lemma {:induction false} ReleasesFill(s: State, bos: seq<Bo>)
    requires Allowed(s, Releases(bos)) && |s.cache| <= s.max
    ensures var s' := Final(s, Releases(bos)); Filled(s.max, s.cache, s.dropping, bos, s'.cache, s'.dropping)
    decreases |bos|
  {
    if bos != [] {
      RunHead(s, Release(bos[0]), Releases(bos[1..]));
      ReleasesFill(Next(s, Release(bos[0])), bos[1..]);
      var s' := Final(s, Releases(bos));
      if |s.cache| < s.max {
        FillOne(s.max, s.cache, s.dropping, bos, s'.cache, s'.dropping);
      } else {
        DropOne(s.max, s.cache, s.dropping, bos, s'.cache, s'.dropping);
      }
    }
  }

  /** Of `n` allocs, those that found a buffer took it from the end of `cache`; the others missed. */
  ghost predicate Taken(cache: seq<Bo>, held: multiset<Bo>, missed: nat, n: nat,
                        cache': seq<Bo>, held': multiset<Bo>, missed': nat)
  {
    var left := |cache| - Min(n, |cache|);
    && cache' == cache[..left]
    && held' == held + multiset(cache[left..])
    && missed' == missed + n - Min(n, |cache|)
  }

  lemma TakeOne(cache: seq<Bo>, held: multiset<Bo>, missed: nat, n: nat,
                cache': seq<Bo>, held': multiset<Bo>, missed': nat)
    requires cache != [] && n > 0
    requires Taken(cache[..|cache| - 1], held + multiset{cache[|cache| - 1]}, missed, n - 1, cache', held', missed')
    ensures Taken(cache, held, missed, n, cache', held', missed')
  {
    var last, left := |cache| - 1, |cache| - Min(n, |cache|);
    assert cache[..last][..left] == cache[..left];
    assert cache[left..] == cache[..last][left..] + [cache[last]];
  }

  lemma TakeNone(cache: seq<Bo>, held: multiset<Bo>, missed: nat)
    ensures Taken(cache, held, missed, 0, cache, held, missed)
  {
    assert cache[..|cache|] == cache && cache[|cache|..] == [];
  }

  lemma MissOne(held: multiset<Bo>, missed: nat, n: nat, cache': seq<Bo>, held': multiset<Bo>, missed': nat)
    requires n > 0 && Taken([], held, missed + 1, n - 1, cache', held', missed')
    ensures Taken([], held, missed, n, cache', held', missed')
  {
  }

  ghost predicate TookAll(s: State, n: nat, s': State) {
    Taken(s.cache, s.held, s.missed, n, s'.cache, s'.held, s'.missed)
  }

  lemma AllocHead(s: State, n: nat, s': State)
    requires Enabled(s, Alloc) && |s.cache| <= s.max && n > 0 && TookAll(Next(s, Alloc), n - 1, s')
    ensures TookAll(s, n, s')
  {
    if s.cache != [] {
      TakeOne(s.cache, s.held, s.missed, n, s'.cache, s'.held, s'.missed);
    } else {
      MissOne(s.held, s.missed, n, s'.cache, s'.held, s'.missed);
    }
  }

  /** Allocs empty the pool from its end; each one beyond what it holds finds nothing. */
  lemma {:induction false} AllocsTake(s: State, n: nat)
    requires Allowed(s, Allocs(n)) && |s.cache| <= s.max
    ensures TookAll(s, n, Final(s, Allocs(n)))
    decreases n
  {
    if n == 0 {
      TakeNone(s.cache, s.held, s.missed);
    } else {
      RunHead(s, Alloc, Allocs(n - 1));
      AllocsTake(Next(s, Alloc), n - 1);
      AllocHead(s, n, Final(s, Allocs(n)));
    }
  }
}

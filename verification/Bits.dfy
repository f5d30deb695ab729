/** Machine words as bounded integers, and the bitwise operators the runtime applies to them. */
module Bits {

  type u8 = x: int | 0 <= x < 0x100
  type u32 = x: int | 0 <= x < 0x1_0000_0000
  type u64 = x: int | 0 <= x < 0x1_0000_0000_0000_0000

  /** The value a 32-bit variable keeps of an integer. */
  function Wrap32(x: int): u32 {
    x % 0x1_0000_0000
  }

  /** Unsigned 32-bit subtraction, which wraps. */
  function Sub32(a: u32, b: u32): u32 {
    Wrap32(a - b)
  }

  /** Unsigned 32-bit increment, which wraps. */
  function Inc32(a: u32): u32 {
    Wrap32(a + 1)
  }

  /** Unsigned 32-bit multiplication, which wraps. */
  function Mul32(a: u32, b: u32): u32 {
    Wrap32(a * b)
  }

  function Pow2(k: nat): (p: nat)
    ensures p >= 1
  {
    if k == 0 then 1 else 2 * Pow2(k - 1)
  }

  ghost predicate IsPow2(n: nat) {
    exists k: nat :: n == Pow2(k)
  }

  /** Bitwise and. */
  function And(a: nat, b: nat): (r: nat)
    ensures r <= a && r <= b
  {
    if a == 0 || b == 0 then 0
    else 2 * And(a / 2, b / 2) + (if a % 2 == 1 && b % 2 == 1 then 1 else 0)
  }

  /** Bitwise or. */
  function Or(a: nat, b: nat): (r: nat)
    ensures a <= r <= a + b && b <= r
  {
    if a == 0 then b
    else if b == 0 then a
    else 2 * Or(a / 2, b / 2) + (if a % 2 == 1 || b % 2 == 1 then 1 else 0)
  }

  lemma MulAtLeast(a: int, n: int)
    requires a >= 1 && n > 0
    ensures a * n >= n
  {
    assert a * n == (a - 1) * n + n;
    assert (a - 1) * n >= 0;
  }

  lemma MulMonotone(a: nat, x: int, y: int)
    requires x <= y
    ensures a * x <= a * y
  {
    assert a * (y - x) >= 0;
    assert a * (y - x) == a * y - a * x;
  }

  lemma MulNext(a: int, j: int)
    ensures a * (j + 1) == a * j + a
  {
  }

  lemma ProductBelow(a: nat, j: nat, n: nat, w: nat)
    requires j < n && a * n <= w && w > 0
    ensures 0 <= a * j < w
  {
    MulMonotone(a, j + 1, n);
    MulNext(a, j);
    MulMonotone(j, 0, a);
    assert a * j == j * a;
  }

  lemma WrapSmall(x: int)
    requires 0 <= x < 0x1_0000_0000
    ensures Wrap32(x) == x
  {
  }

  lemma QuotientUnique(n: int, q: int, r: int, q': int, r': int)
    requires n > 0 && q * n + r == q' * n + r' && 0 <= r < n && 0 <= r' < n
    ensures q == q' && r == r'
  {
    if q > q' {
      assert (q - q') * n == q * n - q' * n;
      MulAtLeast(q - q', n);
    } else if q < q' {
      assert (q' - q) * n == q' * n - q * n;
      MulAtLeast(q' - q, n);
    }
  }

  lemma DivMod(x: int, n: int)
    requires n > 0
    ensures x == (x / n) * n + x % n && 0 <= x % n < n
  {
  }

  lemma ModUnique(x: int, n: int, q: int, r: int)
    requires n > 0 && x == q * n + r && 0 <= r < n
    ensures x % n == r && x / n == q
  {
    DivMod(x, n);
    QuotientUnique(n, q, r, x / n, x % n);
  }

  lemma WrapAdd(a: int, b: int)
    ensures Wrap32(Wrap32(a) + b) == Wrap32(a + b)
  {
    var q, s := a / 0x1_0000_0000, Wrap32(a) + b;
    var q', r' := s / 0x1_0000_0000, Wrap32(s);
    assert a + b == (q + q') * 0x1_0000_0000 + r';
    ModUnique(a + b, 0x1_0000_0000, q + q', r');
  }

  lemma HalfMod(x: nat, m: nat)
    requires m > 0
    ensures x % (2 * m) == 2 * ((x / 2) % m) + x % 2
  {
    var h := x / 2;
    DivMod(h, m);
    var q, r := h / m, h % m;
    assert q * (2 * m) == 2 * (q * m);
    ModUnique(x, 2 * m, q, 2 * r + x % 2);
  }

  /** Masking with 2^k - 1 is reduction modulo 2^k. */
  lemma {:induction false} AndMask(x: nat, k: nat)
    ensures And(x, Pow2(k) - 1) == x % Pow2(k)
  {
    if k > 0 {
      var m := Pow2(k - 1);
      AndMask(x / 2, k - 1);
      assert (2 * m - 1) / 2 == m - 1;
      HalfMod(x, m);
    }
  }

  lemma AndDouble(a: nat, b: nat)
    ensures And(2 * a, 2 * b) == 2 * And(a, b)
  {
    if a != 0 && b != 0 {
      assert (2 * a) / 2 == a && (2 * b) / 2 == b && (2 * a) % 2 == 0;
    }
  }

  lemma MulDouble(a: nat, p: nat)
    ensures a * (2 * p) == 2 * (a * p)
  {
  }

  /** Shifting both operands shifts the result. */
  lemma {:induction false} AndShift(a: nat, b: nat, k: nat, p: nat)
    requires p == Pow2(k)
    ensures And(a * p, b * p) == And(a, b) * p
    decreases k
  {
    if k > 0 {
      var q := Pow2(k - 1);
      AndShift(a, b, k - 1, q);
      MulDouble(a, q);
      MulDouble(b, q);
      MulDouble(And(a, b), q);
      AndDouble(a * q, b * q);
    }
  }

  lemma Pow2Of8()
    ensures Pow2(8) == 0x100
  {
    assert Pow2(4) == 16;
  }

  lemma {:induction false} AndSelf(n: nat)
    ensures And(n, n) == n
  {
    if n > 0 {
      AndSelf(n / 2);
    }
  }

  /** The test n & (n - 1) == 0 accepts exactly the powers of two. */
  lemma {:induction false} PowerOfTwoTest(n: nat)
    requires n > 0
    ensures And(n, n - 1) == 0 <==> IsPow2(n)
  {
    if n == 1 {
      assert n == Pow2(0);
    } else if n % 2 == 1 {
      AndSelf(n / 2);
      assert (n - 1) / 2 == n / 2;
      forall k: nat ensures n != Pow2(k) {
        if k > 0 { assert Pow2(k) == 2 * Pow2(k - 1); }
      }
    } else {
      PowerOfTwoTest(n / 2);
      assert (n - 1) / 2 == n / 2 - 1;
      if IsPow2(n / 2) {
        var k: nat :| n / 2 == Pow2(k);
        assert n == Pow2(k + 1);
      }
      if IsPow2(n) {
        var k: nat :| n == Pow2(k);
        assert n / 2 == Pow2(k - 1);
      }
    }
  }

  lemma {:induction false} Pow2Monotone(j: nat, k: nat)
    requires j <= k
    ensures Pow2(j) <= Pow2(k)
    ensures Pow2(j) * Pow2(k - j) == Pow2(k)
    decreases k
  {
    if j < k {
      Pow2Monotone(j, k - 1);
      var a, b := Pow2(j), Pow2(k - 1 - j);
      assert Pow2(k - j) == 2 * b;
      assert a * (2 * b) == 2 * (a * b);
    } else {
      assert Pow2(k - j) == 1;
    }
  }

  lemma Pow2Of32()
    ensures Pow2(32) == 0x1_0000_0000 && Pow2(31) == 0x8000_0000
    ensures Pow2(30) == 0x4000_0000 && Pow2(28) == 0x1000_0000
  {
    assert Pow2(8) == 0x100;
    assert Pow2(16) == 0x1_0000;
    assert Pow2(24) == 0x100_0000;
    assert Pow2(30) == 0x4000_0000;
  }

  lemma ModOfMultiple(c: nat, t: nat, n: nat)
    requires n > 0 && t > 0
    ensures t * n > 0 && (c % (t * n)) % n == c % n
  {
    MulAtLeast(t, n);
    var w := t * n;
    var q, r := c / w, c % w;
    DivMod(c, w);
    DivMod(r, n);
    assert q * (t * n) == (q * t) * n;
    assert (q * t + r / n) * n == (q * t) * n + (r / n) * n;
    ModUnique(c, n, q * t + r / n, r % n);
  }

  lemma Pow2Reflects(j: nat, k: nat)
    requires Pow2(j) <= Pow2(k)
    ensures j <= k
  {
    if j > k {
      Pow2Monotone(k + 1, j);
    }
  }

  lemma PowerCofactor(n: nat, k: nat, top: nat) returns (t: nat)
    requires n == Pow2(k) <= Pow2(top)
    ensures t > 0 && t * n == Pow2(top)
  {
    Pow2Reflects(k, top);
    Pow2Monotone(k, top);
    t := Pow2(top - k);
    assert t * Pow2(k) == Pow2(k) * t;
  }

  /** A power of two up to 2^32 divides 2^32, so reducing a wrapped counter is reducing the counter. */
  lemma PowerDividesWord(n: nat, c: nat)
    requires IsPow2(n) && n <= 0x1_0000_0000
    ensures n > 0 && Wrap32(c) % n == c % n
  {
    Pow2Of32();
    var k: nat :| n == Pow2(k);
    var t := PowerCofactor(n, k, 32);
    ModOfMultiple(c, t, n);
  }

  /** The lowest `k` bits of `x` are clear. */
  predicate Aligned(x: nat, k: nat) {
    k == 0 || (x % 2 == 0 && Aligned(x / 2, k - 1))
  }

  lemma {:induction false} MultipleIsAligned(q: nat, k: nat)
    ensures Aligned(q * Pow2(k), k)
  {
    if k > 0 {
      var h := q * Pow2(k - 1);
      MultipleIsAligned(q, k - 1);
      MulDouble(q, Pow2(k - 1));
      assert (2 * h) / 2 == h;
    }
  }

  /** Setting bits below position `k` leaves the part above it alone. */
  lemma {:induction false} OrLow(h: nat, k: nat, c: nat, x: nat)
    requires Aligned(h, k) && c < Pow2(k) && x < Pow2(k)
    ensures Or(h + c, x) == h + Or(c, x)
    decreases k
  {
    if k > 0 && x > 0 {
      OrLow(h / 2, k - 1, c / 2, x / 2);
      assert (h + c) / 2 == h / 2 + c / 2;
    }
  }

  lemma OrAligned(h: nat, k: nat, x: nat)
    requires Aligned(h, k) && x < Pow2(k)
    ensures Or(h, x) == h + x
  {
    OrLow(h, k, 0, x);
  }

  lemma {:induction false} OrCommutes(a: nat, b: nat)
    ensures Or(a, b) == Or(b, a)
  {
    if a != 0 && b != 0 {
      OrCommutes(a / 2, b / 2);
    }
  }

  lemma AppendAssociates<T>(a: seq<T>, b: seq<T>, c: seq<T>)
    ensures a + b + c == a + (b + c)
  {
  }

  lemma SliceOfSlice<T>(s: seq<T>, base: nat, n: nat, from: nat, length: nat)
    requires base + n <= |s| && from + length <= n
    ensures s[base..base + n][from..from + length] == s[base + from..base + from + length]
  {
    var a, b := s[base..base + n][from..from + length], s[base + from..base + from + length];
    assert |a| == |b| == length;
    forall k | 0 <= k < length ensures a[k] == b[k] {
    }
  }

  /** Bit `k` of `x`, counting from the least significant. */
  predicate Bit(x: nat, k: nat) {
    if k == 0 then x % 2 == 1 else Bit(x / 2, k - 1)
  }

  lemma {:induction false} BitOfZero(k: nat)
    ensures !Bit(0, k)
  {
    if k > 0 {
      BitOfZero(k - 1);
    }
  }

  /** Masking with a single bit tests that bit. */
  lemma {:induction false} AndBit(x: nat, k: nat)
    ensures And(x, Pow2(k)) == if Bit(x, k) then Pow2(k) else 0
  {
    if k > 0 {
      AndBit(x / 2, k - 1);
      if x == 0 {
        BitOfZero(k);
      }
    }
  }

  lemma {:induction false} OrBit(a: nat, b: nat, k: nat)
    ensures Bit(Or(a, b), k) <==> Bit(a, k) || Bit(b, k)
  {
    if a == 0 || b == 0 {
      BitOfZero(k);
    } else if k > 0 {
      OrBit(a / 2, b / 2, k - 1);
    }
  }

  lemma {:induction false} OrBounded(a: nat, b: nat, k: nat)
    requires a < Pow2(k) && b < Pow2(k)
    ensures Or(a, b) < Pow2(k)
  {
    if a != 0 && b != 0 && k > 0 {
      OrBounded(a / 2, b / 2, k - 1);
    }
  }

  lemma {:induction false} BitOfPow2(j: nat, k: nat)
    ensures Bit(Pow2(j), k) <==> j == k
  {
    if j == 0 && k > 0 {
      BitOfZero(k - 1);
    } else if j > 0 && k > 0 {
      BitOfPow2(j - 1, k - 1);
    }
  }
}

/** Powers of two, shifts and masks on naturals, and the floor-division facts the proofs use. */
module Bits {

  function Pow2(n: nat): (p: nat)
    ensures p > 0
  {
    if n == 0 then 1 else 2 * Pow2(n - 1)
  }

  /** Bitwise `&`. */
  function And(x: nat, y: nat): nat {
    if x == 0 then 0 else 2 * And(x / 2, y / 2) + (if x % 2 == 1 && y % 2 == 1 then 1 else 0)
  }

  /** Bitwise `|`. */
  function Or(x: nat, y: nat): nat
    decreases x + y
  {
    if x == 0 then y
    else if y == 0 then x
    else 2 * Or(x / 2, y / 2) + (if x % 2 == 1 || y % 2 == 1 then 1 else 0)
  }

  function Floor(x: nat, d: nat): nat
    requires d > 0
  {
    x / d
  }

  /** `>>`. */
  function Shr(x: nat, n: nat): nat {
    Floor(x, Pow2(n))
  }

  /** `<<` on a `width`-bit integer: bits pushed past the top are lost. */
  function Shl(x: nat, n: nat, width: nat): nat {
    x * Pow2(n) % Pow2(width)
  }

  lemma {:induction false} Pow2Add(a: nat, b: nat)
    ensures Pow2(a + b) == Pow2(a) * Pow2(b)
  {
    if a > 0 {
      Pow2Add(a - 1, b);
      assert Pow2(a + b) == 2 * Pow2(a - 1 + b);
    }
  }

  lemma {:induction false} Pow2Mono(a: nat, b: nat)
    requires a <= b
    ensures Pow2(a) <= Pow2(b)
  {
    if a < b {
      Pow2Mono(a, b - 1);
    }
  }

  lemma Pow2Small()
    ensures Pow2(1) == 2 && Pow2(2) == 4 && Pow2(3) == 8 && Pow2(7) == 0x80 && Pow2(8) == 0x100
  {
    assert Pow2(1) == 2;
    assert Pow2(2) == 4;
    assert Pow2(3) == 8;
    assert Pow2(4) == 16;
    assert Pow2(5) == 32;
    assert Pow2(6) == 64;
  }

  lemma Pow2To48()
    ensures Pow2(15) == 0x8000 && Pow2(16) == 0x1_0000 && Pow2(32) == 0x1_0000_0000
    ensures Pow2(34) == 0x4_0000_0000 && Pow2(35) == 0x8_0000_0000
    ensures Pow2(48) == 0x1_0000_0000_0000
  {
    Pow2Small();
    Pow2Add(7, 8);
    Pow2Add(8, 8);
    Pow2Add(16, 16);
    Pow2Add(2, 32);
    Pow2Add(3, 32);
    Pow2Add(16, 32);
  }

  lemma Pow2Wide()
    ensures Pow2(64) == 0x1_0000_0000_0000_0000
    ensures Pow2(128) == 0x1_0000_0000_0000_0000_0000_0000_0000_0000
  {
    Pow2To48();
    Pow2Add(32, 32);
    Pow2Add(64, 64);
  }

  // ---- floor division ----

  function Times(a: nat, b: nat): (p: nat)
    ensures p == a * b
  {
    a * b
  }

  /** Floor of `a * b / d`. */
  function MulDiv(a: nat, b: nat, d: nat): nat
    requires d > 0
  {
    a * b / d
  }

  lemma MulMono(a: nat, b: nat, c: nat)
    requires a <= b
    ensures a * c <= b * c
  {
  }

  lemma MulStrict(a: nat, b: nat, c: nat)
    requires a < b && c > 0
    ensures a * c < b * c
  {
    MulMono(a + 1, b, c);
  }

  lemma MulCancel(a: nat, b: nat, c: nat)
    requires a * c <= b * c && c > 0
    ensures a <= b
  {
    if b < a {
      MulStrict(b, a, c);
      assert false;
    }
  }

  lemma MulAssoc(a: nat, b: nat, c: nat)
    ensures a * b * c == a * (b * c)
  {
  }

  lemma DivBounds(a: nat, d: nat)
    requires d > 0
    ensures (a / d) * d <= a < (a / d) * d + d
  {
  }

  lemma DivNext(a: nat, d: nat)
    requires d > 0
    ensures (a / d) * d <= a < (a / d + 1) * d
  {
    var q := a / d;
    DivBounds(a, d);
    assert (q + 1) * d == q * d + d;
  }

  lemma DivUnique(a: nat, d: nat, q: nat)
    requires q * d <= a < q * d + d
    ensures a / d == q
  {
    var r := a / d;
    DivBounds(a, d);
    if r < q {
      MulMono(r + 1, q, d);
      assert false;
    } else if r > q {
      MulMono(q + 1, r, d);
      assert false;
    }
  }

  lemma DivMono(a: nat, b: nat, d: nat)
    requires a <= b && d > 0
    ensures a / d <= b / d
  {
    DivBounds(a, d);
    DivBounds(b, d);
    if b / d < a / d {
      MulMono(b / d + 1, a / d, d);
      assert false;
    }
  }

  lemma DivAntitone(a: nat, d: nat, e: nat)
    requires 0 < d <= e
    ensures a / e <= a / d
  {
    DivBounds(a, d);
    DivBounds(a, e);
    if a / d < a / e {
      MulMono(a / d + 1, a / e, d);
      MulMono(d, e, a / e);
      assert false;
    }
  }

  /** `q <= a / d` exactly when `q * d <= a`. */
  lemma DivGe(a: nat, d: nat, q: nat)
    requires d > 0
    ensures q <= a / d <==> q * d <= a
  {
    DivBounds(a, d);
    if q <= a / d {
      MulMono(q, a / d, d);
    } else {
      MulMono(a / d + 1, q, d);
    }
  }

  /** A common factor cancels. */
  lemma DivCancel(x: nat, y: nat, k: nat)
    requires y > 0 && k > 0
    ensures x * k / (y * k) == x / y
  {
    var q := x / y;
    DivBounds(x, y);
    MulMono(q * y, x, k);
    MulStrict(x, (q + 1) * y, k);
    MulAssoc(q, y, k);
    MulAssoc(q + 1, y, k);
    DivUnique(x * k, y * k, q);
  }

  /** Division and remainder of `k * d + r` by `d`. */
  lemma DivModOf(k: nat, r: nat, d: nat)
    requires r < d
    ensures (k * d + r) / d == k && (k * d + r) % d == r
  {
    DivUnique(k * d + r, d, k);
  }

  lemma DivDiv(x: nat, d: nat, e: nat)
    requires d > 0 && e > 0
    ensures d * e > 0 && x / d / e == x / (d * e)
  {
    var q := x / d / e;
    MulStrict(0, d, e);
    DivNext(x, d);
    DivNext(x / d, e);
    MulMono(q * e, x / d, d);
    MulMono(x / d + 1, (q + 1) * e, d);
    MulAssoc(q, e, d);
    MulAssoc(q + 1, e, d);
    DivUnique(x, e * d, q);
  }

  // ---- masks and disjoint unions ----

  /** How quotient and remainder by `2 * p` follow from those of the halved number by `p`. */
  lemma HalveDivMod(x: nat, p: nat)
    requires p > 0
    ensures x / (2 * p) == x / 2 / p
    ensures x % (2 * p) == 2 * (x / 2 % p) + x % 2
  {
    var q, r := x / 2 / p, x / 2 % p;
    DivBounds(x / 2, p);
    assert x / 2 == q * p + r;
    assert x == q * (2 * p) + (2 * r + x % 2);
    DivModOf(q, 2 * r + x % 2, 2 * p);
  }

  lemma AndOddMask(x: nat, p: nat)
    requires p > 0
    ensures And(x, 2 * p - 1) == 2 * And(x / 2, p - 1) + x % 2
  {
    var mask := 2 * p - 1;
    assert mask / 2 == p - 1 && mask % 2 == 1;
  }

  lemma {:induction false} AndMask(x: nat, n: nat)
    ensures And(x, Pow2(n) - 1) == x % Pow2(n)
    decreases n
  {
    if n == 0 {
      AndZero(x);
    } else {
      var p := Pow2(n - 1);
      AndMask(x / 2, n - 1);
      AndOddMask(x, p);
      HalveDivMod(x, p);
    }
  }

  lemma {:induction false} AndZero(x: nat)
    ensures And(x, 0) == 0
  {
    if x > 0 {
      AndZero(x / 2);
    }
  }

  lemma AndEvenMask(x: nat, p: nat)
    ensures And(x, 2 * p) == 2 * And(x / 2, p)
  {
    assert 2 * p / 2 == p && 2 * p % 2 == 0;
  }

  lemma AndOne(x: nat)
    ensures And(x, 1) == x % 2
  {
    AndZero(x / 2);
  }

  lemma HalveDiv(x: nat, p: nat)
    requires p > 0
    ensures x / (2 * p) == x / 2 / p
  {
    HalveDivMod(x, p);
  }

  /** Testing one bit with a mask. */
  lemma {:induction false} AndBit(x: nat, n: nat)
    ensures And(x, Pow2(n)) != 0 <==> x / Pow2(n) % 2 == 1
    decreases n
  {
    if n == 0 {
      AndOne(x);
    } else {
      AndBit(x / 2, n - 1);
      AndEvenMask(x, Pow2(n - 1));
      HalveDiv(x, Pow2(n - 1));
    }
  }

  /** Values that share no bit position: `|` is addition. */
  lemma {:induction false} OrDisjoint(lo: nat, hi: nat, n: nat)
    requires lo < Pow2(n)
    ensures Or(lo, hi * Pow2(n)) == lo + hi * Pow2(n)
    decreases n
  {
    var p := Pow2(n);
    if lo != 0 && hi * p != 0 {
      assert n > 0;
      var h := Pow2(n - 1);
      assert hi * p == 2 * (hi * h);
      OrDisjoint(lo / 2, hi, n - 1);
    }
  }
}

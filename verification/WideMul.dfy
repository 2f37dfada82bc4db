/**
 * The 128-by-128-bit schoolbook multiply and the shifted product of the tick arithmetic, with
 * proofs that no checked operation overflows and that both are exact.
 */
module WideMul {
  import opened Outcome
  import opened Bits

  const WORD: nat := 0x1_0000_0000_0000_0000
  const U128_MAX: nat := 0xffff_ffff_ffff_ffff_ffff_ffff_ffff_ffff
  const MASK64: nat := 0xffff_ffff_ffff_ffff

  /** How a 128-bit value splits at bit 64, in terms of masks and shifts. */
  lemma SplitWord(x: u128)
    ensures And(x, MASK64) == x % WORD < WORD
    ensures Shr(x, 64) == x / WORD < WORD
    ensures Shl(x, 64, 128) == x % WORD * WORD
  {
    Pow2Wide();
    AndMask(x, 64);
    var hi, lo := x / WORD, x % WORD;
    assert x * WORD == hi * (WORD * WORD) + lo * WORD;
    DivModOf(hi, lo * WORD, WORD * WORD);
  }

  lemma ProductBound(x: nat, y: nat, w: nat)
    requires x < w && y < w
    ensures x * y <= (w - 1) * (w - 1)
  {
    MulMono(x, w - 1, y);
    MulMono(y, w - 1, w - 1);
  }

  /** The four partial products add up to the whole product. */
  lemma PartialProducts(ah: nat, al: nat, bh: nat, bl: nat, w: nat)
    ensures (ah * w + al) * (bh * w + bl) == ah * bh * (w * w) + (al * bh + ah * bl) * w + al * bl
  {
    assert ah * w * (bh * w + bl) == ah * bh * (w * w) + ah * bl * w;
    assert al * (bh * w + bl) == al * bh * w + al * bl;
  }

  /** Carrying the middle words up leaves the sum of the partial products unchanged. */
  lemma CarryMiddle(p0: nat, p1: nat, p2: nat, p3: nat)
    ensures var mid := p0 / WORD + p1 % WORD + p2 % WORD;
            (p3 + p1 / WORD + p2 / WORD + mid / WORD) * (WORD * WORD) + (p0 % WORD + mid % WORD * WORD)
            == p3 * (WORD * WORD) + (p1 + p2) * WORD + p0
  {
  }

  function LowWord(x: u128): (r: nat)
    ensures r == x % WORD < WORD
  {
    SplitWord(x);
    And(x, MASK64)
  }

  function HighWord(x: u128): (r: nat)
    ensures r == x / WORD < WORD
  {
    SplitWord(x);
    Shr(x, 64)
  }

  /** `low | (high << 64)`. */
  function JoinWords(low: nat, high: u128): (r: u128)
    requires low < WORD
    ensures r == low + high % WORD * WORD
  {
    SplitWord(high);
    Pow2Wide();
    OrDisjoint(low, high % WORD, 64);
    Or(low, Shl(high, 64, 128))
  }

  /** All the facts about the four partial products of `a * b` that the multiply relies on. */
  lemma Schoolbook(a: u128, b: u128, ah: nat, al: nat, bh: nat, bl: nat, p0: nat, p1: nat, p2: nat, p3: nat)
    requires a == ah * WORD + al && b == bh * WORD + bl
    requires p0 == al * bl && p1 == al * bh && p2 == ah * bl && p3 == ah * bh
    requires p0 <= U128_MAX && p1 <= U128_MAX && p2 <= U128_MAX && p3 <= U128_MAX
    ensures var mid := p0 / WORD + p1 % WORD + p2 % WORD;
            var hi := p3 + p1 / WORD + p2 / WORD + mid / WORD;
            mid < 3 * WORD && hi <= U128_MAX && hi * (U128_MAX + 1) + (p0 % WORD + mid % WORD * WORD) == a * b
  {
    PartialProducts(ah, al, bh, bl, WORD);
    CarryMiddle(p0, p1, p2, p3);
    ProductBound(a, b, U128_MAX + 1);
  }

  function PartialProduct(x: nat, y: nat): (p: u128)
    requires x < WORD && y < WORD
    ensures p == x * y
  {
    ProductBound(x, y, WORD);
    x * y
  }

  /**
   * Full 256-bit product as (high, low). Every intermediate is a `u128`, so none of the
   * overflow-checked additions and multiplications can abort.
   */
  function MulU128(a: u128, b: u128): (r: (u128, u128))
    ensures r.0 * (U128_MAX + 1) + r.1 == a * b
  {
    var aLo, aHi := LowWord(a), HighWord(a);
    var bLo, bHi := LowWord(b), HighWord(b);
    var p0 := PartialProduct(aLo, bLo);
    var p1 := PartialProduct(aLo, bHi);
    var p2 := PartialProduct(aHi, bLo);
    var p3 := PartialProduct(aHi, bHi);
    Schoolbook(a, b, aHi, aLo, bHi, bLo, p0, p1, p2, p3);
    var mid: u128 := HighWord(p0) + LowWord(p1) + LowWord(p2);
    var lo: u128 := JoinWords(LowWord(p0), mid);
    var hi: u128 := p3 + HighWord(p1) + HighWord(p2) + HighWord(mid);
    (hi, lo)
  }

  lemma ScaledRemainder(h: nat, s: nat, m: nat, top: nat)
    requires s > 0 && m > 0 && top == s * m
    ensures h * m % top == h % s * m && h % s * m + m <= top
  {
    var k, q := h / s, h % s;
    assert h == k * s + q;
    assert h * m == k * top + q * m;
    MulMono(q + 1, s, m);
    DivModOf(k, q * m, top);
  }

  /** Dropping `s` from a double-width value splits into the two halves. */
  lemma QuotientAcross(h: nat, lo: nat, s: nat, m: nat, top: nat)
    requires s > 0 && top == s * m
    ensures (h * top + lo) / s == h * m + lo / s
  {
    DivBounds(lo, s);
    assert h * top == h * m * s;
    assert (h * m + lo / s) * s == h * m * s + lo / s * s;
    DivUnique(h * top + lo, s, h * m + lo / s);
  }

  /** A shift below the word size: the two shifted halves do not overlap. */
  lemma ShiftLow(h: nat, lo: nat, s: nat, m: nat, top: nat)
    requires s > 0 && m > 0 && top == s * m && lo < top
    ensures lo / s < m && h * m % top == h % s * m
    ensures h % s * m + lo / s == (h * top + lo) / s % top < top
  {
    ScaledRemainder(h, s, m, top);
    QuotientAcross(h, lo, s, m, top);
    DivGe(lo, s, m);
    LowBits(h / s, h % s, h, lo / s, s, m, top);
  }

  lemma LowBits(k: nat, q: nat, h: nat, l: nat, s: nat, m: nat, top: nat)
    requires h == k * s + q && top == s * m && l < m && q * m + m <= top
    ensures (h * m + l) % top == q * m + l < top
  {
    assert h * m == k * top + q * m;
    DivModOf(k, q * m + l, top);
  }

  /** Dividing by `d * top` only sees the high half. */
  lemma HighHalf(h: nat, lo: nat, top: nat, d: nat)
    requires d > 0 && lo < top
    ensures (h * top + lo) / (d * top) == h / d
  {
    var q := h / d;
    DivBounds(h, d);
    MulMono(h + 1, (q + 1) * d, top);
    MulMono(q * d, h, top);
    MulAssoc(q, d, top);
    MulAssoc(q + 1, d, top);
    DivUnique(h * top + lo, d * top, q);
  }

  /** A shift past the word size leaves less than a word, and nothing past twice the word size. */
  lemma ShiftHigh(h: nat, lo: nat, top: nat, d: nat, td: nat)
    requires d > 0 && h < top && lo < top && td == top * d
    ensures (h * top + lo) / td == h / d == (h * top + lo) / td % top
    ensures top <= d ==> h / d == 0
  {
    HighHalf(h, lo, top, d);
    DivAntitone(h, 1, d);
    DivModOf(0, h / d, top);
    if top <= d {
      DivUnique(h, d, 0);
    }
  }

  /** The low 128 bits of a shifted number, in plain arithmetic. */
  function Shifted(x: nat, shift: nat): u128 {
    Floor(x, Pow2(shift)) % (U128_MAX + 1)
  }

  /** No shift amount in any branch reaches the word size. */
  function ShiftPair(hi: u128, lo: u128, shift: nat): (r: u128)
    ensures r == Shifted(hi * (U128_MAX + 1) + lo, shift)
  {
    ShiftedPair(hi, lo, shift);
    if shift == 0 then lo
    else if shift < 128 then Or(Shr(lo, shift), Shl(hi, 128 - shift, 128))
    else if shift < 256 then Shr(hi, shift - 128)
    else 0
  }

  /** `a * b >> shift`, low 128 bits. */
  function MulShr(a: u128, b: u128, shift: nat): (r: u128)
    ensures r == Shifted(Times(a, b), shift)
  {
    var (hi, lo) := MulU128(a, b);
    ShiftPair(hi, lo, shift)
  }

  /** Each branch of the shift gives the low 128 bits of the shifted pair. */
  lemma ShiftedPair(hi: u128, lo: u128, shift: nat)
    ensures var q := Shifted(hi * (U128_MAX + 1) + lo, shift);
            && (shift == 0 ==> lo == q)
            && (0 < shift < 128 ==> Or(Shr(lo, shift), Shl(hi, 128 - shift, 128)) == q)
            && (128 <= shift < 256 ==> Shr(hi, shift - 128) == q)
            && (256 <= shift ==> 0 == q)
  {
    assert Pow2(128) == U128_MAX + 1 by { Pow2Wide(); }
    if shift == 0 {
      DivModOf(hi, lo, U128_MAX + 1);
    } else if shift < 128 {
      MulShrLow(hi, lo, shift);
    } else {
      MulShrHigh(hi, lo, shift);
    }
  }

  lemma MulShrLow(hi: u128, lo: u128, shift: nat)
    requires 0 < shift < 128
    ensures Or(Shr(lo, shift), Shl(hi, 128 - shift, 128)) == (hi * Pow2(128) + lo) / Pow2(shift) % Pow2(128)
  {
    var s, m, top := Pow2(shift), Pow2(128 - shift), Pow2(128);
    assert top == s * m by { Pow2Add(shift, 128 - shift); }
    assert lo < top by { Pow2Wide(); }
    ShiftLow(hi, lo, s, m, top);
    OrOfHalves(Shr(lo, shift), hi % s, 128 - shift, Shl(hi, 128 - shift, 128));
  }

  lemma OrOfHalves(l: nat, q: nat, n: nat, shifted: nat)
    requires l < Pow2(n) && shifted == q * Pow2(n)
    ensures Or(l, shifted) == q * Pow2(n) + l
  {
    OrDisjoint(l, q, n);
  }

  lemma MulShrHigh(hi: u128, lo: u128, shift: nat)
    requires 128 <= shift
    ensures (if shift < 256 then Shr(hi, shift - 128) else 0) == (hi * Pow2(128) + lo) / Pow2(shift) % Pow2(128)
  {
    var top, d := Pow2(128), Pow2(shift - 128);
    assert hi < top && lo < top by { Pow2Wide(); }
    assert Pow2(shift) == top * d by { Pow2Add(128, shift - 128); }
    if shift >= 256 {
      Pow2Mono(128, shift - 128);
    }
    ShiftHigh(hi, lo, top, d, Pow2(shift));
  }

  /** The low-128-bit cut never bites when the product fits in `128 + shift` bits. */
  lemma MulShrExact(a: u128, b: u128, shift: nat)
    requires a * b < Pow2(128 + shift)
    ensures MulShr(a, b, shift) == a * b / Pow2(shift)
  {
    var p, top, q := a * b, Pow2(128), a * b / Pow2(shift);
    assert top == U128_MAX + 1 by { Pow2Wide(); }
    Pow2Add(128, shift);
    DivGe(p, Pow2(shift), top);
    DivModOf(0, q, top);
  }
}

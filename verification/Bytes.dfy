/** Byte strings and fixed-width integers in both byte orders. */
module Bytes {
  import opened Outcome
  import opened Bits

  type Bytes = seq<u8>

  function Zeros(n: nat): (s: Bytes)
    ensures |s| == n
  {
    seq(n, _ => 0)
  }

  type Pubkey = s: Bytes | |s| == 32 witness Zeros(32)

  function FromLE(s: Bytes): nat {
    if s == [] then 0 else s[0] + 0x100 * FromLE(s[1..])
  }

  function ToLE(x: nat, n: nat): (s: Bytes)
    ensures |s| == n
  {
    if n == 0 then [] else [x % 0x100] + ToLE(x / 0x100, n - 1)
  }

  function FromBE(s: Bytes): nat {
    if s == [] then 0 else FromBE(s[..|s| - 1]) * 0x100 + s[|s| - 1]
  }

  function ToBE(x: nat, n: nat): (s: Bytes)
    ensures |s| == n
  {
    if n == 0 then [] else ToBE(x / 0x100, n - 1) + [x % 0x100]
  }

  /** One past the largest `n`-byte value. */
  function Span(n: nat): (p: nat)
    ensures p > 0
  {
    if n == 0 then 1 else 0x100 * Span(n - 1)
  }

  lemma Spans()
    ensures Span(1) == 0x100 && Span(2) == 0x1_0000 && Span(4) == 0x1_0000_0000
    ensures Span(8) == 0x1_0000_0000_0000_0000
  {
    assert Span(1) == 0x100;
    assert Span(2) == 0x1_0000;
    assert Span(3) == 0x100_0000;
    assert Span(4) == 0x1_0000_0000;
    assert Span(5) == 0x100_0000_0000;
    assert Span(6) == 0x1_0000_0000_0000;
    assert Span(7) == 0x100_0000_0000_0000;
  }

  lemma {:induction false} FromLEBound(s: Bytes)
    ensures FromLE(s) < Span(|s|)
  {
    if s != [] {
      FromLEBound(s[1..]);
    }
  }

  lemma {:induction false} FromBEBound(s: Bytes)
    ensures FromBE(s) < Span(|s|)
  {
    if s != [] {
      FromBEBound(s[..|s| - 1]);
    }
  }

  lemma {:induction false} FromToLE(x: nat, n: nat)
    requires x < Span(n)
    ensures FromLE(ToLE(x, n)) == x
  {
    if n > 0 {
      FromToLE(x / 0x100, n - 1);
      assert ToLE(x, n)[1..] == ToLE(x / 0x100, n - 1);
    }
  }

  lemma {:induction false} ToFromLE(s: Bytes)
    ensures ToLE(FromLE(s), |s|) == s
  {
    if s != [] {
      ToFromLE(s[1..]);
      assert FromLE(s) / 0x100 == FromLE(s[1..]) && FromLE(s) % 0x100 == s[0];
    }
  }

  lemma {:induction false} FromToBE(x: nat, n: nat)
    requires x < Span(n)
    ensures FromBE(ToBE(x, n)) == x
  {
    if n > 0 {
      FromToBE(x / 0x100, n - 1);
      assert ToBE(x, n)[..n - 1] == ToBE(x / 0x100, n - 1);
    }
  }

  lemma {:induction false} ToFromBE(s: Bytes)
    ensures ToBE(FromBE(s), |s|) == s
  {
    if s != [] {
      ToFromBE(s[..|s| - 1]);
      assert FromBE(s) / 0x100 == FromBE(s[..|s| - 1]) && FromBE(s) % 0x100 == s[|s| - 1];
      assert s == s[..|s| - 1] + [s[|s| - 1]];
    }
  }

  /** Byte `i` of either form is the digit base 256 of its place. */
  lemma {:induction false} Digits(x: nat, n: nat, i: nat)
    requires i < n
    ensures ToLE(x, n)[i] == x / Span(i) % 0x100
    ensures ToBE(x, n)[n - 1 - i] == x / Span(i) % 0x100
    decreases n
  {
    if i > 0 {
      Digits(x / 0x100, n - 1, i - 1);
      DivDiv(x, 0x100, Span(i - 1));
    }
  }

  // ---- two's complement ----

  function ToI32(x: u32): i32 {
    if x < 0x8000_0000 then x else x - 0x1_0000_0000
  }

  function FromI32(x: i32): u32 {
    if x >= 0 then x else x + 0x1_0000_0000
  }

  function ToI64(x: u64): i64 {
    if x < 0x8000_0000_0000_0000 then x else x - 0x1_0000_0000_0000_0000
  }

  function FromI64(x: i64): u64 {
    if x >= 0 then x else x + 0x1_0000_0000_0000_0000
  }

  /** A signed number and its unsigned form differ by a multiple of the width, both ways. */
  lemma TwosComplement(x: i32, y: i64)
    ensures (FromI32(x) - x) % 0x1_0000_0000 == 0 && ToI32(FromI32(x)) == x
    ensures (FromI64(y) - y) % 0x1_0000_0000_0000_0000 == 0 && ToI64(FromI64(y)) == y
  {
  }

  // ---- little-endian reads at an offset ----

  function U16At(data: Bytes, i: nat): u16
    requires i + 2 <= |data|
  {
    Spans();
    FromLEBound(data[i..i + 2]);
    FromLE(data[i..i + 2])
  }

  function U32At(data: Bytes, i: nat): u32
    requires i + 4 <= |data|
  {
    Spans();
    FromLEBound(data[i..i + 4]);
    FromLE(data[i..i + 4])
  }

  function I32At(data: Bytes, i: nat): i32
    requires i + 4 <= |data|
  {
    ToI32(U32At(data, i))
  }

  function U64At(data: Bytes, i: nat): u64
    requires i + 8 <= |data|
  {
    Spans();
    FromLEBound(data[i..i + 8]);
    FromLE(data[i..i + 8])
  }

  // ---- big-endian reads of a whole string ----

  function BE16(s: Bytes): u16
    requires |s| == 2
  {
    Spans();
    FromBEBound(s);
    FromBE(s)
  }

  function BE32(s: Bytes): u32
    requires |s| == 4
  {
    Spans();
    FromBEBound(s);
    FromBE(s)
  }

  function BE64(s: Bytes): u64
    requires |s| == 8
  {
    Spans();
    FromBEBound(s);
    FromBE(s)
  }

  // ---- in-place writes ----

  /** `out.set(bytes, at)` and the `DataView` setters. */
  method WriteAt(out: array<u8>, at: nat, bytes: Bytes)
    requires at + |bytes| <= out.Length
    modifies out
    ensures out[..at + |bytes|] == old(out[..at]) + bytes
    ensures out[at + |bytes|..] == old(out[at + |bytes|..])
  {
    for i := 0 to |bytes|
      invariant out[..at] == old(out[..at]) && out[at + |bytes|..] == old(out[at + |bytes|..])
      invariant out[at..at + i] == bytes[..i]
    {
      out[at + i] := bytes[i];
    }
    assert out[..at + |bytes|] == out[..at] + out[at..at + |bytes|];
  }
}

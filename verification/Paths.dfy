/** Tree paths as bit strings, and the byte operations of the source that work on them. */
module Paths {
  import opened Prelude
  import opened Crypto

  const DEPTH := 256

  type Path = p: seq<bool> | |p| == DEPTH witness seq(DEPTH, _ => false)

  function Zeros(n: nat): seq<bool> { seq(n, _ => false) }

  function Flip(p: Path, i: nat): Path
    requires i < DEPTH
  {
    p[i := !p[i]]
  }

  function Mask(p: Path, depth: nat): Path {
    if depth >= DEPTH then p else p[..depth] + Zeros(DEPTH - depth)
  }

  // ---------------------------------------------------------------- bits of a byte

  /** The low `n` bits of `b`, most significant first. */
  ghost function BitsOf(b: nat, n: nat): (s: seq<bool>)
    ensures |s| == n
  {
    if n == 0 then [] else BitsOf(b / 2, n - 1) + [b % 2 == 1]
  }

  predicate BitAt(b: nat, shift: nat) { b / Pow2(shift) % 2 == 1 }

  function ToggleBit(b: nat, shift: nat): int {
    if BitAt(b, shift) then b - Pow2(shift) else b + Pow2(shift)
  }

  function ClearLow(b: nat, n: nat): int { b - b % Pow2(n) }

  lemma HalfThenDivide(b: nat, p: nat)
    requires p >= 1
    ensures b / 2 / p == b / (2 * p) && b % (2 * p) == 2 * (b / 2 % p) + b % 2
  {
    var q, r := b / 2 / p, 2 * (b / 2 % p) + b % 2;
    assert b / 2 == p * q + b / 2 % p;
    assert b == (2 * p) * q + r && 0 <= r < 2 * p;
    DivModUnique(b, 2 * p, q, r);
  }

  lemma DivModUnique(b: nat, d: nat, q: nat, r: nat)
    requires d >= 1 && b == d * q + r && r < d
    ensures b / d == q && b % d == r
  {
    var q' := b / d;
    assert b == d * q' + b % d;
    if q > q' {
      Spread(d, q, q');
    } else if q < q' {
      Spread(d, q', q);
    }
  }

  lemma {:induction false} Spread(d: nat, more: nat, fewer: nat)
    requires more > fewer
    ensures d * more >= d * fewer + d
  {
    assert d * more == d * (more - 1) + d;
    if more - 1 > fewer { Spread(d, more - 1, fewer); }
  }

  lemma {:induction false} BitsOfAt(b: nat, n: nat, shift: nat)
    requires shift < n
    ensures BitsOf(b, n)[n - 1 - shift] == BitAt(b, shift)
  {
    if shift > 0 {
      BitsOfAt(b / 2, n - 1, shift - 1);
      HalfThenDivide(b, Pow2(shift - 1));
    }
  }

  lemma {:induction false} BitsOfInjective(a: nat, b: nat, n: nat)
    requires a < Pow2(n) && b < Pow2(n) && BitsOf(a, n) == BitsOf(b, n)
    ensures a == b
  {
    if n > 0 {
      assert BitsOf(a, n)[..n - 1] == BitsOf(a / 2, n - 1) && BitsOf(b, n)[..n - 1] == BitsOf(b / 2, n - 1);
      assert BitsOf(a, n)[n - 1] == (a % 2 == 1) && BitsOf(b, n)[n - 1] == (b % 2 == 1);
      BitsOfInjective(a / 2, b / 2, n - 1);
    }
  }

  lemma ToggleHalves(b: nat, shift: nat)
    ensures shift == 0 ==> ToggleBit(b, shift) / 2 == b / 2 && ToggleBit(b, shift) % 2 == 1 - b % 2
    ensures shift > 0 ==> ToggleBit(b, shift) / 2 == ToggleBit(b / 2, shift - 1) && ToggleBit(b, shift) % 2 == b % 2
    ensures ToggleBit(b, shift) >= 0
  {
    if shift == 0 {
      assert Pow2(0) == 1;
    } else {
      HalfThenDivide(b, Pow2(shift - 1));
      ToggleHalves(b / 2, shift - 1);
    }
  }

  lemma {:induction false} ToggledBits(b: nat, n: nat, shift: nat)
    requires shift < n && b < Pow2(n)
    ensures 0 <= ToggleBit(b, shift) < Pow2(n)
    ensures BitsOf(ToggleBit(b, shift), n) == BitsOf(b, n)[n - 1 - shift := !BitsOf(b, n)[n - 1 - shift]]
  {
    hide ToggleBit;
    ToggleHalves(b, shift);
    if shift > 0 { ToggledBits(b / 2, n - 1, shift - 1); }
  }

  lemma ClearHalves(b: nat, low: nat)
    ensures low == 0 ==> ClearLow(b, low) == b
    ensures low > 0 ==> ClearLow(b, low) == 2 * ClearLow(b / 2, low - 1)
    ensures 0 <= ClearLow(b, low) <= b
  {
    if low == 0 {
      assert Pow2(0) == 1;
    } else {
      HalfThenDivide(b, Pow2(low - 1));
    }
    DivModFacts(b, Pow2(low));
  }

  lemma DivModFacts(b: nat, d: nat)
    requires d >= 1
    ensures 0 <= b % d <= b
  {
    if b < d { DivModUnique(b, d, 0, b); }
  }

  lemma {:induction false} ClearedBits(b: nat, n: nat, low: nat)
    requires low <= n && b < Pow2(n)
    ensures 0 <= ClearLow(b, low) < Pow2(n)
    ensures BitsOf(ClearLow(b, low), n) == BitsOf(b, n)[..n - low] + Zeros(low)
  {
    hide ClearLow;
    ClearHalves(b, low);
    if low > 0 { ClearedBits(b / 2, n - 1, low - 1); }
  }

  // ---------------------------------------------------------------- bits of a hash

  function Bit(d: Hash, i: nat): bool
    requires i < DEPTH
  {
    BitAt(d[i / 8], 7 - i % 8)
  }

  /** The bits of a hash, most significant first. */
  function Bits(d: Hash): Path {
    seq(DEPTH, i requires 0 <= i < DEPTH => Bit(d, i))
  }

  lemma InByte(k: nat, j: nat)
    requires j < 8
    ensures (8 * k + j) / 8 == k && (8 * k + j) % 8 == j
  {
  }

  lemma ByteOfBits(d: Hash, k: nat)
    requires k < 32
    ensures Bits(d)[8 * k..8 * k + 8] == BitsOf(d[k], 8)
  {
    hide BitsOf, BitAt;
    forall j | 0 <= j < 8 ensures Bits(d)[8 * k + j] == BitsOf(d[k], 8)[j] {
      InByte(k, j);
      BitsOfAt(d[k], 8, 7 - j);
    }
  }

  /** A path determines its hash. */
  lemma BitsInjective(a: Hash, b: Hash)
    requires Bits(a) == Bits(b)
    ensures a == b
  {
    forall k | 0 <= k < 32 ensures a[k] == b[k] {
      ByteOfBits(a, k);
      ByteOfBits(b, k);
      assert Pow2(8) == 256;
      BitsOfInjective(a[k], b[k], 8);
    }
  }

  /** Flips one bit in place: the byte that holds it is exclusive-ored. */
  method FlipBytes(d: Hash, i: nat) returns (r: Hash)
    requires i < DEPTH
    ensures Bits(r) == Flip(Bits(d), i)
  {
    hide BitAt, BitsOf, ToggleBit;
    var byte, shift := i / 8, 7 - i % 8;
    assert Pow2(8) == 256;
    ToggledBits(d[byte], 8, shift);
    r := d[byte := ToggleBit(d[byte], shift)];
    forall j | 0 <= j < DEPTH ensures Bits(r)[j] == Flip(Bits(d), i)[j] {
      if j / 8 == byte {
        BitsOfAt(r[byte], 8, 7 - j % 8);
        BitsOfAt(d[byte], 8, 7 - j % 8);
      }
    }
  }

  /** Zeroes every bit from `depth` on: the whole bytes one by one, then the low bits of the byte `depth` falls in. */
  method MaskBytes(d: Hash, depth: nat) returns (r: Hash)
    requires depth <= DEPTH
    ensures Bits(r) == Mask(Bits(d), depth)
  {
    var full, rem := depth / 8, depth % 8;
    var zeroFrom := if rem == 0 then full else full + 1;
    r := d;
    var k := zeroFrom;
    while k < 32
      invariant zeroFrom <= k <= 32 || k == zeroFrom
      invariant forall j :: 0 <= j < 32 ==> r[j] == if zeroFrom <= j < k then 0 else d[j]
    {
      r := r[k := 0];
      k := k + 1;
    }
    if rem != 0 {
      assert Pow2(8) == 256;
      ClearedBits(d[full], 8, 8 - rem);
      r := r[full := ClearLow(r[full], 8 - rem)];
    }
    forall j | 0 <= j < DEPTH ensures Bits(r)[j] == Mask(Bits(d), depth)[j] { MaskedBit(d, r, depth, j); }
  }

  /** Byte `k` of a masked hash. */
  function MaskedByte(b: Byte, depth: nat, k: nat): int {
    if k < depth / 8 then b else if k == depth / 8 && depth % 8 != 0 then ClearLow(b, 8 - depth % 8) else 0
  }

  lemma MaskedBit(d: Hash, r: Hash, depth: nat, j: nat)
    requires depth <= DEPTH && j < DEPTH
    requires forall k :: 0 <= k < 32 ==> r[k] == MaskedByte(d[k], depth, k)
    ensures Bit(r, j) == (j < depth && Bit(d, j))
  {
    hide BitsOf, ClearLow;
    var byte, shift := j / 8, 7 - j % 8;
    if byte == depth / 8 && depth % 8 != 0 {
      assert Pow2(8) == 256;
      ClearedBits(d[byte], 8, 8 - depth % 8);
      BitsOfAt(r[byte], 8, shift);
      BitsOfAt(d[byte], 8, shift);
    } else if byte >= depth / 8 {
      assert r[byte] == 0;
    }
  }
}

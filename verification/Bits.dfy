/**
 * Bit strings, most significant bit first, and the natural numbers they denote.
 * Machine shifts are recursive functions, so that every proof about a shift register is linear.
 */
module Bits {

  type Byte = x: int | 0 <= x < 256

  function Pow2(n: nat): (p: nat)
    ensures p >= 1
  {
    if n == 0 then 1 else 2 * Pow2(n - 1)
  }

  /** n << k */
  function Shl(n: nat, k: nat): nat {
    if k == 0 then n else 2 * Shl(n, k - 1)
  }

  /** n >> k */
  function Shr(n: nat, k: nat): nat {
    if k == 0 then n else Shr(n / 2, k - 1)
  }

  /** The low k bits of n: truncation to a k-bit register. */
  function Low(n: nat, k: nat): nat {
    if k == 0 then 0 else 2 * Low(n / 2, k - 1) + n % 2
  }

  /** n ^ m */
  function Xor(n: nat, m: nat): nat {
    if n == 0 && m == 0 then 0 else 2 * Xor(n / 2, m / 2) + (n + m) % 2
  }

  function ToNat(b: seq<bool>): nat {
    if b == [] then 0 else 2 * ToNat(b[..|b| - 1]) + if b[|b| - 1] then 1 else 0
  }

  function OfNat(n: nat, w: nat): (b: seq<bool>)
    ensures |b| == w
  {
    if w == 0 then [] else OfNat(n / 2, w - 1) + [n % 2 == 1]
  }

  function Zeros(n: nat): (b: seq<bool>)
    ensures |b| == n
  {
    seq(n, _ => false)
  }

  function Ones(n: nat): (b: seq<bool>)
    ensures |b| == n
  {
    seq(n, _ => true)
  }

  lemma {:induction false} XorBound(n: nat, m: nat, k: nat)
    requires n < Pow2(k) && m < Pow2(k)
    ensures Xor(n, m) < Pow2(k)
  {
    if k > 0 && (n != 0 || m != 0) {
      XorBound(n / 2, m / 2, k - 1);
    }
  }

  lemma {:induction false} ShlBound(n: nat, k: nat, w: nat)
    requires n < Pow2(w)
    ensures Shl(n, k) < Pow2(w + k)
  {
    if k > 0 {
      ShlBound(n, k - 1, w);
    }
  }

  lemma {:induction false} Pow2Monotone(j: nat, k: nat)
    requires j <= k
    ensures Pow2(j) <= Pow2(k)
  {
    if j < k {
      Pow2Monotone(j, k - 1);
    }
  }

  lemma {:induction false} ToNatBound(b: seq<bool>)
    ensures ToNat(b) < Pow2(|b|)
  {
    if b != [] {
      ToNatBound(b[..|b| - 1]);
    }
  }

  lemma {:induction false} ToNatOfNat(n: nat, w: nat)
    requires n < Pow2(w)
    ensures ToNat(OfNat(n, w)) == n
  {
    if w > 0 {
      ToNatOfNat(n / 2, w - 1);
      assert OfNat(n, w)[..w - 1] == OfNat(n / 2, w - 1);
    }
  }

  lemma {:induction false} OfNatToNat(b: seq<bool>)
    ensures OfNat(ToNat(b), |b|) == b
  {
    if b != [] {
      OfNatToNat(b[..|b| - 1]);
    }
  }

  lemma {:induction false} ToNatConcat(a: seq<bool>, b: seq<bool>)
    ensures ToNat(a + b) == Shl(ToNat(a), |b|) + ToNat(b)
  {
    if b == [] {
      assert a + b == a;
    } else {
      assert (a + b)[..|a + b| - 1] == a + b[..|b| - 1];
      ToNatConcat(a, b[..|b| - 1]);
    }
  }

  lemma {:induction false} ToNatZeros(n: nat)
    ensures ToNat(Zeros(n)) == 0
  {
    if n > 0 {
      assert Zeros(n)[..n - 1] == Zeros(n - 1);
      ToNatZeros(n - 1);
    }
  }

  lemma {:induction false} ShrToNat(w: seq<bool>, k: nat)
    requires k <= |w|
    ensures Shr(ToNat(w), k) == ToNat(w[..|w| - k])
  {
    if k == 0 {
      assert w[..|w|] == w;
    } else {
      var v := w[..|w| - 1];
      ShrToNat(v, k - 1);
      assert v[..|v| - (k - 1)] == w[..|w| - k];
    }
  }

  lemma {:induction false} LowToNat(w: seq<bool>, k: nat)
    requires k <= |w|
    ensures Low(ToNat(w), k) == ToNat(w[|w| - k..])
  {
    if k > 0 {
      var v := w[..|w| - 1];
      LowToNat(v, k - 1);
      assert ToNat(w) / 2 == ToNat(v) && (ToNat(w) % 2 == 1 <==> w[|w| - 1]);
      var s := w[|w| - k..];
      assert s[..k - 1] == v[|v| - (k - 1)..] && s[k - 1] == w[|w| - 1];
    }
  }

  /** A left shift in a fixed-width register drops the top bits. */
  lemma ShiftLeft(w: seq<bool>, k: nat)
    requires k <= |w|
    ensures Low(Shl(ToNat(w), k), |w|) == ToNat(w[k..] + Zeros(k))
  {
    hide Shl, Low, ToNat;
    var v := w + Zeros(k);
    assert |v| - |w| == k;
    ToNatConcat(w, Zeros(k));
    ToNatZeros(k);
    LowToNat(v, |w|);
    assert v[k..] == w[k..] + Zeros(k);
  }

  /**
   * Or-ing a field into the cleared low end of a register appends the field to the bits in use.
   * The target bits are zero, so the sum below is the source's bitwise or.
   */
  lemma OrField(used: seq<bool>, field: seq<bool>, free: nat)
    requires |field| <= free
    ensures ToNat(used + Zeros(free)) + Shl(ToNat(field), free - |field|)
         == ToNat(used + field + Zeros(free - |field|))
  {
    var rest := free - |field|;
    ToNatConcat(used, Zeros(free));
    ToNatConcat(used + field, Zeros(rest));
    ToNatConcat(used, field);
    ToNatZeros(free);
    ToNatZeros(rest);
    ShlTwice(ToNat(used), |field|, rest);
    ShlSum(Shl(ToNat(used), |field|), ToNat(field), rest);
  }

  lemma {:induction false} ShlTwice(n: nat, j: nat, k: nat)
    ensures Shl(n, j + k) == Shl(Shl(n, j), k)
  {
    if k > 0 {
      ShlTwice(n, j, k - 1);
    }
  }

  lemma {:induction false} ShlSum(m: nat, n: nat, k: nat)
    ensures Shl(m + n, k) == Shl(m, k) + Shl(n, k)
  {
    if k > 0 {
      ShlSum(m, n, k - 1);
    }
  }

  // ----- bytes -----

  function ByteBits(b: Byte): (r: seq<bool>)
    ensures |r| == 8
  {
    OfNat(b, 8)
  }

  function BytesToBits(s: seq<Byte>): (r: seq<bool>)
    ensures |r| == 8 * |s|
  {
    if s == [] then [] else BytesToBits(s[..|s| - 1]) + ByteBits(s[|s| - 1])
  }

  lemma {:induction false} BytesToBitsConcat(a: seq<Byte>, b: seq<Byte>)
    ensures BytesToBits(a + b) == BytesToBits(a) + BytesToBits(b)
  {
    if b == [] {
      assert a + b == a;
    } else {
      assert (a + b)[..|a + b| - 1] == a + b[..|b| - 1];
      BytesToBitsConcat(a, b[..|b| - 1]);
    }
  }

  /** The bytes of a bit string of whole bytes. */
  ghost function Pack(b: seq<bool>): (s: seq<Byte>)
    requires |b| % 8 == 0
    ensures |s| == |b| / 8 && BytesToBits(s) == b
  {
    if b == [] then []
    else
      var lo := b[|b| - 8..];
      ToNatBound(lo);
      OfNatToNat(lo);
      assert Pow2(8) == 256;
      Pack(b[..|b| - 8]) + [ToNat(lo)]
  }

  lemma {:induction false} PackUnique(s: seq<Byte>)
    ensures Pack(BytesToBits(s)) == s
  {
    if s != [] {
      var t, c := s[..|s| - 1], s[|s| - 1];
      assert BytesToBits(s) == BytesToBits(t) + ByteBits(c);
      PackUnique(t);
      hide Pack, ByteBits, BytesToBits;
      LastByte(BytesToBits(t), c);
      assert s == t + [c];
    }
  }

  lemma LastByte(b: seq<bool>, c: Byte)
    requires |b| % 8 == 0
    ensures Pack(b + ByteBits(c)) == Pack(b) + [c]
  {
    var d := b + ByteBits(c);
    assert d[|d| - 8..] == ByteBits(c) && d[..|d| - 8] == b;
    assert Pow2(8) == 256;
    ToNatOfNat(c, 8);
  }

  // ----- fields of numbers -----

  lemma {:induction false} SplitBits(n: nat, w: nat, k: nat)
    ensures OfNat(n, w + k) == OfNat(Shr(n, k), w) + OfNat(n, k)
    decreases k
  {
    if k == 0 {
      assert OfNat(n, 0) == [];
    } else {
      SplitBits(n / 2, w, k - 1);
    }
  }

  lemma ShiftByte(n: nat)
    ensures Shr(n, 4) == n / 0x10 && Shr(n, 8) == n / 0x100
  {
    ShiftNibble(n, 0);
    ShiftNibble(n, 4);
    ShiftNibble(n / 0x10, 0);
    assert Shr(n / 0x10, 4) == Shr(n / 0x10 / 0x10, 0);
  }

  lemma ShiftNibble(n: nat, k: nat)
    ensures Shr(n, k + 4) == Shr(n / 0x10, k)
  {
    var a, b, c := n / 2, n / 4, n / 8;
    assert Shr(n, k + 4) == Shr(a, k + 3);
    assert Shr(a, k + 3) == Shr(b, k + 2);
    assert Shr(b, k + 2) == Shr(c, k + 1);
    assert Shr(c, k + 1) == Shr(c / 2, k);
  }

  /** Bits beyond the field do not matter. */
  lemma {:induction false} FieldBits(n: nat, m: nat, w: nat)
    requires n % Pow2(w) == m % Pow2(w)
    ensures OfNat(n, w) == OfNat(m, w)
  {
    if w > 0 {
      HalfOfField(n, m, Pow2(w - 1));
      FieldBits(n / 2, m / 2, w - 1);
    }
  }

  lemma HalfOfField(n: nat, m: nat, p: nat)
    requires p > 0 && n % (2 * p) == m % (2 * p)
    ensures n % 2 == m % 2 && n / 2 % p == m / 2 % p
  {
    var q, r, s := n / (2 * p), m / (2 * p), n % (2 * p);
    assert n == 2 * (p * q) + s && m == 2 * (p * r) + s;
    assert n / 2 == p * q + s / 2 && m / 2 == p * r + s / 2 && s / 2 < p;
    Residue(n / 2, p, q, s / 2);
    Residue(m / 2, p, r, s / 2);
  }

  lemma Residue(n: nat, p: nat, q: nat, s: nat)
    requires n == p * q + s && s < p
    ensures n % p == s
  {
    var a, b := n / p, n % p;
    assert n == p * a + b;
    if a > q {
      MulAtLeast(p, a - q);
    } else if a < q {
      MulAtLeast(p, q - a);
    }
  }

  lemma MulAtLeast(p: nat, k: nat)
    requires k > 0
    ensures p * k >= p
  {
  }

  lemma LowByte(n: nat)
    ensures OfNat(n % 0x100, 8) == OfNat(n, 8)
  {
    assert Pow2(8) == 0x100;
    FieldBits(n % 0x100, n, 8);
  }
}

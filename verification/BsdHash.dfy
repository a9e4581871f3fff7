/** Where the strings of BSD-Compress are looked for: the hash of a code and a byte, and the probes from there on. */
module BsdHash {
  import opened Bits
  import opened BsdTables
  import opened BsdProbing

  lemma XorBits(n: nat, m: nat)
    ensures Xor(n, m) % 2 == (n + m) % 2 && Xor(n, m) / 2 == Xor(n / 2, m / 2)
  {
    XorStep(n, m);
    hide Xor;
    Halves(Xor(n, m), Xor(n / 2, m / 2), (n + m) % 2);
  }

  lemma XorStep(n: nat, m: nat)
    ensures Xor(n, m) == 2 * Xor(n / 2, m / 2) + (n + m) % 2
  {
    if n == 0 && m == 0 {
      assert n / 2 == 0 && m / 2 == 0;
    }
  }

  lemma Halves(n: nat, half: nat, bit: nat)
    requires n == 2 * half + bit && bit < 2
    ensures n / 2 == half && n % 2 == bit
  {
  }

  lemma FromHalves(n: nat, m: nat)
    requires n / 2 == m / 2 && n % 2 == m % 2
    ensures n == m
  {
  }

  lemma OddTwice(x: nat, n: nat, m: nat)
    requires x % 2 == (n + m) % 2
    ensures (x + m) % 2 == n % 2
  {
  }

  lemma {:induction false} XorTwice(n: nat, m: nat)
    ensures Xor(Xor(n, m), m) == n
    decreases n + m
  {
    if n != 0 || m != 0 {
      hide Xor;
      XorBits(n, m);
      XorTwice(n / 2, m / 2);
      Twice(Xor(n, m), n, m);
    }
  }

  lemma Twice(x: nat, n: nat, m: nat)
    requires x % 2 == (n + m) % 2 && Xor(x / 2, m / 2) == n / 2
    ensures Xor(x, m) == n
  {
    hide Xor;
    XorBits(x, m);
    OddTwice(x, n, m);
    FromHalves(Xor(x, m), n);
  }

  /** The byte is shifted as far as the table allows, and the code is laid over it: bit by bit, their sum modulo 2. */
  lemma HashIs(cfg: Config, prefix: nat, suffix: Byte)
    requires ValidConfig(cfg)
    ensures Xor(Hash(cfg, prefix, suffix), prefix) ==
      suffix * (if cfg.maxBits <= 12 then 16 else if cfg.maxBits == 13 then 32 else if cfg.maxBits == 14 then 64
        else 128)
    ensures Pow2(8 + cfg.hshift) <= cfg.hsize < Pow2(9 + cfg.hshift)
  {
    XorTwice(Shl(suffix, cfg.hshift), prefix);
    ShiftTable(suffix);
    hide Xor, Shl;
    PowerTable();
  }

  lemma ShiftTable(n: nat)
    ensures Shl(n, 4) == n * 16 && Shl(n, 5) == n * 32 && Shl(n, 6) == n * 64 && Shl(n, 7) == n * 128
  {
    assert Shl(n, 1) == 2 * Shl(n, 0) && Shl(n, 2) == 2 * Shl(n, 1) && Shl(n, 3) == 2 * Shl(n, 2);
    assert Shl(n, 4) == 2 * Shl(n, 3) && Shl(n, 5) == 2 * Shl(n, 4) && Shl(n, 6) == 2 * Shl(n, 5) &&
      Shl(n, 7) == 2 * Shl(n, 6);
  }

  lemma PowerTable()
    ensures Pow2(12) == 4096 && Pow2(13) == 8192 && Pow2(14) == 16384 && Pow2(15) == 32768 && Pow2(16) == 65536
  {
  }

  /** Two bytes after the same code are never looked for in the same slot first. */
  lemma SiblingsApart(cfg: Config, prefix: nat, a: Byte, b: Byte)
    requires ValidConfig(cfg) && Hash(cfg, prefix, a) == Hash(cfg, prefix, b)
    ensures a == b
  {
    HashIs(cfg, prefix, a);
    HashIs(cfg, prefix, b);
  }

  /** Probe j is j hash values further on, or j slots for hash 0, round the table. */
  lemma ProbesAre(h: nat, j: nat, p: nat)
    requires h < p && 1 < p
    ensures ProbeAt(h, j, p) == if h == 0 then j % p else ((j + 1) * h) % p
  {
    var q := ProbeQuotient(h, j, p);
    RemainderUnique(h + j * Step(h), p, q, ProbeAt(h, j, p));
    assert h > 0 ==> (j + 1) * h == h + j * Step(h);
    hide ProbeAt;
  }
}

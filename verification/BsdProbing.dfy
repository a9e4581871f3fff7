/**
 * Every hash table size in use is prime, so a probe sequence visits every slot; live codes are fewer than slots,
 * so every search ends at a dead slot or at its key.
 */
module BsdProbing {
  import opened Bits
  import opened BsdTables

  ghost predicate Prime(p: nat) {
    p > 1 && forall k :: 1 < k < p ==> p % k != 0
  }

  /** None of the sixteen numbers from k on divides p. */
  predicate NoDivisor(p: nat, k: nat)
    requires k > 0
  {
    p % k != 0 && p % (k + 1) != 0 && p % (k + 2) != 0 && p % (k + 3) != 0 &&
    p % (k + 4) != 0 && p % (k + 5) != 0 && p % (k + 6) != 0 && p % (k + 7) != 0 &&
    p % (k + 8) != 0 && p % (k + 9) != 0 && p % (k + 10) != 0 && p % (k + 11) != 0 &&
    p % (k + 12) != 0 && p % (k + 13) != 0 && p % (k + 14) != 0 && p % (k + 15) != 0
  }

  lemma NotADivisor(p: nat, r: nat, d: nat)
    requires r % 16 == 2 && 2 <= d < r
    requires forall b :: 0 <= b < (r - 2) / 16 ==> NoDivisor(p, 2 + 16 * b)
    ensures p % d != 0
  {
    var b := (d - 2) / 16;
    assert NoDivisor(p, 2 + 16 * b);
    assert d == 2 + 16 * b + (d - 2) % 16;
  }

  /** Trial division up to the square root decides primality. */
  lemma TrialDivision(p: nat, r: nat)
    requires p > 1 && p < r * r && r % 16 == 2
    requires forall b :: 0 <= b < (r - 2) / 16 ==> NoDivisor(p, 2 + 16 * b)
    ensures Prime(p)
  {
    forall k | 1 < k < p
      ensures p % k != 0
    {
      if p % k == 0 {
        var q := p / k;
        assert p == k * q;
        SmallFactor(k, q, r);
        ProductDivides(k, q);
        NotADivisor(p, r, if k < r then k else q);
        assert false;
      }
    }
  }

  lemma SmallFactor(k: nat, q: nat, r: nat)
    requires k * q < r * r && 0 < k < k * q
    ensures q > 1 && (k < r || q < r)
  {
    if k >= r && q >= r {
      MulMonotone(r, k, r);
      MulMonotone(r, q, k);
    }
  }

  lemma MulMonotone(a: nat, b: nat, c: nat)
    requires a <= b
    ensures a * c <= b * c && c * a <= c * b
  {
  }

  lemma ProductDivides(k: nat, q: nat)
    requires k > 0 && q > 0
    ensures (k * q) % k == 0 && (k * q) % q == 0
  {
    RemainderUnique(k * q, k, q, 0);
    RemainderUnique(k * q, q, k, 0);
  }

  lemma RemainderUnique(n: int, d: nat, q: int, r: nat)
    requires n == d * q + r && r < d
    ensures n % d == r
  {
    var q', r' := n / d, n % d;
    assert d * (q' - q) == r - r';
    if q' > q {
      MulMonotone(1, q' - q, d);
    } else if q' < q {
      MulMonotone(1, q - q', d);
    }
  }

  lemma Prime5003()
    ensures Prime(5003)
  {
    assert NoDivisor(5003, 2) && NoDivisor(5003, 18) && NoDivisor(5003, 34) && NoDivisor(5003, 50) &&
      NoDivisor(5003, 66);
    TrialDivision(5003, 82);
  }

  lemma Prime9001()
    ensures Prime(9001)
  {
    assert NoDivisor(9001, 2) && NoDivisor(9001, 18) && NoDivisor(9001, 34) && NoDivisor(9001, 50) &&
      NoDivisor(9001, 66) && NoDivisor(9001, 82);
    TrialDivision(9001, 98);
  }

  lemma Trials18013From2()
    ensures NoDivisor(18013, 2) && NoDivisor(18013, 18) && NoDivisor(18013, 34) && NoDivisor(18013, 50)
  {
  }

  lemma Trials18013From66()
    ensures NoDivisor(18013, 66) && NoDivisor(18013, 82) && NoDivisor(18013, 98) && NoDivisor(18013, 114)
  {
  }

  lemma Trials18013From130()
    ensures NoDivisor(18013, 130)
  {
  }

  lemma Prime18013()
    ensures Prime(18013)
  {
    Trials18013From2();
    Trials18013From66();
    Trials18013From130();
    TrialDivision(18013, 146);
  }

  lemma Trials35023From2()
    ensures NoDivisor(35023, 2) && NoDivisor(35023, 18) && NoDivisor(35023, 34) && NoDivisor(35023, 50)
  {
  }

  lemma Trials35023From66()
    ensures NoDivisor(35023, 66) && NoDivisor(35023, 82) && NoDivisor(35023, 98) && NoDivisor(35023, 114)
  {
  }

  lemma Trials35023From130()
    ensures NoDivisor(35023, 130) && NoDivisor(35023, 146) && NoDivisor(35023, 162) && NoDivisor(35023, 178)
  {
  }

  lemma Prime35023()
    ensures Prime(35023)
  {
    Trials35023From2();
    Trials35023From66();
    Trials35023From130();
    TrialDivision(35023, 194);
  }

  lemma SizesArePrime(cfg: Config)
    requires ValidConfig(cfg)
    ensures Prime(cfg.hsize) && cfg.MaxMaxCode() < cfg.hsize
  {
    ConfigFacts(cfg);
    Prime5003();
    Prime9001();
    Prime18013();
    Prime35023();
  }

  // ----- a probe sequence visits every slot -----

  /** No multiple of a nonzero step below the prime is a multiple of the prime. */
  lemma {:induction false} NotAMultiple(p: nat, step: nat, k: nat, q: int)
    requires Prime(p) && 0 < step < p && 0 < k < p
    ensures k * step != q * p
    decreases k
  {
    if k == 1 {
      MulSign(q, p);
    } else if k * step == q * p {
      var m, r := p / k, p % k;
      assert p == m * k + r && 0 < r < k;
      Remainder(p, step, k, q, m, r);
      NotAMultiple(p, step, r, step - m * q);
      assert false;
    }
  }

  lemma MulSign(q: int, p: nat)
    requires p > 0
    ensures q <= 0 ==> q * p <= 0
    ensures q >= 1 ==> q * p >= p
  {
    if q >= 1 {
      MulMonotone(1, q, p);
    } else {
      MulMonotone(0, -q, p);
      assert q * p == -((-q) * p);
    }
  }

  lemma Remainder(p: int, step: int, k: int, q: int, m: int, r: int)
    requires p == m * k + r && k * step == q * p
    ensures r * step == (step - m * q) * p
  {
    calc {
      r * step;
      (p - m * k) * step;
      p * step - m * (k * step);
      p * step - m * (q * p);
      (step - m * q) * p;
    }
  }

  /** The j-th probe is h + j * step modulo the table size. */
  lemma {:induction false} ProbeQuotient(h: nat, j: nat, p: nat) returns (q: int)
    requires h < p && 1 < p
    ensures h + j * Step(h) == q * p + ProbeAt(h, j, p)
  {
    if j == 0 {
      q := 0;
    } else {
      q := ProbeQuotient(h, j - 1, p);
      assert j * Step(h) == (j - 1) * Step(h) + Step(h);
      if ProbeAt(h, j - 1, p) + Step(h) >= p {
        q := q + 1;
      }
    }
  }

  lemma ProbesDiffer(h: nat, i: nat, j: nat, p: nat)
    requires Prime(p) && h < p && i < j < p
    ensures ProbeAt(h, i, p) != ProbeAt(h, j, p)
  {
    var qi := ProbeQuotient(h, i, p);
    var qj := ProbeQuotient(h, j, p);
    NotAMultiple(p, Step(h), j - i, qj - qi);
    assert (j - i) * Step(h) == j * Step(h) - i * Step(h);
    assert (qj - qi) * p == qj * p - qi * p;
  }

  lemma {:induction false} Pigeonhole(s: seq<nat>, n: nat)
    requires forall i :: 0 <= i < |s| ==> s[i] < n
    requires forall i, j :: 0 <= i < j < |s| ==> s[i] != s[j]
    ensures |s| <= n
  {
    if |s| > 0 {
      assert s[0] < n;
      if i :| 0 <= i < |s| && s[i] == n - 1 {
        Pigeonhole(s[..i] + s[i + 1..], n - 1);
      } else {
        Pigeonhole(s, n - 1);
      }
    }
  }

  /** Live codes are fewer than slots, so some probe meets a dead slot. */
  lemma SomeProbeIsDead(cfg: Config, t: Tables, h: nat)
    requires Sound(cfg, t) && h < |t.dict|
    ensures 1 < |t.dict| && exists j :: 0 <= j < |t.dict| && !Live(t, ProbeAt(h, j, |t.dict|))
  {
    ConfigFacts(cfg);
    if forall j :: 0 <= j < |t.dict| ==> Live(t, ProbeAt(h, j, |t.dict|)) {
      LiveProbesAreFew(cfg, t, h, |t.dict|);
    }
  }

  /** The live slots among the first m probes carry different codes in use. */
  lemma LiveProbesAreFew(cfg: Config, t: Tables, h: nat, m: nat)
    requires Sound(cfg, t) && h < |t.dict| && 1 < |t.dict| && m <= |t.dict|
    requires forall j :: 0 <= j < m ==> Live(t, ProbeAt(h, j, |t.dict|))
    ensures m <= t.maxEnt
  {
    SizesArePrime(cfg);
    var p := |t.dict|;
    var codes: seq<nat> := seq(m, j requires 0 <= j < m => t.dict[ProbeAt(h, j, p)].codem1);
    forall i, j | 0 <= i < j < m
      ensures codes[i] != codes[j]
    {
      ProbesDiffer(h, i, j, p);
      OneSlotPerCode(cfg, t, ProbeAt(h, i, p), ProbeAt(h, j, p));
    }
    Pigeonhole(codes, t.maxEnt);
  }

  lemma OneSlotPerCode(cfg: Config, t: Tables, s: nat, r: nat)
    requires Sound(cfg, t) && Live(t, s) && Live(t, r) && s != r
    ensures t.dict[s].codem1 != t.dict[r].codem1
  {
    ConfigFacts(cfg);
    assert SlotOk(cfg.MaxMaxCode(), t.dict, s) && SlotOk(cfg.MaxMaxCode(), t.dict, r);
  }

  lemma {:induction false} FirstDeadFound(cfg: Config, t: Tables, h: nat, j: nat)
    requires Sound(cfg, t) && h < |t.dict| && 1 < |t.dict| && j <= |t.dict|
    requires forall i :: 0 <= i < j ==> Live(t, ProbeAt(h, i, |t.dict|))
    ensures FirstDead(t, h, j).Some?
    ensures var s := FirstDead(t, h, j).value;
      s < |t.dict| && !Live(t, s) && exists n :: 0 <= n < |t.dict| && ReachedBy(t, h, s, n)
    decreases |t.dict| - j
  {
    SomeProbeIsDead(cfg, t, h);
    if j < |t.dict| {
      var s := ProbeAt(h, j, |t.dict|);
      if Live(t, s) {
        FirstDeadFound(cfg, t, h, j + 1);
      } else {
        assert ReachedBy(t, h, s, j);
      }
    }
  }

  // ----- the table refines a map from pairs to codes -----

  /** The pair (p, c) is in the dictionary under the given code. */
  ghost predicate Holds(t: Tables, p: nat, c: Byte, code: nat) {
    exists s :: Live(t, s) && t.dict[s].fcode == Key(p, c) && t.dict[s].codem1 == code - 1
  }

  ghost predicate Present(t: Tables, p: nat, c: Byte) {
    exists s :: Live(t, s) && t.dict[s].fcode == Key(p, c)
  }

  /** The pair is in the dictionary under this code and no other, and the code leads to its slot. */
  ghost predicate FoundUnder(t: Tables, p: nat, c: Byte, code: nat) {
    256 < code <= t.maxEnt < |t.dict| && SlotOf(t, code) < |t.dict| && t.dict[SlotOf(t, code)].fcode == Key(p, c) &&
    forall other: nat :: Holds(t, p, c, other) <==> other == code
  }

  /** The pair is not in the dictionary, and this is the dead slot at which to enter it. */
  ghost predicate VacantFor(cfg: Config, t: Tables, p: nat, c: Byte, slot: nat) {
    var h := Hash(cfg, p, c);
    h < |t.dict| && 1 < |t.dict| && slot < |t.dict| && !Live(t, slot) && !Present(t, p, c) &&
    FirstDead(t, h, 0) == Some(slot) &&
    exists n :: 0 <= n < |t.dict| && ReachedBy(t, h, slot, n)
  }

  lemma MissedKeyIsAbsent(cfg: Config, t: Tables, h: nat, key: nat, n: nat, s: nat)
    requires Reachable(cfg, t) && h == HashOf(cfg, key) && h < |t.dict|
    requires Misses(t, h, key, n) && !Live(t, ProbeAt(h, n, |t.dict|)) && Live(t, s)
    ensures t.dict[s].fcode != key
  {
    var g := HashOf(cfg, t.dict[s].fcode);
    var j :| 0 <= j < |t.dict| && ReachedBy(t, g, s, j);
    assert j < n ==> t.dict[ProbeAt(h, j, |t.dict|)].fcode != key;
    assert g == h ==> j <= n;
  }

  lemma OnlyOneCode(t: Tables, p: nat, c: Byte, s: nat)
    requires Distinct(t) && Live(t, s) && t.dict[s].fcode == Key(p, c)
    ensures forall other: nat :: Holds(t, p, c, other) <==> other == t.dict[s].codem1 + 1
  {
    assert Holds(t, p, c, t.dict[s].codem1 + 1);
  }

  lemma CodeOfLiveSlot(cfg: Config, t: Tables, s: nat)
    requires Sound(cfg, t) && Live(t, s)
    ensures var code := t.dict[s].codem1 + 1; 256 < code <= t.maxEnt < |t.dict| && SlotOf(t, code) == s
  {
    ConfigFacts(cfg);
    assert SlotOk(cfg.MaxMaxCode(), t.dict, s);
  }

  lemma FoundIsHeld(cfg: Config, t: Tables, p: nat, c: Byte)
    requires Sound(cfg, t) && Distinct(t) && 1 < |t.dict| && Hash(cfg, p, c) < |t.dict|
    requires Search(t, Hash(cfg, p, c), Key(p, c), 0).Found?
    ensures FoundUnder(t, p, c, Search(t, Hash(cfg, p, c), Key(p, c), 0).code)
  {
    var h, key := Hash(cfg, p, c), Key(p, c);
    SearchOutcome(t, h, key, 0);
    var code := Search(t, h, key, 0).code;
    var s :| Live(t, s) && t.dict[s].fcode == key && t.dict[s].codem1 == code - 1;
    CodeOfLiveSlot(cfg, t, s);
    OnlyOneCode(t, p, c, s);
  }

  lemma VacantIsAbsent(cfg: Config, t: Tables, p: nat, c: Byte)
    requires Consistent(cfg, t) && IsCode(t, p) && Hash(cfg, p, c) < |t.dict|
    requires Search(t, Hash(cfg, p, c), Key(p, c), 0).Vacant?
    ensures VacantFor(cfg, t, p, c, Search(t, Hash(cfg, p, c), Key(p, c), 0).slot)
  {
    var h, key := Hash(cfg, p, c), Key(p, c);
    ConfigFacts(cfg);
    KeyParts(p, c);
    SearchOutcome(t, h, key, 0);
    var slot := Search(t, h, key, 0).slot;
    var n :| 0 <= n < |t.dict| && ProbeAt(h, n, |t.dict|) == slot && Misses(t, h, key, n);
    assert ReachedBy(t, h, slot, n);
    VacantIsFirstDead(t, h, key, 0);
    forall s | Live(t, s)
      ensures t.dict[s].fcode != key
    {
      MissedKeyIsAbsent(cfg, t, h, key, n, s);
    }
  }

  /**
   * Probing for a pair ends at the slot of its code when the pair is present, and otherwise at the first dead slot
   * of its probe sequence, where it may be entered; it never runs off the table.
   */
  lemma SearchRefinesMap(cfg: Config, t: Tables, p: nat, c: Byte)
    requires Consistent(cfg, t) && IsCode(t, p)
    ensures Hash(cfg, p, c) < |t.dict| && 1 < |t.dict|
    ensures var r := Search(t, Hash(cfg, p, c), Key(p, c), 0);
      && !r.Exhausted?
      && (r.Found? ==> FoundUnder(t, p, c, r.code))
      && (r.Vacant? ==> VacantFor(cfg, t, p, c, r.slot))
  {
    HashInRange(cfg, p, c);
    ConfigFacts(cfg);
    var h, key := Hash(cfg, p, c), Key(p, c);
    match Search(t, h, key, 0)
    case Found(_) => FoundIsHeld(cfg, t, p, c);
    case Vacant(_) => VacantIsAbsent(cfg, t, p, c);
    case Exhausted =>
      SearchOutcome(t, h, key, 0);
      SomeProbeIsDead(cfg, t, h);
  }

  /** Entering a key in a dead slot adds this one pair to the map, under the next code. */
  lemma InstallHolds(cfg: Config, t: Tables, slot: nat, key: nat)
    requires Sound(cfg, t) && Room(cfg, t) && slot < |t.dict| && !Live(t, slot)
    ensures forall q: nat, d: Byte, code: nat ::
      Holds(Install(t, slot, key), q, d, code) <==> Holds(t, q, d, code) || (Key(q, d) == key && code == t.maxEnt + 1)
  {
    hide Sound, Key;
    var t' := Install(t, slot, key);
    InstallFrame(cfg, t, slot, key);
    forall q: nat, d: Byte, code: nat
      ensures Holds(t', q, d, code) <==> Holds(t, q, d, code) || (Key(q, d) == key && code == t.maxEnt + 1)
    {
      if Holds(t, q, d, code) {
        var s :| Live(t, s) && t.dict[s].fcode == Key(q, d) && t.dict[s].codem1 == code - 1;
        assert Live(t', s);
      }
      if Key(q, d) == key && code == t.maxEnt + 1 {
        assert Live(t', slot);
      }
    }
  }

  /** Entering an absent pair at the slot its search ended at keeps the whole invariant. */
  lemma InstallConsistent(cfg: Config, t: Tables, p: nat, c: Byte)
    requires Consistent(cfg, t) && IsCode(t, p) && Room(cfg, t)
    requires Hash(cfg, p, c) < |t.dict| && 1 < |t.dict| && Search(t, Hash(cfg, p, c), Key(p, c), 0).Vacant?
    ensures var slot := Search(t, Hash(cfg, p, c), Key(p, c), 0).slot;
      slot < |t.dict| && Consistent(cfg, Install(t, slot, Key(p, c)))
  {
    SearchRefinesMap(cfg, t, p, c);
    ConfigFacts(cfg);
    KeyParts(p, c);
    var slot := Search(t, Hash(cfg, p, c), Key(p, c), 0).slot;
    var n :| 0 <= n < |t.dict| && ReachedBy(t, Hash(cfg, p, c), slot, n);
    InstallSound(cfg, t, slot, Key(p, c));
    InstallChained(cfg, t, slot, p, c);
    InstallDistinct(cfg, t, slot, Key(p, c));
    InstallReachable(cfg, t, slot, Key(p, c), n);
  }
}

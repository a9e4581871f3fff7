/** How the step of the ADPCM codecs adapts, and how soon the coded value has caught up with the samples. */
module AdpcmTracking {
  import opened Bits
  import opened AdpcmPredictor
  import opened AdpcmCodec

  // ----- the step -----

  /** By how many 16384ths of itself the step changes, for each magnitude. */
  function Factors(nbits: nat): seq<nat> {
    if nbits == 2 then [14336, 22016]
    else if nbits == 3 then [14746, 15007, 19732, 26119]
    else [13654, 13654, 14746, 15007, 16896, 19732, 26119, 26119]
  }

  lemma FactorsAre(nbits: nat, m: nat)
    requires IsMode(nbits) && m < SignBit(nbits)
    ensures |Factors(nbits)| == SignBit(nbits) && Mx(nbits, m) == Factors(nbits)[m]
  {
  }

  /** The new step is that fraction of the old one, to the nearest whole number, but five at least. */
  lemma StepLaw(nbits: nat, p: Pred, e: nat)
    requires IsMode(nbits) && p.d >= 5
    ensures var m := e % SignBit(nbits);
      var f, d := Factors(nbits)[m], Next(nbits, p, e).d;
      d >= 5 && 16384 * d <= (if f * p.d + 8192 < 81920 then 81920 else f * p.d + 8192) &&
      f * p.d + 8192 < 16384 * (d + 1)
  {
    var m := e % SignBit(nbits);
    FactorsAre(nbits, m);
    Rounded(p.d * Mx(nbits, m), Mx(nbits, m) * p.d);
    hide Mx, Factors;
  }

  lemma Rounded(n: int, m: int)
    requires n == m
    ensures var d := (n + 0x2000) / 0x4000; 16384 * d <= m + 8192 < 16384 * (d + 1)
  {
  }

  /** A greater magnitude never leaves a smaller step, nor does a greater step. */
  lemma StepGrows(nbits: nat, d: int, d': int, m: nat, m': nat)
    requires IsMode(nbits) && m <= m' < SignBit(nbits) && 5 <= d <= d'
    ensures NextStep(nbits, d, m) <= NextStep(nbits, d', m')
  {
    FactorsAre(nbits, m);
    FactorsAre(nbits, m');
    Products(d, d', Mx(nbits, m), Mx(nbits, m'));
    Quotients(d * Mx(nbits, m) + 0x2000, d' * Mx(nbits, m') + 0x2000);
  }

  lemma Products(d: int, d': int, f: nat, f': nat)
    requires 0 <= d <= d' && f <= f'
    ensures d * f <= d' * f'
  {
    assert d * f <= d' * f;
  }

  lemma Quotients(n: int, n': int)
    requires n <= n'
    ensures n / 0x4000 <= n' / 0x4000
  {
  }

  /** The greatest magnitude makes every step longer, and the least makes none longer. */
  lemma EndsOfScale(nbits: nat, d: int)
    requires IsMode(nbits) && d >= 5
    ensures NextStep(nbits, d, SignBit(nbits) - 1) > d && NextStep(nbits, d, 0) <= d
  {
  }

  /** A sample that is the predicted value itself is coded as zero upwards, but as zero downwards in the 4-bit mode. */
  lemma ZeroIsEight(nbits: nat, p: Pred)
    requires IsMode(nbits) && p.d >= 5
    ensures Code(nbits, p, p.a) == if nbits == 4 then 8 else 0
  {
  }

  /** Code 0 of the 4-bit mode, which no encoder sends, moves the value up by two and makes the step the least one. */
  lemma ResetLaw(nbits: nat, p: Pred, e: nat)
    requires IsMode(nbits) && e < 2 * SignBit(nbits)
    ensures Decode(nbits, p, e) == if nbits == 4 && e == 0 then Pred(p.a + 2, 5) else Next(nbits, p, e)
  {
  }

  /** A sample is a quarter of its value in the table, rounded down. */
  lemma SampleLaw(table: seq<int>, data: seq<Byte>, i: nat)
    requires IsTable(table) && i < |data|
    ensures var s := Samples(table, data)[i]; 4 * s <= table[data[i]] < 4 * (s + 1)
  {
  }

  // ----- a constant sample -----

  function Steady(s: int, k: nat): (samples: seq<int>)
    ensures |samples| == k
  {
    seq(k, _ => s)
  }

  /** The encoder after k samples that are all the same. */
  function AfterSteady(nbits: nat, p: Pred, s: int, k: nat): Pred { Encoded(nbits, p, Steady(s, k)).0 }

  lemma OneMoreSample(nbits: nat, p: Pred, s: int, k: nat)
    ensures AfterSteady(nbits, p, s, 0) == p
    ensures var q := AfterSteady(nbits, p, s, k); AfterSteady(nbits, p, s, k + 1) == Next(nbits, q, Code(nbits, q, s))
  {
    hide Next, Code;
    assert Steady(s, k + 1)[..k] == Steady(s, k);
  }

  /** A sample is met to within half the step it was coded with; or one and a half, where code 0 is avoided. */
  predicate Near(nbits: nat, q: Pred, q': Pred, s: int) {
    var x := 2 * (s - q'.a);
    var most := (if nbits == 4 then 3 else 1) * q.d + 1;
    -most <= x <= most
  }

  function Distance(s: int, a: int): nat { if s < a then a - s else s - a }

  /** What all but half a step of the greatest magnitude covers. */
  function Stride(nbits: nat, d: int): int { Times(SignBit(nbits) - 1, d) + (d - 1) / 2 }

  /** One sample: it is met, or it is so far that the code is of the greatest magnitude. */
  lemma OneSample(nbits: nat, q: Pred, s: int)
    requires IsMode(nbits) && Bounded(nbits, q) && IsSample(s)
    ensures var q' := Next(nbits, q, Code(nbits, q, s));
      Near(nbits, q, q', s) ||
      (Distance(s, q'.a) + Stride(nbits, q.d) <= Distance(s, q.a) && q'.d == NextStep(nbits, q.d, SignBit(nbits) - 1))
  {
    hide Next, NextStep, Mx;
    var x, most := Distance(s, q.a), SignBit(nbits) - 1;
    var m := Steps(x, q.d, most);
    StepsAre(x, q.d, most);
    NoSteps(q.d);
    if s < q.a {
      MoveDown(nbits, q, m);
    } else if nbits == 4 && m == 0 {
      MoveDown(nbits, q, 0);
    } else {
      MoveUp(nbits, q, m);
    }
    hide Times;
  }

  /** The step after k codes of the greatest magnitude, from the shortest one on, and what they cover. */
  function Least(nbits: nat, k: nat): int {
    if k == 0 then 5 else NextStep(nbits, Least(nbits, k - 1), SignBit(nbits) - 1)
  }

  function Covered(nbits: nat, k: nat): int {
    if k == 0 then 0 else Covered(nbits, k - 1) + Stride(nbits, Least(nbits, k - 1))
  }

  /** No sample has been met so far. */
  predicate Behind(nbits: nat, p: Pred, s: int, k: nat) {
    forall j :: 0 <= j < k ==> !Near(nbits, AfterSteady(nbits, p, s, j), AfterSteady(nbits, p, s, j + 1), s)
  }

  lemma {:induction false} BehindCloses(nbits: nat, p: Pred, s: int, k: nat)
    requires IsMode(nbits) && Bounded(nbits, p) && IsSample(s) && Behind(nbits, p, s, k)
    ensures var q := AfterSteady(nbits, p, s, k);
      Bounded(nbits, q) && Distance(s, q.a) + Covered(nbits, k) <= Distance(s, p.a) && Least(nbits, k) <= q.d
  {
    hide Next, NextStep, Code, Near, AfterSteady, Stride;
    if k == 0 {
      OneMoreSample(nbits, p, s, 0);
    } else {
      BehindCloses(nbits, p, s, k - 1);
      var q := AfterSteady(nbits, p, s, k - 1);
      OneMoreSample(nbits, p, s, k - 1);
      OneSample(nbits, q, s);
      StepBounded(nbits, q, s);
      LeastStep(nbits, k - 1);
      StepGrows(nbits, Least(nbits, k - 1), q.d, SignBit(nbits) - 1, SignBit(nbits) - 1);
      StrideGrows(nbits, Least(nbits, k - 1), q.d);
      assert !Near(nbits, AfterSteady(nbits, p, s, k - 1), AfterSteady(nbits, p, s, k - 1 + 1), s);
    }
  }

  lemma {:induction false} LeastStep(nbits: nat, k: nat)
    requires IsMode(nbits)
    ensures Least(nbits, k) >= 5
  {
  }

  lemma StrideGrows(nbits: nat, d: int, d': int)
    requires IsMode(nbits) && 0 <= d <= d'
    ensures Stride(nbits, d) <= Stride(nbits, d')
  {
    Products(d, d', SignBit(nbits) - 1, SignBit(nbits) - 1);
  }

  /** So many samples are enough, from wherever the encoder is. */
  function Enough(nbits: nat): nat { if nbits == 2 then 27 else if nbits == 3 then 15 else 13 }

  /**
   * The encoder catches up: of samples that stay the same, one of the first 27, 15 or 13 is met to within half a step
   * in the 2- and 3-bit modes and one and a half in the 4-bit mode, whatever the value, the step and the sample were.
   */
  lemma CatchesUp(nbits: nat, p: Pred, s: int)
    requires IsMode(nbits) && Bounded(nbits, p) && IsSample(s)
    ensures exists k ::
      0 <= k < Enough(nbits) && Near(nbits, AfterSteady(nbits, p, s, k), AfterSteady(nbits, p, s, k + 1), s)
  {
    hide Next, Code, Near, AfterSteady;
    if Behind(nbits, p, s, Enough(nbits)) {
      BehindCloses(nbits, p, s, Enough(nbits));
      CoversAll(nbits);
      hide Covered, Least;
      assert false;
    }
  }

  lemma CoversAll(nbits: nat)
    requires IsMode(nbits)
    ensures Covered(nbits, Enough(nbits)) > 8192 + MaxValue(nbits)
  {
    hide Covered, Least;
    Covers2();
    Covers3();
    Covers4();
  }

  /** So far the step and the ground covered are these; one more code of the greatest magnitude makes them d and c. */
  lemma Onward(nbits: nat, k: nat, d: int, c: int)
    requires d == NextStep(nbits, Least(nbits, k), SignBit(nbits) - 1)
    requires c == Covered(nbits, k) + Stride(nbits, Least(nbits, k))
    ensures Least(nbits, k + 1) == d && Covered(nbits, k + 1) == c
  {
    hide NextStep, Stride;
  }

  lemma AtFirst(nbits: nat)
    ensures Least(nbits, 0) == 5 && Covered(nbits, 0) == 0
  {
  }

  lemma HalfOf2()
    ensures Least(2, 14) == 320 && Covered(2, 14) == 1358
  {
    hide Least, Covered;
    AtFirst(2);
    Onward(2, 0, 7, 7);
    Onward(2, 1, 9, 17);
    Onward(2, 2, 12, 30);
    Onward(2, 3, 16, 47);
    Onward(2, 4, 22, 70);
    Onward(2, 5, 30, 102);
    Onward(2, 6, 40, 146);
    Onward(2, 7, 54, 205);
    Onward(2, 8, 73, 285);
    Onward(2, 9, 98, 394);
    Onward(2, 10, 132, 540);
    Onward(2, 11, 177, 737);
    Onward(2, 12, 238, 1002);
    Onward(2, 13, 320, 1358);
  }

  lemma Covers2()
    ensures Covered(2, 27) == 65024
  {
    hide Least, Covered;
    HalfOf2();
    Onward(2, 14, 430, 1837);
    Onward(2, 15, 578, 2481);
    Onward(2, 16, 777, 3347);
    Onward(2, 17, 1044, 4512);
    Onward(2, 18, 1403, 6077);
    Onward(2, 19, 1885, 8181);
    Onward(2, 20, 2533, 11008);
    Onward(2, 21, 3404, 14807);
    Onward(2, 22, 4574, 19912);
    Onward(2, 23, 6146, 26772);
    Onward(2, 24, 8259, 35990);
    Onward(2, 25, 11098, 48378);
    Onward(2, 26, 14913, 65024);
  }

  lemma Covers3()
    ensures Covered(3, 15) == 32938
  {
    hide Least, Covered;
    AtFirst(3);
    Onward(3, 0, 8, 17);
    Onward(3, 1, 13, 44);
    Onward(3, 2, 21, 89);
    Onward(3, 3, 33, 162);
    Onward(3, 4, 53, 277);
    Onward(3, 5, 84, 462);
    Onward(3, 6, 134, 755);
    Onward(3, 7, 214, 1223);
    Onward(3, 8, 341, 1971);
    Onward(3, 9, 544, 3164);
    Onward(3, 10, 867, 5067);
    Onward(3, 11, 1382, 8101);
    Onward(3, 12, 2203, 12937);
    Onward(3, 13, 3512, 20647);
    Onward(3, 14, 5599, 32938);
  }

  lemma Covers4()
    ensures Covered(4, 13) == 27733
  {
    hide Least, Covered;
    AtFirst(4);
    Onward(4, 0, 8, 37);
    Onward(4, 1, 13, 96);
    Onward(4, 2, 21, 193);
    Onward(4, 3, 33, 350);
    Onward(4, 4, 53, 597);
    Onward(4, 5, 84, 994);
    Onward(4, 6, 134, 1623);
    Onward(4, 7, 214, 2627);
    Onward(4, 8, 341, 4231);
    Onward(4, 9, 544, 6788);
    Onward(4, 10, 867, 10867);
    Onward(4, 11, 1382, 17369);
    Onward(4, 12, 2203, 27733);
  }
}

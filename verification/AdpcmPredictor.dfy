/** The predictor and quantiser of the ADPCM codecs with 2, 3 and 4 bits a sample (drivers/isdn/isdn_audio.c). */
module AdpcmPredictor {

  predicate IsMode(nbits: nat) { 2 <= nbits <= 4 }

  /** The predicted value and the step width. */
  datatype Pred = Pred(a: int, d: int)

  const START := Pred(0, 5)

  /** 1 << (nbits - 1): the sign bit of a code, and the number of magnitudes. */
  function SignBit(nbits: nat): nat { if nbits == 2 then 2 else if nbits == 3 then 4 else 8 }

  function Mx(nbits: nat, m: nat): nat {
    if nbits == 2 then (if m == 0 then 0x3800 else if m == 1 then 0x5600 else 0)
    else if nbits == 3 then
      (if m == 0 then 0x399a else if m == 1 then 0x3a9f else if m == 2 then 0x4d14 else if m == 3 then 0x6607 else 0)
    else if m <= 1 then 0x3556 else if m == 2 then 0x399a else if m == 3 then 0x3a9f
    else if m == 4 then 0x4200 else if m == 5 then 0x4d14 else 0x6607
  }

  /** What both sides do with a code: move the value by m + 1/2 steps, and adapt the step. */
  function Next(nbits: nat, p: Pred, e: nat): Pred {
    var m := e % SignBit(nbits);
    var move := (2 * m + 1) * p.d;
    var a := p.a + (if e / SignBit(nbits) > 0 then -move else move) / 2 + if p.d % 2 == 1 then 1 else 0;
    var d := (p.d * Mx(nbits, m) + 0x2000) / 0x4000;
    Pred(a, if d < 5 then 5 else d)
  }

  /** The decoder takes code 0 of the 4-bit mode as a reset of the step. */
  function Decode(nbits: nat, p: Pred, e: nat): Pred {
    Next(nbits, if nbits == 4 && e == 0 then p.(d := 4) else p, e)
  }

  // ----- the quantiser -----

  /** How many steps fit below delta, at most the given number. */
  function Steps(delta: int, d: int, most: nat): (m: nat)
    ensures m <= most
    decreases most
  {
    if most == 0 || delta <= d then 0 else 1 + Steps(delta - d, d, most - 1)
  }

  /** The code of a sample. */
  function Code(nbits: nat, p: Pred, sample: int): (e: nat) {
    var delta := sample - p.a;
    var e := (if delta < 0 then SignBit(nbits) else 0) +
      Steps(if delta < 0 then -delta else delta, p.d, SignBit(nbits) - 1);
    if nbits == 4 && e == 0 then 8 else e
  }

  /** The source's quantising loop. */
  method Quantise(nbits: nat, p: Pred, sample: int) returns (e: nat)
    requires IsMode(nbits)
    ensures e == Code(nbits, p, sample)
  {
    var nmax: nat := SignBit(nbits);
    e := 0;
    var delta := sample - p.a;
    if delta < 0 {
      e := nmax;
      delta := -delta;
    }
    ghost var e0, total := e, Steps(delta, p.d, nmax - 1);
    nmax := nmax - 1;
    while nmax != 0 && delta > p.d
      invariant nmax >= 0 && e + Steps(delta, p.d, nmax) == e0 + total
    {
      delta := delta - p.d;
      e := e + 1;
      nmax := nmax - 1;
    }
    if nbits == 4 && e % 16 == 0 {
      e := 8;
    }
  }

  lemma CodeInRange(nbits: nat, p: Pred, sample: int)
    requires IsMode(nbits)
    ensures Code(nbits, p, sample) < 2 * SignBit(nbits)
    ensures nbits == 4 ==> Code(nbits, p, sample) != 0
  {
  }

  function Times(m: nat, d: int): int { m * d }

  /** The quantiser finds the interval of one step that delta lies in, or the last one. */
  lemma {:induction false} StepsAre(delta: int, d: int, most: nat)
    requires d > 0 && delta >= 0
    ensures var m := Steps(delta, d, most);
      (m > 0 ==> Times(m, d) < delta) && (m < most ==> delta <= Times(m, d) + d) && 0 <= Times(m, d) &&
      (m == 0 ==> Times(m, d) == 0)
  {
    if most > 0 && delta > d {
      StepsAre(delta - d, d, most - 1);
    }
  }

  // ----- bounds -----

  /** A sample of 16 bits, shifted down by two. */
  predicate IsSample(s: int) { -8192 <= s <= 8191 }

  function MaxValue(nbits: nat): nat { if nbits == 2 then 41746 else if nbits == 3 then 15260 else 19100 }

  function MaxStep(nbits: nat): nat { if nbits == 2 then 67104 else if nbits == 3 then 14130 else 7260 }

  predicate Bounded(nbits: nat, p: Pred) {
    -(MaxValue(nbits) as int) <= p.a <= MaxValue(nbits) && 5 <= p.d <= MaxStep(nbits)
  }

  lemma CodeParts(nbits: nat, m: nat)
    requires IsMode(nbits) && m < SignBit(nbits)
    ensures var n := SignBit(nbits); m / n == 0 && m % n == m && (n + m) / n == 1 && (n + m) % n == m
  {
    if nbits == 2 {
      assert (2 + m) / 2 == 1 && (2 + m) % 2 == m;
    } else if nbits == 3 {
      assert (4 + m) / 4 == 1 && (4 + m) % 4 == m;
    } else {
      assert (8 + m) / 8 == 1 && (8 + m) % 8 == m;
    }
  }

  /** Up: half a step beyond the m steps, rounded up; and the new step. */
  lemma MoveUp(nbits: nat, p: Pred, m: nat)
    requires IsMode(nbits) && m < SignBit(nbits)
    ensures var t := Times(m, p.d); 2 * p.a + 2 * t + p.d <= 2 * Next(nbits, p, m).a <= 2 * p.a + 2 * t + p.d + 1
    ensures Next(nbits, p, m).d == NextStep(nbits, p.d, m)
  {
    CodeParts(nbits, m);
    Rounding(m, p.d);
    hide SignBit, Mx;
  }

  lemma MoveDown(nbits: nat, p: Pred, m: nat)
    requires IsMode(nbits) && m < SignBit(nbits)
    ensures var t, q := Times(m, p.d), Next(nbits, p, SignBit(nbits) + m);
      2 * p.a - 2 * t - p.d <= 2 * q.a <= 2 * p.a - 2 * t - p.d + 1
    ensures Next(nbits, p, SignBit(nbits) + m).d == NextStep(nbits, p.d, m)
  {
    CodeParts(nbits, m);
    Rounding(m, p.d);
    hide SignBit, Mx;
  }

  lemma Rounding(m: nat, d: int)
    ensures var u, t, odd := (2 * m + 1) * d, m * d, if d % 2 == 1 then 1 else 0;
      u == 2 * t + d && 0 <= 2 * (u / 2 + odd) - u <= 1 && 0 <= 2 * (-u / 2 + odd) + u <= 1
  {
    assert (2 * m + 1) * d == 2 * (m * d) + d;
    Halve((2 * m + 1) * d, m * d, d);
  }

  lemma Halve(u: int, t: int, d: int)
    requires u == 2 * t + d
    ensures var odd := if d % 2 == 1 then 1 else 0; 0 <= 2 * (u / 2 + odd) - u <= 1 && 0 <= 2 * (-u / 2 + odd) + u <= 1
  {
    assert u / 2 == t + d / 2 && -u / 2 == -t + -d / 2;
  }

  function NextStep(nbits: nat, d: int, m: nat): int {
    var d' := (d * Mx(nbits, m) + 0x2000) / 0x4000;
    if d' < 5 then 5 else d'
  }

  /** A step grows only when the difference is large, and the difference is bounded. */
  lemma StepWidth(nbits: nat, d: int, m: nat, x: int)
    requires IsMode(nbits) && m < SignBit(nbits) && 5 <= d <= MaxStep(nbits) && x <= 8192 + MaxValue(nbits) &&
      (m > 0 ==> Times(m, d) < x)
    ensures 5 <= NextStep(nbits, d, m) <= MaxStep(nbits)
  {
    if nbits == 2 {
      assert m == 0 || m == 1;
    } else if nbits == 3 {
      assert m == 0 || m == 1 || m == 2 || m == 3;
    } else {
      assert m == 0 || m == 1 || m == 2 || m == 3 || m == 4 || m == 5 || m == 6 || m == 7;
    }
  }

  /** The encoder's state stays within the bounds of its mode, whatever the samples. */
  lemma StepBounded(nbits: nat, p: Pred, sample: int)
    requires IsMode(nbits) && Bounded(nbits, p) && IsSample(sample)
    ensures Bounded(nbits, Next(nbits, p, Code(nbits, p, sample)))
  {
    hide Next, NextStep, Mx, MaxValue, MaxStep, Times;
    var delta := sample - p.a;
    var x := if delta < 0 then -delta else delta;
    var most := SignBit(nbits) - 1;
    var m := Steps(x, p.d, most);
    StepsAre(x, p.d, most);
    StepWidth(nbits, p.d, m, x);
    Room(nbits, p.d);
    if delta < 0 {
      MoveDown(nbits, p, m);
      Within(-p.a, -sample, Times(m, p.d), p.d, m < most, -Next(nbits, p, SignBit(nbits) + m).a, MaxValue(nbits));
    } else if nbits == 4 && m == 0 {
      MoveDown(nbits, p, 0);
      NoSteps(p.d);
    } else {
      MoveUp(nbits, p, m);
      Within(p.a, sample, Times(m, p.d), p.d, m < most, Next(nbits, p, m).a, MaxValue(nbits));
    }
  }

  /** Moving from a towards s by half a step more than t, which falls short of s: past s by half a step at most. */
  lemma Within(a: int, s: int, t: int, d: int, reached: bool, a': int, max: int)
    requires a <= s && -8192 <= s <= 8192 && -max <= a <= max && d >= 5 && 2 * 8192 + d + 1 <= 2 * max
    requires 0 <= t && (t < s - a || t == 0) && (reached ==> s - a <= t + d)
    requires 2 * a + 2 * t + d - 1 <= 2 * a' <= 2 * a + 2 * t + d + 1
    ensures -max <= a' <= max
  {
  }

  lemma NoSteps(d: int)
    ensures Times(0, d) == 0
  {
  }

  /** Overshooting a sample stays within the bounds: by half a step, or by one and a half where code 0 is avoided. */
  lemma Room(nbits: nat, d: int)
    requires IsMode(nbits) && d <= MaxStep(nbits)
    ensures 2 * 8192 + d + 1 <= 2 * MaxValue(nbits) && (nbits == 4 ==> 2 * 8192 + 3 * d + 1 <= 2 * MaxValue(nbits))
  {
  }

  predicate Int32(n: int) { -0x8000_0000 <= n < 0x8000_0000 }

  /** No product or sum of a step of the encoder leaves 32 bits. */
  lemma NoOverflow(nbits: nat, p: Pred, sample: int)
    requires IsMode(nbits) && Bounded(nbits, p) && IsSample(sample)
    ensures var m := Code(nbits, p, sample) % SignBit(nbits);
      var move := (2 * m + 1) * p.d;
      && Int32(sample - p.a) && Int32(move) && Int32(-(2 * m + 1) * p.d) && -(2 * m + 1) * p.d == -move
      && Int32(p.a + move / 2 + 1) && Int32(p.a + -move / 2)
      && Int32(p.d * Mx(nbits, m) + 0x2000)
  {
    var m := Code(nbits, p, sample) % SignBit(nbits);
    hide Code;
    assert m < SignBit(nbits);
    SmallProducts(nbits, p.d, m);
  }

  lemma SmallProducts(nbits: nat, d: int, m: nat)
    requires IsMode(nbits) && m < SignBit(nbits) && 5 <= d <= MaxStep(nbits)
    ensures 0 <= (2 * m + 1) * d <= 1_000_000 && -(2 * m + 1) * d == -((2 * m + 1) * d) &&
      0 <= d * Mx(nbits, m) <= 1_500_000_000
  {
    assert m == 0 || m == 1 || m == 2 || m == 3 || m == 4 || m == 5 || m == 6 || m == 7;
  }

  // ----- runs -----

  function Encoded(nbits: nat, p: Pred, samples: seq<int>): (r: (Pred, seq<nat>))
    ensures |r.1| == |samples|
  {
    if samples == [] then (p, [])
    else
      var r := Encoded(nbits, p, samples[..|samples| - 1]);
      var e := Code(nbits, r.0, samples[|samples| - 1]);
      (Next(nbits, r.0, e), r.1 + [e])
  }

  /** The values that a decoder hands on. */
  function Decoded(nbits: nat, p: Pred, codes: seq<nat>): (r: (Pred, seq<int>))
    ensures |r.1| == |codes|
  {
    if codes == [] then (p, [])
    else
      var r := Decoded(nbits, p, codes[..|codes| - 1]);
      var q := Decode(nbits, r.0, codes[|codes| - 1]);
      (q, r.1 + [q.a])
  }

  lemma {:induction false} EncodedBounded(nbits: nat, samples: seq<int>)
    requires IsMode(nbits) && forall i :: 0 <= i < |samples| ==> IsSample(samples[i])
    ensures Bounded(nbits, Encoded(nbits, START, samples).0)
  {
    hide Next, Code;
    if samples != [] {
      var n := |samples| - 1;
      EncodedBounded(nbits, samples[..n]);
      StepBounded(nbits, Encoded(nbits, START, samples[..n]).0, samples[n]);
    }
  }

  /** A prefix of the codes are the codes of a prefix. */
  lemma {:induction false} EncodedPrefix(nbits: nat, p: Pred, samples: seq<int>, k: nat)
    requires k <= |samples|
    ensures Encoded(nbits, p, samples).1[..k] == Encoded(nbits, p, samples[..k]).1
  {
    hide Next, Code;
    var n := |samples| - 1;
    if k < |samples| {
      EncodedPrefix(nbits, p, samples[..n], k);
      assert samples[..n][..k] == samples[..k];
      assert Encoded(nbits, p, samples).1[..k] == Encoded(nbits, p, samples[..n]).1[..k];
    } else {
      assert samples[..k] == samples;
    }
  }

  /**
   * After k codes the decoder's value and step are the encoder's after k samples, and so is every value it hands on.
   */
  lemma {:induction false} Lockstep(nbits: nat, p: Pred, samples: seq<int>, k: nat)
    requires IsMode(nbits) && k <= |samples|
    ensures Decoded(nbits, p, Encoded(nbits, p, samples).1[..k]).0 == Encoded(nbits, p, samples[..k]).0
    ensures forall i :: 0 <= i < k ==>
      Decoded(nbits, p, Encoded(nbits, p, samples).1[..k]).1[i] == Encoded(nbits, p, samples[..i + 1]).0.a
  {
    hide Next, Code;
    if k > 0 {
      Lockstep(nbits, p, samples, k - 1);
      EncodedPrefix(nbits, p, samples, k - 1);
      EncodedPrefix(nbits, p, samples, k);
      var codes, t := Encoded(nbits, p, samples).1, samples[..k];
      assert codes[..k][..k - 1] == codes[..k - 1] && t[..k - 1] == samples[..k - 1];
      CodeInRange(nbits, Encoded(nbits, p, samples[..k - 1]).0, samples[k - 1]);
    }
  }
}

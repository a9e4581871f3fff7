/**
 * The dictionary of BSD-Compress (drivers/isdn/isdn_bsdcomp.c): an open-addressing hash table
 * whose entries are live only while their code is in use, as values and functions on them.
 */
module BsdTables {
  import opened Bits

  const CLEAR := 256
  const MIN_BITS := 9
  const BAD_CODEM1 := 32767

  /** One slot: a key, the code stored under it less one, and (unrelated) the slot of the code that is this index. */
  datatype Slot = Slot(fcode: nat, codem1: nat, cptr: nat)

  datatype Config = Config(maxBits: nat, hsize: nat, hshift: nat) {
    function MaxMaxCode(): nat { MaxCode(maxBits) }
  }

  datatype Tables = Tables(dict: seq<Slot>, maxEnt: nat, nBits: nat)

  datatype Option<T> = None | Some(value: T)

  function MaxCode(b: nat): nat { Pow2(b) - 1 }

  /** bsd_alloc's table of hash sizes and shifts. */
  function ConfigFor(bits: int): Option<Config> {
    if 9 <= bits <= 12 then Some(Config(bits, 5003, 4))
    else if bits == 13 then Some(Config(bits, 9001, 5))
    else if bits == 14 then Some(Config(bits, 18013, 6))
    else if bits == 15 then Some(Config(bits, 35023, 7))
    else None
  }

  predicate ValidConfig(cfg: Config) {
    ConfigFor(cfg.maxBits) == Some(cfg)
  }

  function Key(prefix: nat, suffix: Byte): nat { suffix * 0x1_0000 + prefix }

  function Prefix(fcode: nat): nat { fcode % 0x1_0000 }

  function Suffix(fcode: nat): Byte { (fcode / 0x1_0000) % 256 }

  function Hash(cfg: Config, prefix: nat, suffix: Byte): nat { Xor(Shl(suffix, cfg.hshift), prefix) }

  function Step(h: nat): nat { if h == 0 then 1 else h }

  /** The slot after slot s on a probe sequence: one addition and at most one subtraction. */
  function NextProbe(s: nat, h: nat, hsize: nat): int {
    if s + Step(h) >= hsize then s + Step(h) - hsize else s + Step(h)
  }

  /** The slot looked at after j unsuccessful probes. */
  function ProbeAt(h: nat, j: nat, hsize: nat): (s: nat)
    requires h < hsize && 1 < hsize
    ensures s < hsize
  {
    if j == 0 then h else NextProbe(ProbeAt(h, j - 1, hsize), h, hsize)
  }

  predicate Live(t: Tables, s: int) {
    0 <= s < |t.dict| && t.dict[s].codem1 < t.maxEnt
  }

  datatype Hit = Found(code: nat) | Vacant(slot: nat) | Exhausted

  /** The compressor's search, from the j-th probe on. */
  function Search(t: Tables, h: nat, key: nat, j: nat): Hit
    requires h < |t.dict| && 1 < |t.dict|
    decreases |t.dict| - j
  {
    if j >= |t.dict| then Exhausted
    else
      var s := ProbeAt(h, j, |t.dict|);
      if !Live(t, s) then Vacant(s)
      else if t.dict[s].fcode == key then Found(t.dict[s].codem1 + 1)
      else Search(t, h, key, j + 1)
  }

  /** The decompressor's search: it takes the first dead slot without looking at keys. */
  function FirstDead(t: Tables, h: nat, j: nat): Option<nat>
    requires h < |t.dict| && 1 < |t.dict|
    decreases |t.dict| - j
  {
    if j >= |t.dict| then None
    else
      var s := ProbeAt(h, j, |t.dict|);
      if !Live(t, s) then Some(s) else FirstDead(t, h, j + 1)
  }

  /** dict_ptr: an index outside the table means slot 0. */
  function Clamp(d: seq<Slot>, idx: nat): (i: nat)
    requires |d| > 0
    ensures i < |d|
  {
    if idx < |d| then idx else 0
  }

  /**
   * Slot s after code maxEnt + 1 has been entered into a slot: the slot that carried the code before is invalidated.
   */
  function InstalledSlot(t: Tables, slot: nat, key: nat, s: nat): Slot
    requires t.maxEnt + 1 < |t.dict| && s < |t.dict|
  {
    var was := Clamp(t.dict, t.dict[t.maxEnt + 1].cptr);
    var e := t.dict[s];
    Slot(if s == slot then key else e.fcode,
         if s == slot then t.maxEnt else if s == was && e.codem1 == t.maxEnt then BAD_CODEM1 else e.codem1,
         if s == t.maxEnt + 1 then slot else e.cptr)
  }

  function Install(t: Tables, slot: nat, key: nat): (t': Tables)
    requires t.maxEnt + 1 < |t.dict| && slot < |t.dict|
    ensures |t'.dict| == |t.dict|
  {
    Tables(seq(|t.dict|, s requires 0 <= s < |t.dict| => InstalledSlot(t, slot, key, s)), t.maxEnt + 1, t.nBits)
  }

  /** Widen the codes when the code space of the current width is used up. */
  function Widen(cfg: Config, t: Tables): Tables {
    if t.maxEnt >= MaxCode(t.nBits) && t.maxEnt < cfg.MaxMaxCode() then t.(nBits := t.nBits + 1) else t
  }

  function Cleared(t: Tables): Tables { t.(maxEnt := CLEAR, nBits := MIN_BITS) }

  /** bsd_init: every slot invalid. */
  function Fresh(cfg: Config): Tables {
    Tables(seq(cfg.hsize, _ => Slot(0, BAD_CODEM1, 0)), CLEAR, MIN_BITS)
  }

  /** There is a next code, and it fits the current width. */
  predicate Room(cfg: Config, t: Tables) {
    t.maxEnt < cfg.MaxMaxCode() && t.maxEnt + 1 < |t.dict| && t.maxEnt + 1 < Pow2(t.nBits)
  }

  lemma ConfigFacts(cfg: Config)
    requires ValidConfig(cfg)
    ensures 256 < cfg.MaxMaxCode() < cfg.hsize && cfg.MaxMaxCode() <= BAD_CODEM1
    ensures Pow2(8 + cfg.hshift) <= cfg.hsize && Pow2(cfg.maxBits) <= cfg.hsize
  {
    Pow2Monotone(9, cfg.maxBits);
    Pow2Monotone(cfg.maxBits, 15);
    if cfg.maxBits <= 12 {
      Pow2Monotone(cfg.maxBits, 12);
    }
  }

  // ----- invariants -----

  /** A slot's code is either invalid or pointed back to by its code's index: each code has one slot. */
  predicate SlotOk(top: nat, d: seq<Slot>, s: nat)
    requires s < |d|
  {
    d[s].cptr < |d| &&
    (d[s].codem1 == BAD_CODEM1 ||
     (CLEAR <= d[s].codem1 < top && d[s].codem1 + 1 < |d| && d[d[s].codem1 + 1].cptr == s))
  }

  /** Holds of the tables whatever the peer sends: in particular every code fits the current width. */
  ghost predicate Sound(cfg: Config, t: Tables) {
    ValidConfig(cfg) && |t.dict| == cfg.hsize &&
    CLEAR <= t.maxEnt <= cfg.MaxMaxCode() && MIN_BITS <= t.nBits <= cfg.maxBits &&
    t.maxEnt < Pow2(t.nBits) &&
    forall s :: 0 <= s < |t.dict| ==> SlotOk(cfg.MaxMaxCode(), t.dict, s)
  }

  predicate IsCode(t: Tables, c: nat) {
    c < 256 || 256 < c <= t.maxEnt
  }

  /** The slot of a code that is not a literal. */
  function SlotOf(t: Tables, c: nat): nat
    requires c < |t.dict|
  {
    t.dict[c].cptr
  }

  predicate LinkOk(t: Tables, c: nat)
    requires c < |t.dict|
  {
    var s := SlotOf(t, c);
    s < |t.dict| && t.dict[s].codem1 == c - 1 &&
    var p := Prefix(t.dict[s].fcode);
    IsCode(t, p) && p < c && t.dict[s].fcode == Key(p, Suffix(t.dict[s].fcode))
  }

  /** Every code in use leads to an older code or a literal. */
  ghost predicate Chained(t: Tables) {
    t.maxEnt < |t.dict| &&
    forall c :: 256 < c <= t.maxEnt ==> LinkOk(t, c)
  }

  ghost predicate Distinct(t: Tables) {
    forall s, r :: Live(t, s) && Live(t, r) && t.dict[s].fcode == t.dict[r].fcode ==> s == r
  }

  /** Slot s is reached from hash h by probing live slots only. */
  ghost predicate ReachedBy(t: Tables, h: nat, s: nat, j: nat)
    requires h < |t.dict| && 1 < |t.dict|
  {
    ProbeAt(h, j, |t.dict|) == s && forall i :: 0 <= i < j ==> Live(t, ProbeAt(h, i, |t.dict|))
  }

  ghost predicate Reachable(cfg: Config, t: Tables) {
    1 < |t.dict| &&
    forall s :: Live(t, s) ==>
      var h := HashOf(cfg, t.dict[s].fcode);
      h < |t.dict| && exists j :: 0 <= j < |t.dict| && ReachedBy(t, h, s, j)
  }

  function HashOf(cfg: Config, fcode: nat): nat { Hash(cfg, Prefix(fcode), Suffix(fcode)) }

  /** The invariant that both peers keep between packets, and between codes. */
  ghost predicate Consistent(cfg: Config, t: Tables) {
    Sound(cfg, t) && Chained(t) && Distinct(t) && Reachable(cfg, t)
  }

  // ----- the string of a code -----

  ghost function Str(t: Tables, c: nat): (s: seq<Byte>)
    requires Chained(t) && IsCode(t, c)
    ensures |s| >= 1 && (c < 256 ==> s == [c]) && (c > 256 ==> |s| <= c - 255)
    decreases c
  {
    if c < 256 then [c]
    else
      assert LinkOk(t, c);
      var f := t.dict[SlotOf(t, c)].fcode;
      Str(t, Prefix(f)) + [Suffix(f)]
  }

  // ----- searching -----

  lemma {:induction false} VacantIsFirstDead(t: Tables, h: nat, key: nat, j: nat)
    requires h < |t.dict| && 1 < |t.dict|
    requires Search(t, h, key, j).Vacant?
    ensures FirstDead(t, h, j) == Some(Search(t, h, key, j).slot)
    decreases |t.dict| - j
  {
    if j < |t.dict| && Live(t, ProbeAt(h, j, |t.dict|)) {
      VacantIsFirstDead(t, h, key, j + 1);
    }
  }

  /** The first n probes meet live slots holding other keys. */
  ghost predicate Misses(t: Tables, h: nat, key: nat, n: nat)
    requires h < |t.dict| && 1 < |t.dict|
  {
    forall i :: 0 <= i < n ==>
      var s := ProbeAt(h, i, |t.dict|);
      Live(t, s) && t.dict[s].fcode != key
  }

  /** What a search result means, before anything is known about the table. */
  lemma {:induction false} SearchOutcome(t: Tables, h: nat, key: nat, j: nat)
    requires h < |t.dict| && 1 < |t.dict| && j <= |t.dict| && Misses(t, h, key, j)
    ensures match Search(t, h, key, j)
      case Found(c) => c >= 1 && exists s :: Live(t, s) && t.dict[s].fcode == key && t.dict[s].codem1 == c - 1
      case Vacant(s) =>
        s < |t.dict| && !Live(t, s) &&
        exists n :: 0 <= n < |t.dict| && ProbeAt(h, n, |t.dict|) == s && Misses(t, h, key, n)
      case Exhausted => Misses(t, h, key, |t.dict|)
    decreases |t.dict| - j
  {
    if j < |t.dict| {
      var s := ProbeAt(h, j, |t.dict|);
      if Live(t, s) && t.dict[s].fcode != key {
        SearchOutcome(t, h, key, j + 1);
      } else if !Live(t, s) {
        assert ProbeAt(h, j, |t.dict|) == s && Misses(t, h, key, j);
      }
    }
  }

  // ----- installing -----

  lemma InstallAtOtherSlot(top: nat, t: Tables, slot: nat, key: nat, s: nat)
    requires t.maxEnt < top <= BAD_CODEM1 && t.maxEnt + 1 < |t.dict| && slot < |t.dict| && s < |t.dict| && s != slot
    requires SlotOk(top, t.dict, s) && SlotOk(top, t.dict, t.maxEnt + 1)
    ensures SlotOk(top, Install(t, slot, key).dict, s) && (Live(Install(t, slot, key), s) <==> Live(t, s))
  {
  }

  /** After an installation exactly the chosen slot has become live, and live slots kept their contents. */
  lemma InstallFrame(cfg: Config, t: Tables, slot: nat, key: nat)
    requires Sound(cfg, t) && Room(cfg, t) && slot < |t.dict| && !Live(t, slot)
    ensures var t' := Install(t, slot, key);
      && (forall s :: Live(t', s) <==> Live(t, s) || s == slot)
      && (forall s :: Live(t, s) ==> t'.dict[s].codem1 == t.dict[s].codem1 && t'.dict[s].fcode == t.dict[s].fcode)
      && t'.dict[slot].codem1 == t.maxEnt && t'.dict[slot].fcode == key
      && (forall c :: 0 <= c < |t.dict| && c != t.maxEnt + 1 ==> t'.dict[c].cptr == t.dict[c].cptr)
      && t'.dict[t.maxEnt + 1].cptr == slot
  {
    var t' := Install(t, slot, key);
    ConfigFacts(cfg);
    forall s | 0 <= s < |t.dict| && s != slot
      ensures Live(t', s) <==> Live(t, s)
    {
      InstallAtOtherSlot(cfg.MaxMaxCode(), t, slot, key, s);
    }
  }

  lemma InstallSound(cfg: Config, t: Tables, slot: nat, key: nat)
    requires Sound(cfg, t) && Room(cfg, t) && slot < |t.dict| && !Live(t, slot)
    ensures Sound(cfg, Install(t, slot, key))
  {
    var t' := Install(t, slot, key);
    ConfigFacts(cfg);
    forall s | 0 <= s < |t'.dict|
      ensures SlotOk(cfg.MaxMaxCode(), t'.dict, s)
    {
      if s != slot {
        InstallAtOtherSlot(cfg.MaxMaxCode(), t, slot, key, s);
      } else {
        assert SlotOk(cfg.MaxMaxCode(), t.dict, s);
      }
    }
  }

  lemma KeyParts(p: nat, c: Byte)
    requires p < 0x1_0000
    ensures Prefix(Key(p, c)) == p && Suffix(Key(p, c)) == c
  {
  }

  /** Code take-over keeps every chain, and the new code's string is its prefix's string and one more byte. */
  lemma InstallChained(cfg: Config, t: Tables, slot: nat, p: nat, c: Byte)
    requires Sound(cfg, t) && Chained(t) && Room(cfg, t) && slot < |t.dict| && !Live(t, slot) && IsCode(t, p)
    ensures var t' := Install(t, slot, Key(p, c));
      && Chained(t')
      && (forall x :: 0 <= x && IsCode(t, x) ==> IsCode(t', x) && Str(t', x) == Str(t, x))
      && Str(t', t'.maxEnt) == Str(t, p) + [c]
  {
    var t' := Install(t, slot, Key(p, c));
    ConfigFacts(cfg);
    KeyParts(p, c);
    InstallFrame(cfg, t, slot, Key(p, c));
    forall x | 256 < x <= t'.maxEnt
      ensures LinkOk(t', x)
    {
      if x < t'.maxEnt {
        assert LinkOk(t, x);
        assert Live(t, SlotOf(t, x));
      }
    }
    forall x | 0 <= x && IsCode(t, x)
      ensures Str(t', x) == Str(t, x)
    {
      InstallKeepsStr(cfg, t, slot, p, c, x);
    }
  }

  lemma {:induction false} InstallKeepsStr(cfg: Config, t: Tables, slot: nat, p: nat, c: Byte, x: nat)
    requires Sound(cfg, t) && Chained(t) && Room(cfg, t) && slot < |t.dict| && !Live(t, slot) && IsCode(t, x)
    requires Chained(Install(t, slot, Key(p, c)))
    ensures Str(Install(t, slot, Key(p, c)), x) == Str(t, x)
    decreases x
  {
    if x > 256 {
      InstallFrame(cfg, t, slot, Key(p, c));
      assert LinkOk(t, x) && Live(t, SlotOf(t, x));
      InstallKeepsStr(cfg, t, slot, p, c, Prefix(t.dict[SlotOf(t, x)].fcode));
    }
  }

  lemma InstallDistinct(cfg: Config, t: Tables, slot: nat, key: nat)
    requires Sound(cfg, t) && Distinct(t) && Room(cfg, t) && slot < |t.dict| && !Live(t, slot)
    requires forall s :: Live(t, s) ==> t.dict[s].fcode != key
    ensures Distinct(Install(t, slot, key))
  {
    InstallFrame(cfg, t, slot, key);
  }

  /** Lazy invalidation and take-over never cut a probe sequence that leads to a live slot. */
  lemma InstallReachable(cfg: Config, t: Tables, slot: nat, key: nat, n: nat)
    requires Sound(cfg, t) && Reachable(cfg, t) && Room(cfg, t) && slot < |t.dict| && !Live(t, slot)
    requires HashOf(cfg, key) < |t.dict| && n < |t.dict| && ReachedBy(t, HashOf(cfg, key), slot, n)
    ensures Reachable(cfg, Install(t, slot, key))
  {
    var t' := Install(t, slot, key);
    InstallFrame(cfg, t, slot, key);
    forall s | Live(t', s)
      ensures var h := HashOf(cfg, t'.dict[s].fcode);
        h < |t'.dict| && exists j :: 0 <= j < |t'.dict| && ReachedBy(t', h, s, j)
    {
      var h := HashOf(cfg, t'.dict[s].fcode);
      if s == slot {
        assert ReachedBy(t', h, s, n);
      } else {
        var j :| 0 <= j < |t.dict| && ReachedBy(t, h, s, j);
        assert ReachedBy(t', h, s, j);
      }
    }
  }

  lemma HashInRange(cfg: Config, p: nat, c: Byte)
    requires ValidConfig(cfg) && p <= cfg.MaxMaxCode()
    ensures Hash(cfg, p, c) < cfg.hsize
  {
    ConfigFacts(cfg);
    assert Pow2(8) == 256;
    ShlBound(c, cfg.hshift, 8);
    var k := if 8 + cfg.hshift < cfg.maxBits then cfg.maxBits else 8 + cfg.hshift;
    Pow2Monotone(8 + cfg.hshift, k);
    Pow2Monotone(cfg.maxBits, k);
    XorBound(Shl(c, cfg.hshift), p, k);
  }

  /** Clearing, widening and starting afresh. */
  lemma ClearedConsistent(cfg: Config, t: Tables)
    requires Sound(cfg, t)
    ensures Consistent(cfg, Cleared(t)) && forall s :: !Live(Cleared(t), s)
  {
    ConfigFacts(cfg);
    assert Pow2(9) == 512;
    forall s | 0 <= s < |t.dict|
      ensures SlotOk(cfg.MaxMaxCode(), t.dict, s) && !Live(Cleared(t), s)
    {
      assert SlotOk(cfg.MaxMaxCode(), t.dict, s);
    }
  }

  lemma FreshConsistent(cfg: Config)
    requires ValidConfig(cfg)
    ensures Consistent(cfg, Fresh(cfg))
  {
    ConfigFacts(cfg);
    assert Pow2(9) == 512;
    assert Sound(cfg, Fresh(cfg));
    ClearedConsistent(cfg, Fresh(cfg));
  }
}

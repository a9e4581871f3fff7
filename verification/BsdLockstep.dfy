/**
 * BSD-Compress as functions on tables and bit strings (RFC 1977, section 2.1 and appendix A), and the proof that the
 * decompressor, one string behind the compressor, rebuilds both the data and the tables.
 */
module BsdLockstep {
  import opened Bits
  import opened BsdTables
  import opened BsdProbing

  // ----- the compressor -----

  datatype Encoded = Encoded(bits: seq<bool>, t: Tables)

  /** A new entry, if there is code space left; codes are widened first when needed. */
  function Grow(cfg: Config, t: Tables, slot: nat, key: nat): Tables
    requires Sound(cfg, t) && slot < |t.dict|
  {
    if t.maxEnt < cfg.MaxMaxCode() then
      ConfigFacts(cfg);
      Install(Widen(cfg, t), slot, key)
    else t
  }

  /** Codes have been widened as far as needed: holds of a table between two packets, whatever the peer sends. */
  ghost predicate Steady(cfg: Config, t: Tables) {
    Sound(cfg, t) && Widen(cfg, t) == t
  }

  /** What both peers keep between packets. */
  ghost predicate Settled(cfg: Config, t: Tables) {
    Consistent(cfg, t) && Widen(cfg, t) == t
  }

  lemma WidenSound(cfg: Config, t: Tables)
    requires Sound(cfg, t)
    ensures Steady(cfg, Widen(cfg, t))
    ensures t.maxEnt < cfg.MaxMaxCode() ==> Room(cfg, Widen(cfg, t))
  {
    ConfigFacts(cfg);
    if Widen(cfg, t) != t && t.nBits >= cfg.maxBits {
      Pow2Monotone(cfg.maxBits, t.nBits);
    }
  }

  lemma WidenConsistent(cfg: Config, t: Tables)
    requires Consistent(cfg, t)
    ensures Settled(cfg, Widen(cfg, t))
    ensures forall x :: 0 <= x && IsCode(t, x) ==> Str(Widen(cfg, t), x) == Str(t, x)
  {
    WidenSound(cfg, t);
    SameButWidth(cfg, t, Widen(cfg, t).nBits);
  }

  /** Nothing but the emitted codes depends on the width. */
  lemma SameButWidth(cfg: Config, t: Tables, n: nat)
    requires Consistent(cfg, t) && MIN_BITS <= n <= cfg.maxBits && t.maxEnt < Pow2(n)
    ensures Consistent(cfg, t.(nBits := n))
    ensures forall x :: 0 <= x && IsCode(t, x) ==> Str(t.(nBits := n), x) == Str(t, x)
  {
    var u := t.(nBits := n);
    forall c | 256 < c <= u.maxEnt
      ensures LinkOk(u, c)
    {
      assert LinkOk(t, c);
    }
    forall s | Live(u, s)
      ensures var h := HashOf(cfg, u.dict[s].fcode);
        h < |u.dict| && exists j :: 0 <= j < |u.dict| && ReachedBy(u, h, s, j)
    {
      var h := HashOf(cfg, u.dict[s].fcode);
      assert Live(t, s);
      var j :| 0 <= j < |t.dict| && ReachedBy(t, h, s, j);
      assert ReachedBy(u, h, s, j);
    }
    forall x | 0 <= x && IsCode(t, x)
      ensures Str(u, x) == Str(t, x)
    {
      SameStr(t, n, x);
    }
  }

  lemma {:induction false} SameStr(t: Tables, n: nat, x: nat)
    requires Chained(t) && Chained(t.(nBits := n)) && IsCode(t, x)
    ensures Str(t.(nBits := n), x) == Str(t, x)
    decreases x
  {
    if x > 256 {
      assert LinkOk(t, x);
      SameStr(t, n, Prefix(t.dict[SlotOf(t, x)].fcode));
    }
  }

  lemma {:induction false} SameSearch(t: Tables, n: nat, h: nat, key: nat, j: nat)
    requires h < |t.dict| && 1 < |t.dict|
    ensures Search(t.(nBits := n), h, key, j) == Search(t, h, key, j)
    ensures FirstDead(t.(nBits := n), h, j) == FirstDead(t, h, j)
    decreases |t.dict| - j
  {
    if j < |t.dict| && Live(t, ProbeAt(h, j, |t.dict|)) {
      SameSearch(t, n, h, key, j + 1);
    }
  }

  /** u holds what t holds and, if there was code space left, the pair (p, c) under the next code. */
  ghost predicate GrownBy(cfg: Config, t: Tables, u: Tables, p: nat, c: Byte) {
    forall q: nat, d: Byte, code: nat ::
      Holds(u, q, d, code) <==>
        Holds(t, q, d, code) || (t.maxEnt < cfg.MaxMaxCode() && Key(q, d) == Key(p, c) && code == t.maxEnt + 1)
  }

  lemma SameHolds(t: Tables, n: nat, p: nat, c: Byte, code: nat)
    ensures Holds(t.(nBits := n), p, c, code) <==> Holds(t, p, c, code)
  {
    var u := t.(nBits := n);
    if Holds(t, p, c, code) {
      var s :| Live(t, s) && t.dict[s].fcode == Key(p, c) && t.dict[s].codem1 == code - 1;
      assert Live(u, s);
    }
    if Holds(u, p, c, code) {
      var s :| Live(u, s) && u.dict[s].fcode == Key(p, c) && u.dict[s].codem1 == code - 1;
      assert Live(t, s);
    }
  }

  /** A miss leaves tables that hold the missed pair as well, under the next code, if there was code space left. */
  lemma GrowConsistent(cfg: Config, t: Tables, p: nat, c: Byte)
    requires Consistent(cfg, t) && IsCode(t, p) && Hash(cfg, p, c) < |t.dict| && 1 < |t.dict|
    requires Search(t, Hash(cfg, p, c), Key(p, c), 0).Vacant?
    ensures var slot := Search(t, Hash(cfg, p, c), Key(p, c), 0).slot;
      && slot < |t.dict|
      && Consistent(cfg, Grow(cfg, t, slot, Key(p, c)))
      && GrownBy(cfg, t, Grow(cfg, t, slot, Key(p, c)), p, c)
  {
    SearchRefinesMap(cfg, t, p, c);
    ConfigFacts(cfg);
    if t.maxEnt < cfg.MaxMaxCode() {
      var u := Widen(cfg, t);
      WidenConsistent(cfg, t);
      SameSearch(t, u.nBits, Hash(cfg, p, c), Key(p, c), 0);
      InstallConsistent(cfg, u, p, c);
      var slot := Search(t, Hash(cfg, p, c), Key(p, c), 0).slot;
      InstallHolds(cfg, u, slot, Key(p, c));
      hide Consistent, Install, Key, Search;
      forall q: nat, d: Byte, code: nat
        ensures Holds(u, q, d, code) <==> Holds(t, q, d, code)
      {
        SameHolds(t, u.nBits, q, d, code);
      }
    }
  }

  /** On any table met in practice a search ends, and both its outcomes can be used. */
  lemma SearchSound(cfg: Config, t: Tables, p: nat, c: Byte)
    requires Sound(cfg, t) && IsCode(t, p)
    ensures Hash(cfg, p, c) < |t.dict| && 1 < |t.dict|
    ensures var r := Search(t, Hash(cfg, p, c), Key(p, c), 0);
      && !r.Exhausted?
      && (r.Found? ==> IsCode(t, r.code) && r.code > 256)
      && (r.Vacant? ==> r.slot < |t.dict| && !Live(t, r.slot))
  {
    HashInRange(cfg, p, c);
    ConfigFacts(cfg);
    var h, key := Hash(cfg, p, c), Key(p, c);
    SearchOutcome(t, h, key, 0);
    SomeProbeIsDead(cfg, t, h);
    if Search(t, h, key, 0).Found? {
      var s :| Live(t, s) && t.dict[s].codem1 == Search(t, h, key, 0).code - 1;
      CodeOfLiveSlot(cfg, t, s);
    }
  }

  lemma GrowSound(cfg: Config, t: Tables, slot: nat, key: nat)
    requires Sound(cfg, t) && slot < |t.dict| && !Live(t, slot)
    ensures Sound(cfg, Grow(cfg, t, slot, key))
    ensures Grow(cfg, t, slot, key).maxEnt == if t.maxEnt < cfg.MaxMaxCode() then t.maxEnt + 1 else t.maxEnt
  {
    ConfigFacts(cfg);
    WidenSound(cfg, t);
    if t.maxEnt < cfg.MaxMaxCode() {
      InstallSound(cfg, Widen(cfg, t), slot, key);
    }
  }

  /** The bits of the codes for the string of ent followed by data, and the tables afterwards. */
  ghost function Encode(cfg: Config, t: Tables, ent: nat, data: seq<Byte>): (e: Encoded)
    requires Sound(cfg, t) && IsCode(t, ent)
    ensures Sound(cfg, e.t)
    decreases |data|
  {
    if data == [] then Encoded(OfNat(ent, t.nBits), t)
    else
      var c := data[0];
      var h, key := Hash(cfg, ent, c), Key(ent, c);
      SearchSound(cfg, t, ent, c);
      match Search(t, h, key, 0)
      case Found(code) => Encode(cfg, t, code, data[1..])
      case Vacant(slot) =>
        GrowSound(cfg, t, slot, key);
        var e := Encode(cfg, Grow(cfg, t, slot, key), c, data[1..]);
        Encoded(OfNat(ent, t.nBits) + e.bits, e.t)
      case Exhausted => assert false; Encoded([], t)
  }

  lemma {:induction false} EncodeConsistent(cfg: Config, t: Tables, ent: nat, data: seq<Byte>)
    requires Consistent(cfg, t) && IsCode(t, ent)
    ensures Consistent(cfg, Encode(cfg, t, ent, data).t)
    decreases |data|
  {
    if data != [] {
      var c := data[0];
      SearchSound(cfg, t, ent, c);
      match Search(t, Hash(cfg, ent, c), Key(ent, c), 0)
      case Found(code) =>
        EncodeConsistent(cfg, t, code, data[1..]);
      case Vacant(slot) =>
        GrowConsistent(cfg, t, ent, c);
        EncodeConsistent(cfg, Grow(cfg, t, slot, Key(ent, c)), c, data[1..]);
    }
  }

  /** A whole packet: the codes, then CLEAR when the sender has decided to clear a full dictionary. */
  ghost function EncodePacket(cfg: Config, t: Tables, proto: Byte, data: seq<Byte>, clear: bool): Encoded
    requires Sound(cfg, t)
  {
    var e := Encode(cfg, t, proto, data);
    if clear then Encoded(e.bits + OfNat(CLEAR, e.t.nBits), Cleared(e.t)) else Encoded(e.bits, Widen(cfg, e.t))
  }

  lemma EncodePacketSettled(cfg: Config, t: Tables, proto: Byte, data: seq<Byte>, clear: bool)
    requires Settled(cfg, t)
    ensures Settled(cfg, EncodePacket(cfg, t, proto, data, clear).t)
  {
    EncodeConsistent(cfg, t, proto, data);
    var u := Encode(cfg, t, proto, data).t;
    WidenConsistent(cfg, u);
    ClearedSettled(cfg, u);
  }

  lemma ClearedSettled(cfg: Config, t: Tables)
    requires Sound(cfg, t)
    ensures Settled(cfg, Cleared(t))
  {
    ClearedConsistent(cfg, t);
    assert Pow2(9) == 512;
    ConfigFacts(cfg);
  }

  // ----- the decompressor -----

  /**
   * Malformed: a code two above the largest one in use was met, which the checks let through but no compressor sends.
   */
  datatype Decoded = Ok(out: seq<Byte>, t: Tables, cleared: bool) | Fatal | Malformed {
    function Prepend(s: seq<Byte>): Decoded {
      match this
      case Ok(out, t, cleared) => Ok(s + out, t, cleared)
      case _ => this
    }
  }

  /** The entry made for the previous code and the first byte of the string after it. */
  function Advance(cfg: Config, t: Tables, prev: Option<nat>, c: Byte): Tables
    requires Steady(cfg, t) && (prev.Some? ==> prev.value <= cfg.MaxMaxCode())
  {
    if prev.Some? && t.maxEnt < cfg.MaxMaxCode() then
      HashInRange(cfg, prev.value, c);
      ConfigFacts(cfg);
      FirstDeadFound(cfg, t, Hash(cfg, prev.value, c), 0);
      Install(t, FirstDead(t, Hash(cfg, prev.value, c), 0).value, Key(prev.value, c))
    else t
  }

  /**
   * The string a received code stands for; the code after the newest is the previous string and its first byte again.
   */
  ghost function Meaning(t: Tables, prev: Option<nat>, code: nat): (s: seq<Byte>)
    requires Chained(t) && (IsCode(t, code) || (prev.Some? && IsCode(t, prev.value)))
    ensures |s| >= 1
  {
    if IsCode(t, code) then Str(t, code) else Str(t, prev.value) + [Str(t, prev.value)[0]]
  }

  lemma AdvanceKeeps(cfg: Config, t: Tables, prev: Option<nat>, c: Byte)
    requires Steady(cfg, t) && Chained(t) && (prev.Some? ==> IsCode(t, prev.value))
    ensures var u := Advance(cfg, t, prev, c);
      && Sound(cfg, u) && Chained(u)
      && Steady(cfg, Widen(cfg, u)) && Chained(Widen(cfg, u))
      && u.maxEnt == (if prev.Some? && t.maxEnt < cfg.MaxMaxCode() then t.maxEnt + 1 else t.maxEnt)
  {
    var u := Advance(cfg, t, prev, c);
    if prev.Some? && t.maxEnt < cfg.MaxMaxCode() {
      var h := Hash(cfg, prev.value, c);
      HashInRange(cfg, prev.value, c);
      ConfigFacts(cfg);
      FirstDeadFound(cfg, t, h, 0);
      var slot := FirstDead(t, h, 0).value;
      InstallSound(cfg, t, slot, Key(prev.value, c));
      InstallChained(cfg, t, slot, prev.value, c);
    }
    var w := Widen(cfg, u);
    WidenSound(cfg, u);
    forall x | 256 < x <= w.maxEnt
      ensures LinkOk(w, x)
    {
      assert LinkOk(u, x);
    }
  }

  /** Decoding a bit string into at most room bytes; less than one code at the end is padding. */
  ghost function Decode(cfg: Config, t: Tables, prev: Option<nat>, bits: seq<bool>, room: nat): Decoded
    requires Steady(cfg, t) && Chained(t) && (prev.Some? ==> IsCode(t, prev.value))
    decreases |bits|
  {
    if |bits| < t.nBits then Ok([], t, false)
    else
      var code, rest := ToNat(bits[..t.nBits]), bits[t.nBits..];
      if code == CLEAR then
        if |rest| >= 8 then Fatal else Ok([], Cleared(t), true)
      else if code > t.maxEnt + 2 || code > cfg.MaxMaxCode() || (code > t.maxEnt && prev.None?) then Fatal
      else if code == t.maxEnt + 2 then Malformed
      else
        var s := Meaning(t, prev, code);
        if |s| > room then Fatal
        else
          AdvanceKeeps(cfg, t, prev, s[0]);
          Decode(cfg, Widen(cfg, Advance(cfg, t, prev, s[0])), Some(code), rest, room - |s|).Prepend(s)
  }

  // ----- the receiver is one string behind -----

  lemma AdvanceString(cfg: Config, t: Tables, prev: Option<nat>, c: Byte)
    requires Steady(cfg, t) && Chained(t) && (prev.Some? ==> IsCode(t, prev.value))
    ensures var u := Advance(cfg, t, prev, c);
      && Chained(u) && u.nBits == t.nBits
      && (forall x :: 0 <= x && IsCode(t, x) ==> IsCode(u, x) && Str(u, x) == Str(t, x))
      && (forall x :: 0 <= x && IsCode(u, x) && !IsCode(t, x) ==>
        prev.Some? && Str(u, x) == Str(t, prev.value) + [c] && x == t.maxEnt + 1 <= cfg.MaxMaxCode())
  {
    if prev.Some? && t.maxEnt < cfg.MaxMaxCode() {
      var h := Hash(cfg, prev.value, c);
      HashInRange(cfg, prev.value, c);
      ConfigFacts(cfg);
      FirstDeadFound(cfg, t, h, 0);
      InstallChained(cfg, t, FirstDead(t, h, 0).value, prev.value, c);
    }
  }

  lemma DecodeKnown(cfg: Config, t: Tables, prev: Option<nat>, code: nat, rest: seq<bool>, room: nat)
    requires Steady(cfg, t) && Chained(t) && (prev.Some? ==> IsCode(t, prev.value))
    requires code < Pow2(t.nBits) && (IsCode(t, code) || (prev.Some? && code == t.maxEnt + 1 <= cfg.MaxMaxCode()))
    requires |Meaning(t, prev, code)| <= room
    ensures var s := Meaning(t, prev, code);
      var u := Widen(cfg, Advance(cfg, t, prev, s[0]));
      && Steady(cfg, u) && Chained(u) && IsCode(u, code)
      && Decode(cfg, t, prev, OfNat(code, t.nBits) + rest, room)
        == Decode(cfg, u, Some(code), rest, room - |s|).Prepend(s)
  {
    hide Str, Install, FirstDead, Hash, SlotOk, LinkOk, Advance, Pow2, OfNat, ToNat;
    var bits := OfNat(code, t.nBits) + rest;
    assert bits[..t.nBits] == OfNat(code, t.nBits) && bits[t.nBits..] == rest;
    ToNatOfNat(code, t.nBits);
    AdvanceKeeps(cfg, t, prev, Meaning(t, prev, code)[0]);
  }

  /**
   * One code. The compressor's tables te are the decompressor's td with the entry for the previous string, whose last
   * byte the decompressor learns only now, as the first byte of this string.
   */
  lemma DecodeOne(cfg: Config, td: Tables, prev: Option<nat>, te: Tables, ent: nat, rest: seq<bool>, room: nat)
    requires Steady(cfg, td) && Chained(td) && (prev.Some? ==> IsCode(td, prev.value))
    requires Consistent(cfg, te) && IsCode(te, ent) && te == Advance(cfg, td, prev, Str(te, ent)[0])
    requires |Str(te, ent)| <= room
    ensures Settled(cfg, Widen(cfg, te)) && IsCode(Widen(cfg, te), ent)
    ensures Decode(cfg, td, prev, OfNat(ent, te.nBits) + rest, room)
         == Decode(cfg, Widen(cfg, te), Some(ent), rest, room - |Str(te, ent)|).Prepend(Str(te, ent))
  {
    hide Str, Advance, Decode, Distinct, Reachable, SlotOk, LinkOk;
    WidenConsistent(cfg, te);
    var c := Str(te, ent)[0];
    AdvanceString(cfg, td, prev, c);
    StrBeginsAt(cfg, td, prev, te, ent);
    DecodeKnown(cfg, td, prev, ent, rest, room);
  }

  /** The string of the newest code, when it is sent at once, is the previous string and its own first byte. */
  lemma StrBeginsAt(cfg: Config, td: Tables, prev: Option<nat>, te: Tables, ent: nat)
    requires Steady(cfg, td) && Chained(td) && (prev.Some? ==> IsCode(td, prev.value))
    requires Chained(te) && IsCode(te, ent) && te == Advance(cfg, td, prev, Str(te, ent)[0])
    ensures IsCode(td, ent) || (prev.Some? && ent == td.maxEnt + 1 <= cfg.MaxMaxCode())
    ensures Meaning(td, prev, ent) == Str(te, ent)
  {
    AdvanceString(cfg, td, prev, Str(te, ent)[0]);
  }

  /** What may follow the last data code: padding, or CLEAR and padding. */
  ghost predicate TailOk(t: Tables, tail: seq<bool>) {
    |tail| < 8 || (t.nBits <= |tail| < t.nBits + 8 && tail[..t.nBits] == OfNat(CLEAR, t.nBits))
  }

  ghost function AfterTail(t: Tables, tail: seq<bool>): Tables {
    if |tail| < 8 then t else Cleared(t)
  }

  lemma DecodeTail(cfg: Config, t: Tables, prev: Option<nat>, tail: seq<bool>, room: nat)
    requires Settled(cfg, t) && (prev.Some? ==> IsCode(t, prev.value)) && TailOk(t, tail)
    ensures Decode(cfg, t, prev, tail, room) == Ok([], AfterTail(t, tail), |tail| >= 8)
  {
    if |tail| >= 8 {
      ToNatOfNat(CLEAR, t.nBits);
    }
  }

  /** A match keeps the string and its first byte. */
  lemma MatchExtends(cfg: Config, t: Tables, ent: nat, c: Byte)
    requires Consistent(cfg, t) && IsCode(t, ent) && Hash(cfg, ent, c) < |t.dict| && 1 < |t.dict|
    requires Search(t, Hash(cfg, ent, c), Key(ent, c), 0).Found?
    ensures var code := Search(t, Hash(cfg, ent, c), Key(ent, c), 0).code;
      IsCode(t, code) && Str(t, code) == Str(t, ent) + [c] && Str(t, code)[0] == Str(t, ent)[0]
  {
    SearchRefinesMap(cfg, t, ent, c);
    ConfigFacts(cfg);
    KeyParts(ent, c);
  }

  /** Entering the missed pair is what the receiver will do when it sees the first byte of the next string. */
  lemma GrowIsAdvance(cfg: Config, t: Tables, ent: nat, c: Byte)
    requires Consistent(cfg, t) && IsCode(t, ent) && Hash(cfg, ent, c) < |t.dict| && 1 < |t.dict|
    requires Search(t, Hash(cfg, ent, c), Key(ent, c), 0).Vacant?
    ensures var slot := Search(t, Hash(cfg, ent, c), Key(ent, c), 0).slot;
      && slot < |t.dict|
      && Steady(cfg, Widen(cfg, t))
      && ent <= cfg.MaxMaxCode()
      && Grow(cfg, t, slot, Key(ent, c)) == Advance(cfg, Widen(cfg, t), Some(ent), c)
  {
    SearchRefinesMap(cfg, t, ent, c);
    ConfigFacts(cfg);
    WidenConsistent(cfg, t);
    SameSearch(t, Widen(cfg, t).nBits, Hash(cfg, ent, c), Key(ent, c), 0);
  }

  /** The sender's tables te are the receiver's tables td with the entry the receiver makes on the next string. */
  ghost predicate Behind(cfg: Config, td: Tables, prev: Option<nat>, te: Tables, ent: nat) {
    Steady(cfg, td) && Chained(td) && (prev.Some? ==> IsCode(td, prev.value)) &&
    Consistent(cfg, te) && IsCode(te, ent) && te == Advance(cfg, td, prev, Str(te, ent)[0])
  }

  ghost predicate Rebuilds(cfg: Config, td: Tables, prev: Option<nat>, te: Tables, ent: nat, data: seq<Byte>,
                           tail: seq<bool>, room: nat)
    requires Behind(cfg, td, prev, te, ent)
  {
    var e := Encode(cfg, te, ent, data);
    Decode(cfg, td, prev, e.bits + tail, room) == Ok(Str(te, ent) + data, AfterTail(Widen(cfg, e.t), tail), |tail| >= 8)
  }

  /** The receiver rebuilds the data and ends with the sender's tables, whatever the split into codes. */
  lemma {:induction false} Lockstep(cfg: Config, td: Tables, prev: Option<nat>, te: Tables, ent: nat, data: seq<Byte>,
                                    tail: seq<bool>, room: nat)
    requires Behind(cfg, td, prev, te, ent) && |Str(te, ent)| + |data| <= room
    requires TailOk(Widen(cfg, Encode(cfg, te, ent, data).t), tail)
    ensures Rebuilds(cfg, td, prev, te, ent, data, tail, room)
    decreases |data|
  {
    hide Decode, Sound, Chained, Distinct, Reachable, Search, FirstDead;
    if data == [] {
      EndRebuilds(cfg, td, prev, te, ent, tail, room);
    } else {
      var c, rest := data[0], data[1..];
      var s := Str(te, ent);
      SearchRefinesMap(cfg, te, ent, c);
      var hit := Search(te, Hash(cfg, ent, c), Key(ent, c), 0);
      if hit.Found? {
        MatchExtends(cfg, te, ent, c);
        EncodeMatch(cfg, te, ent, data);
        Lockstep(cfg, td, prev, te, hit.code, rest, tail, room);
        MatchRebuilds(cfg, td, prev, te, ent, hit.code, data, tail, room);
      } else {
        GrowConsistent(cfg, te, ent, c);
        GrowIsAdvance(cfg, te, ent, c);
        var te' := Grow(cfg, te, hit.slot, Key(ent, c));
        EncodeMiss(cfg, te, ent, data);
        DecodeOne(cfg, td, prev, te, ent, [], room);
        Lockstep(cfg, Widen(cfg, te), Some(ent), te', c, rest, tail, room - |s|);
        MissRebuilds(cfg, td, prev, te, ent, data, tail, room, Encode(cfg, te', c, rest));
      }
    }
  }

  lemma Regroup(s: seq<Byte>, data: seq<Byte>)
    requires data != []
    ensures s + [data[0]] + data[1..] == s + data
    ensures s + ([data[0]] + data[1..]) == s + data
  {
    assert [data[0]] + data[1..] == data;
  }

  lemma EncodeMatch(cfg: Config, t: Tables, ent: nat, data: seq<Byte>)
    requires Sound(cfg, t) && IsCode(t, ent) && data != [] && Hash(cfg, ent, data[0]) < |t.dict| && 1 < |t.dict|
    requires Search(t, Hash(cfg, ent, data[0]), Key(ent, data[0]), 0).Found?
    ensures var code := Search(t, Hash(cfg, ent, data[0]), Key(ent, data[0]), 0).code;
      IsCode(t, code) && Encode(cfg, t, ent, data) == Encode(cfg, t, code, data[1..])
  {
    SearchSound(cfg, t, ent, data[0]);
  }

  lemma EncodeMiss(cfg: Config, t: Tables, ent: nat, data: seq<Byte>)
    requires Sound(cfg, t) && IsCode(t, ent) && data != [] && Hash(cfg, ent, data[0]) < |t.dict| && 1 < |t.dict|
    requires Search(t, Hash(cfg, ent, data[0]), Key(ent, data[0]), 0).Vacant?
    ensures var slot := Search(t, Hash(cfg, ent, data[0]), Key(ent, data[0]), 0).slot;
      && slot < |t.dict| && Sound(cfg, Grow(cfg, t, slot, Key(ent, data[0])))
      && var e := Encode(cfg, Grow(cfg, t, slot, Key(ent, data[0])), data[0], data[1..]);
      Encode(cfg, t, ent, data) == Encoded(OfNat(ent, t.nBits) + e.bits, e.t)
  {
    SearchSound(cfg, t, ent, data[0]);
    GrowSound(cfg, t, Search(t, Hash(cfg, ent, data[0]), Key(ent, data[0]), 0).slot, Key(ent, data[0]));
  }

  lemma EndRebuilds(cfg: Config, td: Tables, prev: Option<nat>, te: Tables, ent: nat, tail: seq<bool>, room: nat)
    requires Behind(cfg, td, prev, te, ent) && |Str(te, ent)| <= room && TailOk(Widen(cfg, te), tail)
    ensures Rebuilds(cfg, td, prev, te, ent, [], tail, room)
  {
    hide Decode, Str, Sound, Chained, Distinct, Reachable;
    DecodeOne(cfg, td, prev, te, ent, tail, room);
    DecodeTail(cfg, Widen(cfg, te), Some(ent), tail, room - |Str(te, ent)|);
  }

  lemma MatchRebuilds(cfg: Config, td: Tables, prev: Option<nat>, te: Tables, ent: nat, code: nat, data: seq<Byte>,
                      tail: seq<bool>, room: nat)
    requires Behind(cfg, td, prev, te, ent) && Behind(cfg, td, prev, te, code) && data != []
    requires Str(te, code) == Str(te, ent) + [data[0]]
    requires Encode(cfg, te, ent, data) == Encode(cfg, te, code, data[1..])
    requires Rebuilds(cfg, td, prev, te, code, data[1..], tail, room)
    ensures Rebuilds(cfg, td, prev, te, ent, data, tail, room)
  {
    hide Decode, Encode, Str, Sound, Chained, Distinct, Reachable;
    Regroup(Str(te, ent), data);
  }

  /** The emitted code is decoded first; e is what the sender does from there on. */
  lemma MissRebuilds(cfg: Config, td: Tables, prev: Option<nat>, te: Tables, ent: nat, data: seq<Byte>,
                     tail: seq<bool>, room: nat, e: Encoded)
    requires Behind(cfg, td, prev, te, ent) && |Str(te, ent)| <= room && data != []
    requires Encode(cfg, te, ent, data) == Encoded(OfNat(ent, te.nBits) + e.bits, e.t)
    requires Settled(cfg, Widen(cfg, te)) && IsCode(Widen(cfg, te), ent)
    requires Decode(cfg, Widen(cfg, te), Some(ent), e.bits + tail, room - |Str(te, ent)|)
          == Ok([data[0]] + data[1..], AfterTail(Widen(cfg, e.t), tail), |tail| >= 8)
    ensures Rebuilds(cfg, td, prev, te, ent, data, tail, room)
  {
    hide Decode, Encode, Str, Sound, Chained, Distinct, Reachable;
    Regroup(Str(te, ent), data);
    DecodeThen(cfg, td, prev, te, ent, e.bits + tail, room, [data[0]] + data[1..], AfterTail(Widen(cfg, e.t), tail),
      |tail| >= 8);
    assert OfNat(ent, te.nBits) + e.bits + tail == OfNat(ent, te.nBits) + (e.bits + tail);
  }

  lemma DecodeThen(cfg: Config, td: Tables, prev: Option<nat>, te: Tables, ent: nat, bits: seq<bool>, room: nat,
                   out: seq<Byte>, t: Tables, cleared: bool)
    requires Behind(cfg, td, prev, te, ent) && |Str(te, ent)| <= room
    requires Settled(cfg, Widen(cfg, te)) && IsCode(Widen(cfg, te), ent)
    requires Decode(cfg, Widen(cfg, te), Some(ent), bits, room - |Str(te, ent)|) == Ok(out, t, cleared)
    ensures Decode(cfg, td, prev, OfNat(ent, te.nBits) + bits, room) == Ok(Str(te, ent) + out, t, cleared)
  {
    hide Decode, Encode, Str, Sound, Chained, Distinct, Reachable;
    DecodeOne(cfg, td, prev, te, ent, bits, room);
  }

  /** Dribble bits of the last byte are ones. */
  function Padding(n: nat): (p: seq<bool>)
    ensures |p| < 8 && (n + |p|) % 8 == 0
  {
    Ones((8 - n % 8) % 8)
  }

  function Padded(bits: seq<bool>): (p: seq<bool>)
    ensures |p| % 8 == 0
  {
    bits + Padding(|bits|)
  }

  /** One packet, from equal tables between packets: the data come back and the tables are equal again. */
  lemma PacketRoundTrip(cfg: Config, t: Tables, proto: Byte, data: seq<Byte>, clear: bool, room: nat)
    requires Settled(cfg, t) && 1 + |data| <= room
    requires clear ==> Encode(cfg, t, proto, data).t.maxEnt >= cfg.MaxMaxCode()
    ensures var e := EncodePacket(cfg, t, proto, data, clear);
      Decode(cfg, t, None, e.bits + Padding(|e.bits|), room) == Ok([proto] + data, e.t, clear)
  {
    var e := Encode(cfg, t, proto, data);
    var p := EncodePacket(cfg, t, proto, data, clear);
    EncodeConsistent(cfg, t, proto, data);
    WidenConsistent(cfg, e.t);
    var tail := (if clear then OfNat(CLEAR, e.t.nBits) else []) + Padding(|p.bits|);
    if clear {
      assert tail[..e.t.nBits] == OfNat(CLEAR, e.t.nBits);
    }
    Lockstep(cfg, t, None, t, proto, data, tail, room);
    assert p.bits + Padding(|p.bits|) == e.bits + tail;
  }
}
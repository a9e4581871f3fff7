/**
 * The format of a compressed packet on the wire (RFC 1977, section 2.1): how many bits each code has, the header, an
 * in-band CLEAR and the padding. Nothing here speaks of how the code width is kept.
 */
module BsdWidths {
  import opened Bits
  import opened BsdTables
  import opened BsdProbing
  import opened BsdLockstep
  import opened BsdCodec
  import opened BsdRuns

  /** The number of binary digits. */
  function Digits(n: nat): nat { if n == 0 then 0 else 1 + Digits(n / 2) }

  /** The least width, from nine bits on, in which a number can be written. */
  function WidthOf(m: nat): nat { if Digits(m) < 9 then 9 else Digits(m) }

  /** The largest code in use after k more entries. */
  function Largest(cfg: Config, m: nat, k: nat): nat { if m + k < cfg.MaxMaxCode() then m + k else cfg.MaxMaxCode() }

  /**
   * The width of code k of a packet that begins with m as the largest code: the first code is wide enough for the entry
   * that comes next, if there is one, all others for the largest code in use when they are sent.
   */
  function WidthAt(cfg: Config, m: nat, k: nat): nat {
    if k == 0 then WidthOf(Largest(cfg, m, 1)) else WidthOf(Largest(cfg, m, k))
  }

  /** Between packets the code width is that of the next entry. */
  predicate Between(cfg: Config, t: Tables) { t.nBits == WidthOf(Largest(cfg, t.maxEnt, 1)) }

  /** Within a packet it is that of the largest code. */
  predicate Within(t: Tables) { t.nBits == WidthOf(t.maxEnt) }

  // ----- widths and powers of two -----

  lemma {:induction false} DigitsIs(n: nat, w: nat)
    ensures Digits(n) <= w <==> n < Pow2(w)
    decreases w
  {
    if n > 0 && w > 0 {
      DigitsIs(n / 2, w - 1);
    }
  }

  lemma LeastWidth(m: nat)
    ensures WidthOf(m) >= 9 && m < Pow2(WidthOf(m))
    ensures WidthOf(m) > 9 ==> Pow2(WidthOf(m) - 1) <= m
  {
    DigitsIs(m, WidthOf(m));
    DigitsIs(m, WidthOf(m) - 1);
  }

  lemma WidthIs(m: nat, w: nat)
    requires w >= 9 && m < Pow2(w) && (w > 9 ==> Pow2(w - 1) <= m)
    ensures WidthOf(m) == w
  {
    DigitsIs(m, w);
    DigitsIs(m, w - 1);
  }

  /** The next number needs one bit more exactly if this one has nothing but ones. */
  lemma NextWidth(m: nat)
    ensures WidthOf(m + 1) == if m + 1 >= Pow2(WidthOf(m)) then WidthOf(m) + 1 else WidthOf(m)
  {
    LeastWidth(m);
    var w := WidthOf(m);
    if m + 1 >= Pow2(w) {
      WidthIs(m + 1, w + 1);
    } else {
      WidthIs(m + 1, w);
    }
  }

  lemma FullWidth(cfg: Config)
    requires ValidConfig(cfg)
    ensures WidthOf(cfg.MaxMaxCode()) == cfg.maxBits
  {
    Pow2Monotone(9, cfg.maxBits);
    WidthIs(cfg.MaxMaxCode(), cfg.maxBits);
  }

  /**
   * The law of the width between packets: above nine bits only when the next entry needs it, and always enough for the
   * next entry.
   */
  lemma BetweenLaw(cfg: Config, t: Tables)
    requires Sound(cfg, t) && Between(cfg, t)
    ensures t.nBits > MIN_BITS && t.maxEnt < cfg.MaxMaxCode() ==> t.maxEnt >= Pow2(t.nBits - 1) - 1
    ensures t.nBits < cfg.maxBits ==> t.maxEnt < Pow2(t.nBits) - 1
  {
    LeastWidth(Largest(cfg, t.maxEnt, 1));
    FullWidth(cfg);
  }

  lemma WithinLaw(t: Tables)
    requires Within(t)
    ensures t.maxEnt < Pow2(t.nBits) && (t.nBits > MIN_BITS ==> t.maxEnt >= Pow2(t.nBits - 1))
  {
    LeastWidth(t.maxEnt);
  }

  lemma FreshBetween(cfg: Config)
    requires ValidConfig(cfg)
    ensures Between(cfg, Fresh(cfg))
  {
    ConfigFacts(cfg);
    assert Pow2(9) == 512;
    WidthIs(257, 9);
  }

  /** A new entry, whether it is the first of its packet or not. */
  lemma GrowWithin(cfg: Config, t: Tables, slot: nat, key: nat)
    requires Sound(cfg, t) && slot < |t.dict| && !Live(t, slot) && (Between(cfg, t) || Within(t))
    ensures var u := Grow(cfg, t, slot, key);
      Within(u) && u.maxEnt == Largest(cfg, t.maxEnt, 1)
  {
    hide SlotOk, WidthOf, Install, Live;
    GrowShape(cfg, t, slot, key);
    LeastWidth(t.maxEnt + 1);
    NextWidth(t.maxEnt);
    hide Grow;
  }

  lemma GrowShape(cfg: Config, t: Tables, slot: nat, key: nat)
    requires Sound(cfg, t) && slot < |t.dict|
    ensures var u := Grow(cfg, t, slot, key);
      if t.maxEnt < cfg.MaxMaxCode() then u.maxEnt == t.maxEnt + 1 && u.nBits == Widen(cfg, t).nBits else u == t
  {
    hide SlotOk, MaxCode;
    ConfigFacts(cfg);
  }

  /** The end of a packet. */
  lemma WidenBetween(cfg: Config, t: Tables)
    requires Sound(cfg, t) && (Between(cfg, t) || Within(t))
    ensures Between(cfg, Widen(cfg, t))
  {
    hide SlotOk, WidthOf, Pow2;
    LeastWidth(t.maxEnt + 1);
    NextWidth(t.maxEnt);
    hide Sound;
  }

  // ----- the codes of a packet -----

  /** The codes that a packet is sent as. */
  ghost function Codes(cfg: Config, t: Tables, ent: nat, data: seq<Byte>): (codes: seq<nat>)
    requires Sound(cfg, t) && IsCode(t, ent)
    ensures codes != []
    decreases |data|
  {
    if data == [] then [ent]
    else
      var c := data[0];
      var h, key := Hash(cfg, ent, c), Key(ent, c);
      SearchSound(cfg, t, ent, c);
      match Search(t, h, key, 0)
      case Found(code) => Codes(cfg, t, code, data[1..])
      case Vacant(slot) =>
        GrowSound(cfg, t, slot, key);
        [ent] + Codes(cfg, Grow(cfg, t, slot, key), c, data[1..])
      case Exhausted => assert false; [ent]
  }

  /** Codes one after the other, of which the first is code k of its packet, each in its own width. */
  function Written(cfg: Config, codes: seq<nat>, m: nat, k: nat): (bits: seq<bool>) {
    if codes == [] then [] else OfNat(codes[0], WidthAt(cfg, m, k)) + Written(cfg, codes[1..], m, k + 1)
  }

  /** Tables that are met when code k of a packet is about to be sent. */
  predicate AtCode(cfg: Config, t: Tables, m: nat, k: nat) {
    t.maxEnt == Largest(cfg, m, k) && t.nBits == WidthAt(cfg, m, k)
  }

  lemma NextCode(cfg: Config, t: Tables, m: nat, k: nat, slot: nat, key: nat)
    requires Sound(cfg, t) && m <= cfg.MaxMaxCode() && AtCode(cfg, t, m, k) && slot < |t.dict| && !Live(t, slot)
    ensures AtCode(cfg, Grow(cfg, t, slot, key), m, k + 1)
  {
    GrowWithin(cfg, t, slot, key);
    hide Grow, Sound, WidthOf;
  }

  /** Each code of a packet is sent in just the width that its place in the packet asks for. */
  lemma {:induction false} EncodeWritten(cfg: Config, t: Tables, ent: nat, data: seq<Byte>, m: nat, k: nat)
    requires Sound(cfg, t) && IsCode(t, ent) && m <= cfg.MaxMaxCode() && AtCode(cfg, t, m, k)
    ensures var codes, e := Codes(cfg, t, ent, data), Encode(cfg, t, ent, data);
      e.bits == Written(cfg, codes, m, k) && AtCode(cfg, e.t, m, k + |codes| - 1)
    decreases |data|
  {
    hide Sound, AtCode, Search, Hash, Grow, WidthAt, Key;
    if data == [] {
      assert Written(cfg, [ent], m, k) == OfNat(ent, WidthAt(cfg, m, k)) + Written(cfg, [], m, k + 1);
      CodeWidth(cfg, t, m, k);
    } else {
      var c := data[0];
      SearchSound(cfg, t, ent, c);
      var hit := Search(t, Hash(cfg, ent, c), Key(ent, c), 0);
      if hit.Found? {
        EncodeWritten(cfg, t, hit.code, data[1..], m, k);
      } else {
        var u := Grow(cfg, t, hit.slot, Key(ent, c));
        GrowSound(cfg, t, hit.slot, Key(ent, c));
        NextCode(cfg, t, m, k, hit.slot, Key(ent, c));
        EncodeWritten(cfg, u, c, data[1..], m, k + 1);
        CodeWidth(cfg, t, m, k);
        var rest := Codes(cfg, u, c, data[1..]);
        assert Codes(cfg, t, ent, data) == [ent] + rest;
        assert ([ent] + rest)[1..] == rest;
      }
    }
  }

  lemma CodeWidth(cfg: Config, t: Tables, m: nat, k: nat)
    requires AtCode(cfg, t, m, k)
    ensures t.nBits == WidthAt(cfg, m, k)
  {
  }

  // ----- the packet on the wire -----

  /** All bits are ones, and there are fewer than a byte of them. */
  predicate Dribble(p: seq<bool>) { |p| < 8 && forall i :: 0 <= i < |p| ==> p[i] }

  /**
   * A frame is the sequence number in two bytes, the codes of the packet, code 256 in the full width if the dictionary
   * is cleared, and ones up to the end of the last byte.
   */
  lemma FrameFormat(cfg: Config, t: Tables, seqno: nat, proto: Byte, data: seq<Byte>, clear: bool, room: nat)
    returns (padding: seq<bool>)
    requires Sound(cfg, t) && Between(cfg, t) && seqno < 0x1_0000 && room >= 2
    requires clear ==> Encode(cfg, t, proto, data).t.maxEnt >= cfg.MaxMaxCode()
    ensures Dribble(padding)
    ensures BytesToBits(Frame(cfg, t, seqno, proto, data, clear, room)) ==
      OfNat(seqno, 16) + Written(cfg, Codes(cfg, t, proto, data), t.maxEnt, 0) +
      (if clear then OfNat(256, cfg.maxBits) else []) + padding
  {
    hide Encode, Codes, Written, Pack, SlotOk, OfNat, Frame, EncodePacket, AtCode, BytesToBits;
    var m := t.maxEnt;
    var e := Encode(cfg, t, proto, data);
    BetweenAt(cfg, t);
    EncodeWritten(cfg, t, proto, data, m, 0);
    ClearWidth(cfg, e.t, m, |Codes(cfg, t, proto, data)| - 1);
    var bits := EncodePacket(cfg, t, proto, data, clear).bits;
    padding := Padding(|bits|);
    FrameBits(cfg, t, seqno, proto, data, clear, room);
    PacketBits(cfg, t, proto, data, clear);
    Associate(OfNat(seqno, 16), e.bits, if clear then OfNat(256, cfg.maxBits) else [], padding);
  }

  lemma BetweenAt(cfg: Config, t: Tables)
    requires Sound(cfg, t) && Between(cfg, t)
    ensures AtCode(cfg, t, t.maxEnt, 0)
  {
    hide WidthOf;
  }

  lemma Associate(a: seq<bool>, b: seq<bool>, c: seq<bool>, d: seq<bool>)
    ensures a + ((b + c) + d) == a + b + c + d
  {
  }

  lemma PacketBits(cfg: Config, t: Tables, proto: Byte, data: seq<Byte>, clear: bool)
    requires Sound(cfg, t)
    ensures var e := Encode(cfg, t, proto, data);
      EncodePacket(cfg, t, proto, data, clear).bits == e.bits + if clear then OfNat(256, e.t.nBits) else []
  {
    hide Encode, SlotOk, OfNat;
  }

  lemma FrameBits(cfg: Config, t: Tables, seqno: nat, proto: Byte, data: seq<Byte>, clear: bool, room: nat)
    requires Sound(cfg, t) && seqno < 0x1_0000 && room >= 2
    ensures var bits := EncodePacket(cfg, t, proto, data, clear).bits;
      BytesToBits(Frame(cfg, t, seqno, proto, data, clear, room)) == OfNat(seqno, 16) + (bits + Padding(|bits|))
  {
    hide EncodePacket, SlotOk, OfNat, Pack, BytesToBits, Padding;
    var bits := EncodePacket(cfg, t, proto, data, clear).bits;
    HeaderBits(seqno);
    BytesToBitsConcat([seqno / 256, seqno % 256], Pack(Padded(bits)));
  }

  /** A full dictionary has codes of the full width. */
  lemma ClearWidth(cfg: Config, t: Tables, m: nat, k: nat)
    requires Sound(cfg, t) && AtCode(cfg, t, m, k)
    ensures t.maxEnt >= cfg.MaxMaxCode() ==> t.nBits == cfg.maxBits
  {
    FullWidth(cfg);
    hide WidthOf, MaxCode;
  }

  lemma HeaderBits(n: nat)
    requires n < 0x1_0000
    ensures BytesToBits([n / 256, n % 256]) == OfNat(n, 16)
  {
    var a: Byte, b: Byte := n / 256, n % 256;
    SplitBits(n, 8, 8);
    ShiftByte(n);
    LowByte(n);
    assert [a, b][..1] == [a];
    assert BytesToBits([a, b]) == BytesToBits([a]) + ByteBits(b) && BytesToBits([a]) == BytesToBits([]) + ByteBits(a);
  }

  // ----- the law holds on every link -----

  /** Whatever is sent, the width is that of the next entry again after the packet. */
  lemma PacketKeepsBetween(cfg: Config, t: Tables, proto: Byte, data: seq<Byte>, clear: bool)
    requires Sound(cfg, t) && Between(cfg, t)
    ensures Between(cfg, EncodePacket(cfg, t, proto, data, clear).t)
  {
    hide Encode, SlotOk, Between, Within, AtCode;
    var e := Encode(cfg, t, proto, data);
    BetweenAt(cfg, t);
    EncodeWritten(cfg, t, proto, data, t.maxEnt, 0);
    AtCodeWithin(cfg, e.t, t.maxEnt, |Codes(cfg, t, proto, data)| - 1);
    WidenBetween(cfg, e.t);
    ClearedBetween(cfg, e.t);
  }

  lemma AtCodeWithin(cfg: Config, t: Tables, m: nat, k: nat)
    requires Sound(cfg, t) && m <= cfg.MaxMaxCode() && AtCode(cfg, t, m, k)
    ensures Between(cfg, t) || Within(t)
  {
    hide WidthOf, SlotOk;
  }

  lemma ClearedBetween(cfg: Config, t: Tables)
    requires Sound(cfg, t)
    ensures Between(cfg, Cleared(t))
  {
    ConfigFacts(cfg);
    assert Pow2(9) == 512;
    WidthIs(257, 9);
  }

  /** From two initialised peers on, both ends of a link keep that law, packet by packet. */
  lemma HopKeepsBetween(cfg: Config, withAbc: bool, l: Link, d: Datagram, capacity: nat)
    requires Ready(cfg, l) && |d.data| + 2 <= capacity && Between(cfg, l.s.t)
    ensures var h := Carry(cfg, withAbc, l, d, capacity);
      Between(cfg, h.link.s.t) && (h.agree ==> Between(cfg, h.link.r.t))
  {
    hide Between, EncodePacket, Receives, ChecksAgree, Encode, Decode, Chained, Distinct, Reachable, SlotOk, CheckRatio,
      Billed, Frame;
    PacketKeepsLockstep(cfg, withAbc, l.s, l.r, d, capacity);
    if CompressibleProto(d.proto) {
      PacketKeepsBetween(cfg, l.s.t, d.proto, d.data, SenderCheck(cfg, l.s, d).1);
    }
  }

  lemma NewPeersBetween(cfg: Config)
    requires ValidConfig(cfg)
    ensures var p := Peer(Fresh(cfg), 0, CLEARED_COUNTERS); Ready(cfg, Link(p, p)) && Between(cfg, p.t)
  {
    FreshLinkReady(cfg);
    FreshBetween(cfg);
  }
}

/**
 * What bsd_check decides on any counters that a run can lead to, as an exact comparison of fractions, and when the two
 * ends of a link therefore decide alike. RFC 1977 asks both ends to compute the same ratio.
 */
module BsdChecks {
  import opened Bits
  import opened BsdTables
  import opened BsdLockstep
  import opened BsdCodec
  import opened BsdRuns
  import opened BsdRatio

  /** No packet, with its protocol byte, is longer than this. */
  const LONGEST := 0x10_0000

  /**
   * The counters between packets: the next check is ahead by at most 10000 bytes, what went in was no more than 2^23 -
   * 1 at the last check, and what came out is bounded by that much and what has gone in since. A ratio is at least one.
   */
  predicate Tame(c: Counters) {
    c.inCount < c.checkpoint <= c.inCount + 10000 && c.checkpoint <= 0x7f_ffff + 10000 &&
    c.bytesOut <= 0x800_0000 + 34 * (c.inCount + 10000 - c.checkpoint) && (c.ratio == 0 || 256 <= c.ratio)
  }

  /** Three quarters, rounded up, of a count of a pair of which either is too large. */
  function Shrunk(n: int, other: int): int {
    if n >= 0x7f_ffff || other >= 0x7f_ffff then (3 * n + 3) / 4 else n
  }

  function Max(a: int, b: int): int { if a < b then b else a }

  /** In over out, or over one if nothing came out, is below one or the ratio of before. */
  predicate Below(i: int, o: int, ratio: nat) { 256 * i < Max(ratio, 256) * Max(o, 1) }

  /** In over out in 256ths, rounded down. */
  predicate IsRatio(q: nat, i: int, o: int) { q * Max(o, 1) <= 256 * i < (q + 1) * Max(o, 1) }

  /** After n more bytes in and m more out a check is due, and finds a ratio that is worse. */
  predicate Worse(c: Counters, n: nat, m: int) {
    var i, o := c.inCount + n, c.bytesOut + m;
    c.checkpoint <= i && Below(Shrunk(i, o), Shrunk(o, i), c.ratio)
  }

  lemma AgedIs(n: nat)
    ensures Aged(n) == (3 * n + 3) / 4
  {
  }

  /** What the source says of its shift: it does not overflow. */
  lemma NoOverflow(c: Counters, n: nat, m: nat)
    requires Tame(c) && 0 < n <= LONGEST && m <= 34 * n
    ensures var i, o := c.inCount + n, c.bytesOut + m;
      i < 0x4000_0000 && o < 0x4000_0000 &&
      (c.checkpoint <= i ==> Shrunk(i, o) <= 0x7f_ffff && 256 * Shrunk(i, o) < U32 && Shrunk(o, i) <= 0x800_0000)
  {
  }

  /**
   * After n more bytes in and m more out, the check clears exactly a full dictionary whose ratio is worse; a dictionary
   * that is kept notes the ratio in 256ths, rounded down. The counters stay tame.
   */
  lemma CheckIsExact(c: Counters, n: nat, m: nat, full: bool)
    requires Tame(c) && 0 < n <= LONGEST && m <= 34 * n
    ensures var i, o := c.inCount + n, c.bytesOut + m;
      var (k, cleared) := CheckRatio(Added(c, n, m), full);
      && Tame(k)
      && (cleared <==> full && Worse(c, n, m))
      && (cleared ==> k == Counters(0, 0, 0, 10000))
      && (i < c.checkpoint ==> k == Counters(i, o, c.ratio, c.checkpoint))
      && (c.checkpoint <= i && !cleared ==>
          && k == Counters(Shrunk(i, o), Shrunk(o, i), k.ratio, Shrunk(i, o) + 10000)
          && (!full ==> k.ratio == c.ratio)
          && (full ==> IsRatio(k.ratio, Shrunk(i, o), Shrunk(o, i)) && Max(c.ratio, 256) <= k.ratio))
  {
    hide IsRatio, Below, Aged, NewRatio;
    NoOverflow(c, n, m);
    var i, o := c.inCount + n, c.bytesOut + m;
    if c.checkpoint <= i {
      var a: nat, b: nat := Shrunk(i, o), Shrunk(o, i);
      RatioIs(a, b, c.ratio);
      AgedIs(i);
      AgedIs(o);
      DueCheck(c, i, o, a, b, full);
      hide CheckRatio, Shrunk;
    }
  }

  lemma DueCheck(c: Counters, i: nat, o: nat, a: nat, b: nat, full: bool)
    requires c.checkpoint <= i && a == (if i >= 0x7f_ffff || o >= 0x7f_ffff then Aged(i) else i)
    requires b == (if i >= 0x7f_ffff || o >= 0x7f_ffff then Aged(o) else o) && a + CHECK_GAP < U32
    ensures var q := NewRatio(a, b);
      CheckRatio(c.(inCount := i, bytesOut := o), full) ==
        if full && (q < c.ratio || q < 256) then (CLEARED_COUNTERS, true)
        else (Counters(a, b, if full then q else c.ratio, a + CHECK_GAP), false)
  {
    hide Aged, NewRatio;
    assert (a + CHECK_GAP) % U32 == a + CHECK_GAP;
  }

  lemma RatioIs(a: nat, b: nat, ratio: nat)
    requires 256 * a < U32
    ensures var q := NewRatio(a, b);
      (q < ratio || q < 256 <==> Below(a, b, ratio)) && IsRatio(q, a, b)
  {
    var d := Max(b, 1);
    var q := NewRatio(a, b);
    assert q == 256 * a / d;
    QuotientBelow(256 * a, d, Max(ratio, 256));
    QuotientBelow(256 * a, d, q);
    QuotientBelow(256 * a, d, q + 1);
  }

  // ----- the two ends -----

  /**
   * The sender bills the frame as far as its buffer of one and a half times the packet and 32 bytes holds it, and the
   * last bits on top of that; the receiver of a plain packet, which has no buffer, those last bits only.
   */
  lemma BilledIs(cfg: Config, p: Peer, d: Datagram)
    requires InOrder(cfg, p) && CompressibleProto(d.proto) && |d.data| < LONGEST
    ensures var n, room := |Encode(cfg, p.t, d.proto, d.data).bits|, |d.data| + |d.data| / 2 + 32;
      var last := if n % 8 != 0 then 1 else 0;
      && BilledLength(cfg, p, d, Allocated(|d.data|)) == (if 2 + n / 8 <= room then 2 + n / 8 else room) + last
      && BilledLength(cfg, p, d, 0) == last
  {
    hide Encode, Pack, Chained, Distinct, Reachable, SlotOk, WholeBytes, BilledBytes;
    var bits, room := Encode(cfg, p.t, d.proto, d.data).bits, Allocated(|d.data|);
    var codes := Pack(WholeBytes(bits));
    assert |codes| == |WholeBytes(bits)| / 8;
    PaddedLength(bits);
    ByteSums(CLEARED_COUNTERS, |d.data|, room, |Clip(Header(p.seqno, room) + codes, room)|, |bits| % 8 != 0);
    ByteSums(CLEARED_COUNTERS, |d.data|, 0, |Clip(Header(p.seqno, 0) + codes, 0)|, |bits| % 8 != 0);
  }

  /** What the sender makes of a packet. */
  ghost predicate SenderWorse(cfg: Config, s: Peer, d: Datagram)
    requires InOrder(cfg, s) && CompressibleProto(d.proto)
  {
    Worse(s.counts, |d.data| + 1, BilledLength(cfg, s, d, Allocated(|d.data|)))
  }

  /** The receiver counts one byte at most of a packet that came plain, and all of a frame but its header. */
  ghost predicate ReceiverWorse(cfg: Config, r: Peer, d: Datagram, w: Wire)
    requires InOrder(cfg, r) && CompressibleProto(d.proto)
  {
    Worse(r.counts, |d.data| + 1, if w.Plain? then BilledLength(cfg, r, d, 0) else |w.bytes| - 2)
  }

  lemma SenderClearsIff(cfg: Config, s: Peer, d: Datagram)
    requires InOrder(cfg, s) && CompressibleProto(d.proto) && |d.data| < LONGEST && Tame(s.counts)
    ensures SenderCheck(cfg, s, d).1 <==> Fills(cfg, s, d) && SenderWorse(cfg, s, d)
    ensures Tame(SenderCheck(cfg, s, d).0)
  {
    hide Encode, CheckRatio, Billed, Chained, Distinct, Reachable, SlotOk, BilledLength, Sound, Worse;
    BilledAdds(cfg, s, d, Allocated(|d.data|));
    CheckIsExact(s.counts, |d.data| + 1, BilledLength(cfg, s, d, Allocated(|d.data|)), Fills(cfg, s, d));
  }

  lemma IncompClearsIff(cfg: Config, r: Peer, d: Datagram)
    requires InOrder(cfg, r) && CompressibleProto(d.proto) && |d.data| < LONGEST && Tame(r.counts)
    ensures IncompCheck(cfg, r, d).1 <==> Fills(cfg, r, d) && ReceiverWorse(cfg, r, d, Plain(d))
    ensures Tame(IncompCheck(cfg, r, d).0)
  {
    hide Encode, CheckRatio, Billed, Chained, Distinct, Reachable, SlotOk, BilledLength, Sound, Worse;
    BilledAdds(cfg, r, d, 0);
    CheckIsExact(r.counts, |d.data| + 1, BilledLength(cfg, r, d, 0), Fills(cfg, r, d));
  }

  lemma FreshCheck(full: bool)
    ensures CheckRatio(CLEARED_COUNTERS, full) == (CLEARED_COUNTERS, false)
  {
  }

  /** After a frame with CLEAR the counters start anew, and no check is due. */
  lemma DecompClearsIff(cfg: Config, r: Peer, t: Tables, n: nat, m: nat, cleared: bool)
    requires 0 < n <= LONGEST && m <= 34 * n && Tame(r.counts)
    ensures var k := DecompCheck(cfg, false, r, t, n, m, cleared);
      Tame(k.0) && (k.1 <==> !cleared && t.maxEnt >= cfg.MaxMaxCode() && Worse(r.counts, n, m))
  {
    hide CheckRatio, IsRatio, Worse, Shrunk;
    NoOverflow(r.counts, n, m);
    CheckIsExact(r.counts, n, m, t.maxEnt >= cfg.MaxMaxCode());
    FreshCheck(t.maxEnt >= cfg.MaxMaxCode());
  }

  /**
   * In every state of a run: the two ends decide alike about a packet that went out plain exactly when both their
   * ratios are worse or neither is, unless the dictionary has room left; about a frame, unless the receiver's is worse
   * and the sender's is not.
   */
  lemma AgreeIff(cfg: Config, s: Peer, r: Peer, d: Datagram)
    requires InOrder(cfg, s) && InOrder(cfg, r) && s.t == r.t && s.seqno == r.seqno
    requires CompressibleProto(d.proto) && |d.data| < LONGEST && Tame(s.counts) && Tame(r.counts)
    ensures var w := Sends(cfg, s, d).0;
      var here, there := SenderWorse(cfg, s, d), ReceiverWorse(cfg, r, d, w);
      ChecksAgree(cfg, false, s, r, d) <==> !Fills(cfg, s, d) || here == there || (here && w.Compressed?)
  {
    hide Encode, CheckRatio, Billed, Frame, Chained, Distinct, Reachable, SlotOk, BilledLength, Worse, DecompCheck;
    SenderClearsIff(cfg, s, d);
    var (w, s') := Sends(cfg, s, d);
    if w.Plain? {
      IncompClearsIff(cfg, r, d);
    } else {
      FrameOnWire(cfg, s, d);
      DecompClearsIff(cfg, r, s'.t, |d.data| + 1, |w.bytes| - 2, SenderCheck(cfg, s, d).1);
      if !SenderCheck(cfg, s, d).1 {
        KeptFull(cfg, s, d);
      }
    }
  }

  /** Without CLEAR the sender's dictionary is full after the packet exactly when it was at the check. */
  lemma KeptFull(cfg: Config, s: Peer, d: Datagram)
    requires InOrder(cfg, s) && CompressibleProto(d.proto) && !SenderCheck(cfg, s, d).1
    ensures Sends(cfg, s, d).1.t.maxEnt >= cfg.MaxMaxCode() <==> Fills(cfg, s, d)
  {
    hide Encode, CheckRatio, Billed, Frame, Chained, Distinct, Reachable, SlotOk;
  }

  ghost predicate TameLink(l: Link) { Tame(l.s.counts) && Tame(l.r.counts) }

  lemma HopKeepsTame(cfg: Config, l: Link, d: Datagram, capacity: nat)
    requires TameLink(l) && |d.data| < LONGEST
    ensures TameLink(Carry(cfg, false, l, d, capacity).link)
  {
    hide Encode, Decode, CheckRatio, Billed, Frame, Chained, Distinct, Reachable, SlotOk, BilledLength, Worse, Sound,
      DecompCheck;
    if Ready(cfg, l) && |d.data| + 2 <= capacity && CompressibleProto(d.proto) {
      PacketKeepsLockstep(cfg, false, l.s, l.r, d, capacity);
      SenderClearsIff(cfg, l.s, d);
      var w := Sends(cfg, l.s, d).0;
      if w.Plain? {
        IncompClearsIff(cfg, l.r, d);
      } else {
        FrameOnWire(cfg, l.s, d);
        FrameDecodes(cfg, l.s, d, capacity);
        var e := Sends(cfg, l.s, d).1.t;
        DecompClearsIff(cfg, l.r, e, |d.data| + 1, |w.bytes| - 2, SenderCheck(cfg, l.s, d).1);
      }
    }
  }

  /** The counters of new peers, and so those of every run of theirs, are tame: no check ever overflows. */
  lemma {:induction false} RunKeepsTame(cfg: Config, l: Link, run: seq<Datagram>, capacity: nat)
    requires TameLink(l) && forall d :: d in run ==> |d.data| < LONGEST
    ensures forall h :: h in Run(cfg, false, l, run, capacity) ==> TameLink(h.link)
    decreases |run|
  {
    hide Carry, TameLink;
    if run != [] {
      assert run[0] in run;
      HopKeepsTame(cfg, l, run[0], capacity);
      var h := Carry(cfg, false, l, run[0], capacity);
      RunKeepsTame(cfg, h.link, run[1..], capacity);
      forall k | k in Run(cfg, false, l, run, capacity)
        ensures TameLink(k.link)
      {
        assert k == h || k in Run(cfg, false, h.link, run[1..], capacity);
      }
    }
  }

  lemma NewPeersTame(cfg: Config)
    requires ValidConfig(cfg)
    ensures var p := Peer(Fresh(cfg), 0, CLEARED_COUNTERS); Ready(cfg, Link(p, p)) && TameLink(Link(p, p))
  {
    FreshLinkReady(cfg);
  }
}

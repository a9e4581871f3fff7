/**
 * When the two ends of a link decide differently about clearing a full dictionary. Both use bsd_check, but the sender
 * bills the whole frame of a packet that does not compress, and the receiver, which never sees that frame, one byte at
 * most.
 */
module BsdRatio {
  import opened Bits
  import opened BsdTables
  import opened BsdProbing
  import opened BsdLockstep
  import opened BsdCodec
  import opened BsdRuns

  /** The length of a frame without its CLEAR code: header, codes and dribble bits. */
  function CodedLength(bits: nat): nat { 2 + bits / 8 + if bits % 8 != 0 then 1 else 0 }

  /** What bsd_compress bills for a packet: its frame, as far as a buffer of that size holds it. */
  ghost function BilledLength(cfg: Config, p: Peer, d: Datagram, room: nat): nat
    requires InOrder(cfg, p) && CompressibleProto(d.proto)
  {
    Billed(cfg, p.t, p.seqno, CLEARED_COUNTERS, d.proto, d.data, room).bytesOut
  }

  ghost function FrameLength(cfg: Config, s: Peer, d: Datagram): nat
    requires InOrder(cfg, s) && CompressibleProto(d.proto)
  {
    BilledLength(cfg, s, d, Allocated(|d.data|))
  }

  /** The packet leaves the dictionary full. */
  ghost predicate Fills(cfg: Config, s: Peer, d: Datagram)
    requires InOrder(cfg, s) && CompressibleProto(d.proto)
  {
    Encode(cfg, s.t, d.proto, d.data).t.maxEnt >= cfg.MaxMaxCode()
  }

  /** As long as no ratio is known, a full dictionary is cleared exactly when more bytes have gone out than in. */
  lemma ClearsIff(c: Counters, full: bool)
    requires c.inCount < RATIO_MAX && c.bytesOut < RATIO_MAX && c.ratio == 0 && (0 < c.inCount || 0 < c.checkpoint)
    ensures CheckRatio(c, full).1 <==> full && c.checkpoint <= c.inCount < c.bytesOut
  {
    if c.checkpoint <= c.inCount {
      RatioBelowOne(c.inCount, c.bytesOut);
    }
    hide NewRatio, Aged;
  }

  /**
   * A check that is not due, or meets a dictionary with room left, clears nothing, and at most moves the checkpoint.
   */
  lemma QuietCheck(c: Counters, full: bool)
    requires c.inCount < RATIO_MAX && c.bytesOut < RATIO_MAX && !(full && c.checkpoint <= c.inCount)
    ensures var r := CheckRatio(c, full);
      !r.1 && r.0 == c.(checkpoint := r.0.checkpoint) && (c.inCount < c.checkpoint ==> r.0 == c)
  {
    hide NewRatio, Aged;
  }

  /** The ratio is below one, in fixed point, exactly when more bytes have gone out than in. */
  lemma RatioBelowOne(n: nat, m: nat)
    requires 0 < n < RATIO_MAX
    ensures NewRatio(n, m) < 256 <==> n < m
  {
    assert n * 256 < U32;
    if m > 0 {
      QuotientBelow(n * 256, m, 256);
    }
  }

  lemma QuotientBelow(n: nat, m: nat, k: nat)
    requires m > 0
    ensures n / m < k <==> n < k * m
  {
    var q, r := n / m, n % m;
    assert n == q * m + r;
    if q >= k {
      MulMonotone(k, q, m);
    } else {
      MulMonotone(q + 1, k, m);
      assert (q + 1) * m == q * m + m;
    }
  }

  const FEW := 0x40_0000

  /**
   * The counters of the two ends while no check has met a full dictionary since the last clearing: the same bytes went
   * in, and the receiver has counted no more bytes than went in. Where the checkpoints are does not matter.
   */
  predicate Along(s: Counters, r: Counters) {
    s.ratio == 0 && r.ratio == 0 && s.inCount == r.inCount <= FEW && s.bytesOut <= FEW && r.bytesOut <= r.inCount &&
    (0 < s.inCount || (0 < s.checkpoint && 0 < r.checkpoint))
  }

  function Added(c: Counters, bytesIn: nat, bytesOut: nat): Counters {
    c.(inCount := c.inCount + bytesIn, bytesOut := c.bytesOut + bytesOut)
  }

  /** With less than 2^30 bytes counted, no counter wraps around. */
  lemma BilledAdds(cfg: Config, p: Peer, d: Datagram, room: nat)
    requires InOrder(cfg, p) && CompressibleProto(d.proto) && |d.data| < 0x10_0000 && room <= Allocated(|d.data|)
    requires p.counts.inCount < 0x4000_0000 && p.counts.bytesOut < 0x4000_0000
    ensures BilledLength(cfg, p, d, room) <= room + 1 && (room >= 2 ==> BilledLength(cfg, p, d, room) >= 2)
    ensures Billed(cfg, p.t, p.seqno, p.counts, d.proto, d.data, room)
         == Added(p.counts, |d.data| + 1, BilledLength(cfg, p, d, room))
  {
    hide Encode, Pack, Chained, Distinct, Reachable, SlotOk, Header, WholeBytes, BilledBytes;
    var bits := Encode(cfg, p.t, d.proto, d.data).bits;
    var whole := Clip(Header(p.seqno, room) + Pack(WholeBytes(bits)), room);
    ByteSums(CLEARED_COUNTERS, |d.data|, room, |whole|, |bits| % 8 != 0);
    ByteSums(p.counts, |d.data|, room, |whole|, |bits| % 8 != 0);
    HeaderCounts(p.seqno, room, Pack(WholeBytes(bits)));
  }

  lemma HeaderCounts(seqno: nat, room: nat, codes: seq<Byte>)
    requires seqno < 0x1_0000
    ensures room >= 2 ==> |Clip(Header(seqno, room) + codes, room)| >= 2
  {
  }

  lemma ByteSums(c: Counters, n: nat, room: nat, m: nat, dribble: bool)
    requires n < 0x10_0000 && m <= room <= Allocated(n) && c.inCount < 0x4000_0000 && c.bytesOut < 0x4000_0000
    ensures BilledBytes(c, n + 1, m, dribble) == Added(c, n + 1, m + if dribble then 1 else 0)
  {
  }

  /** The packets that the two ends do not decide alike about. */
  ghost predicate Parts(cfg: Config, s: Peer, d: Datagram)
    requires InOrder(cfg, s)
  {
    CompressibleProto(d.proto) && Sends(cfg, s, d).0.Plain? && Fills(cfg, s, d) &&
    s.counts.checkpoint <= s.counts.inCount + |d.data| + 1 < s.counts.bytesOut + FrameLength(cfg, s, d)
  }

  ghost predicate Abreast(cfg: Config, s: Peer, r: Peer) {
    InOrder(cfg, s) && InOrder(cfg, r) && s.t == r.t && s.seqno == r.seqno && Along(s.counts, r.counts)
  }

  /**
   * Up to the first check that meets a full dictionary, and at it, the two ends decide alike unless a packet does not
   * compress, fills the dictionary or finds it full, brings the bytes that went in up to the sender's checkpoint, and
   * has brought out more bytes than that. Then the sender clears the dictionary and the receiver does not. That is so
   * whether or not the receiver checks after frames of its own accord.
   */
  lemma FirstCheckIff(cfg: Config, withAbc: bool, s: Peer, r: Peer, d: Datagram)
    requires Abreast(cfg, s, r) && |d.data| < 0x10_0000
    ensures ChecksAgree(cfg, withAbc, s, r, d) <==> !Parts(cfg, s, d)
    ensures Parts(cfg, s, d) ==> SenderCheck(cfg, s, d).1 && !IncompCheck(cfg, r, d).1
  {
    if CompressibleProto(d.proto) {
      if Sends(cfg, s, d).0.Plain? {
        PlainCheck(cfg, withAbc, s, r, d);
      } else {
        FrameCheck(cfg, withAbc, s, r, d);
      }
    }
  }

  /** A check of one of the two ends is due, and meets a full dictionary. */
  ghost predicate MeetsFull(cfg: Config, s: Peer, r: Peer, d: Datagram)
    requires InOrder(cfg, s)
  {
    CompressibleProto(d.proto) && Fills(cfg, s, d) &&
    (s.counts.checkpoint <= s.counts.inCount + |d.data| + 1 || r.counts.checkpoint <= s.counts.inCount + |d.data| + 1)
  }

  /** There is room for a packet below the bounds that the counters of peers abreast have. */
  predicate FewMore(s: Peer, d: Datagram) {
    |d.data| < 0x10_0000 && s.counts.inCount + |d.data| < FEW && s.counts.bytesOut + Allocated(|d.data|) < FEW
  }

  /** The two ends stay abreast, in either build, whatever is sent, unless it brings a check upon a full dictionary. */
  lemma StaysAbreast(cfg: Config, withAbc: bool, s: Peer, r: Peer, d: Datagram, capacity: nat)
    requires Abreast(cfg, s, r) && |d.data| + 2 <= capacity && FewMore(s, d) && !MeetsFull(cfg, s, r, d)
    ensures ChecksAgree(cfg, withAbc, s, r, d)
    ensures var (w, s') := Sends(cfg, s, d);
      Readable(cfg, r, w, capacity) &&
      var r' := Receives(cfg, withAbc, r, w, capacity).1;
      && Abreast(cfg, s', r')
      && (CompressibleProto(d.proto) ==>
            Counted(s'.counts, s.counts, |d.data| + 1, FrameLength(cfg, s, d)) &&
            CountedAtMost(r'.counts, r.counts, |d.data| + 1))
  {
    hide Encode, Decode, CheckRatio, Billed, Frame, Chained, Distinct, Reachable, SlotOk, BilledLength, Fills, Sound;
    hide Counted, CountedAtMost, Along, ChecksAgree;
    FirstCheckIff(cfg, withAbc, s, r, d);
    PacketKeepsLockstep(cfg, withAbc, s, r, d, capacity);
    if CompressibleProto(d.proto) {
      SenderCounts(cfg, s, d);
      AlongFew(s.counts, r.counts);
      if Sends(cfg, s, d).0.Plain? {
        SameFills(cfg, s, r, d);
        IncompCounts(cfg, r, d);
        FewCounted(IncompCheck(cfg, r, d).0, r.counts, |d.data| + 1, BilledLength(cfg, r, d, 0));
      } else {
        ReceiverCounts(cfg, withAbc, s, r, d, capacity);
        FewCounted(Receives(cfg, withAbc, r, Sends(cfg, s, d).0, capacity).1.counts, r.counts, |d.data| + 1,
          FrameLength(cfg, s, d) - 2);
      }
      var r' := Receives(cfg, withAbc, r, Sends(cfg, s, d).0, capacity).1;
      AlongAdds(s.counts, r.counts, Sends(cfg, s, d).1.counts, r'.counts, |d.data| + 1, FrameLength(cfg, s, d));
    }
  }

  lemma AlongFew(s: Counters, r: Counters)
    requires Along(s, r)
    ensures s.inCount == r.inCount && r.bytesOut <= r.inCount <= FEW
  {
  }

  lemma AlongAdds(s: Counters, r: Counters, s': Counters, r': Counters, bytesIn: nat, frame: nat)
    requires Along(s, r) && Counted(s', s, bytesIn, frame) && 0 < bytesIn && s.inCount + bytesIn <= FEW &&
      s.bytesOut + frame <= FEW
    requires CountedAtMost(r', r, bytesIn)
    ensures Along(s', r')
  {
  }

  lemma SameFills(cfg: Config, s: Peer, r: Peer, d: Datagram)
    requires InOrder(cfg, s) && InOrder(cfg, r) && s.t == r.t && CompressibleProto(d.proto)
    ensures Fills(cfg, r, d) == Fills(cfg, s, d)
  {
  }

  /** So many bytes have been counted; the checkpoint has moved if it was reached. */
  predicate Counted(c: Counters, was: Counters, bytesIn: nat, bytesOut: nat) {
    c == Added(was, bytesIn, bytesOut).(checkpoint := c.checkpoint) &&
    (c.inCount < was.checkpoint ==> c.checkpoint == was.checkpoint)
  }

  /** No more bytes have been counted than went in. */
  predicate CountedAtMost(c: Counters, was: Counters, bytesIn: nat) {
    was.bytesOut <= c.bytesOut <= was.bytesOut + bytesIn && Counted(c, was, bytesIn, c.bytesOut - was.bytesOut)
  }

  lemma FewCounted(c: Counters, was: Counters, bytesIn: nat, bytesOut: nat)
    requires Counted(c, was, bytesIn, bytesOut) && bytesOut <= bytesIn
    ensures CountedAtMost(c, was, bytesIn)
  {
  }

  lemma SenderCounts(cfg: Config, s: Peer, d: Datagram)
    requires InOrder(cfg, s) && CompressibleProto(d.proto) && FewMore(s, d)
    requires !(Fills(cfg, s, d) && s.counts.checkpoint <= s.counts.inCount + |d.data| + 1)
    ensures !SenderCheck(cfg, s, d).1 && 2 <= FrameLength(cfg, s, d) <= Allocated(|d.data|) + 1
    ensures Counted(SenderCheck(cfg, s, d).0, s.counts, |d.data| + 1, FrameLength(cfg, s, d))
  {
    hide Encode, CheckRatio, Billed, Chained, Distinct, Reachable, SlotOk, BilledLength, Sound;
    var room := Allocated(|d.data|);
    BilledAdds(cfg, s, d, room);
    QuietCheck(Billed(cfg, s.t, s.seqno, s.counts, d.proto, d.data, room), Fills(cfg, s, d));
  }

  lemma IncompCounts(cfg: Config, r: Peer, d: Datagram)
    requires InOrder(cfg, r) && CompressibleProto(d.proto) && |d.data| < 0x10_0000
    requires r.counts.bytesOut <= r.counts.inCount <= FEW
    requires !(Fills(cfg, r, d) && r.counts.checkpoint <= r.counts.inCount + |d.data| + 1)
    ensures !IncompCheck(cfg, r, d).1 && BilledLength(cfg, r, d, 0) <= 1
    ensures Counted(IncompCheck(cfg, r, d).0, r.counts, |d.data| + 1, BilledLength(cfg, r, d, 0))
  {
    hide Encode, CheckRatio, Billed, Chained, Distinct, Reachable, SlotOk, BilledLength, Sound;
    BilledAdds(cfg, r, d, 0);
    QuietCheck(Billed(cfg, r.t, r.seqno, r.counts, d.proto, d.data, 0), Fills(cfg, r, d));
  }

  lemma ReceiverCounts(cfg: Config, withAbc: bool, s: Peer, r: Peer, d: Datagram, capacity: nat)
    requires Abreast(cfg, s, r) && FewMore(s, d) && !MeetsFull(cfg, s, r, d) && Sends(cfg, s, d).0.Compressed?
    requires CompressibleProto(d.proto) && !SenderCheck(cfg, s, d).1 && |d.data| + 2 <= capacity
    ensures Readable(cfg, r, Sends(cfg, s, d).0, capacity) && 2 <= FrameLength(cfg, s, d) < |d.data|
    ensures Counted(Receives(cfg, withAbc, r, Sends(cfg, s, d).0, capacity).1.counts, r.counts,
              |d.data| + 1, FrameLength(cfg, s, d) - 2)
  {
    hide Encode, Decode, CheckRatio, Billed, Frame, Sends, SenderCheck, Sound, Chained, Distinct, Reachable, SlotOk;
    hide BilledLength, Widen, Fills;
    FrameDecodes(cfg, s, d, capacity);
    FrameShorter(cfg, s, d);
    FrameIsBilled(cfg, s, d);
    SameFill(cfg, s, d);
    var c := ReceivedCounts(r.counts, |d.data| + 1, |Sends(cfg, s, d).0.bytes| - 2, false);
    QuietCheck(c, Sends(cfg, s, d).1.t.maxEnt >= cfg.MaxMaxCode());
  }

  /** An in-band CLEAR brings the two ends abreast again, with counters that start from nothing. */
  lemma ClearedAbreast(cfg: Config, withAbc: bool, s: Peer, r: Peer, d: Datagram, capacity: nat)
    requires Ready(cfg, Link(s, r)) && |d.data| + 2 <= capacity && Sends(cfg, s, d).0.Compressed? &&
      CompressibleProto(d.proto) && SenderCheck(cfg, s, d).1
    ensures ChecksAgree(cfg, withAbc, s, r, d)
    ensures var (w, s') := Sends(cfg, s, d);
      Readable(cfg, r, w, capacity) && Abreast(cfg, s', Receives(cfg, withAbc, r, w, capacity).1)
  {
    hide Encode, Decode, Billed, Frame, Chained, Distinct, Reachable, SlotOk, Sound, NewRatio, Aged;
    FrameDecodes(cfg, s, d, capacity);
    PacketKeepsLockstep(cfg, withAbc, s, r, d, capacity);
  }

  lemma PlainCheck(cfg: Config, withAbc: bool, s: Peer, r: Peer, d: Datagram)
    requires Abreast(cfg, s, r) && |d.data| < 0x10_0000 && CompressibleProto(d.proto) && Sends(cfg, s, d).0.Plain?
    ensures !IncompCheck(cfg, r, d).1
    ensures SenderCheck(cfg, s, d).1 <==> Parts(cfg, s, d)
  {
    hide Encode, CheckRatio, Billed, Frame, Chained, Distinct, Reachable, SlotOk, BilledLength;
    SenderClearsIff(cfg, s, d);
    BilledAdds(cfg, r, d, 0);
    ClearsIff(Billed(cfg, r.t, r.seqno, r.counts, d.proto, d.data, 0), Fills(cfg, s, d));
  }

  lemma FrameShorter(cfg: Config, s: Peer, d: Datagram)
    requires InOrder(cfg, s) && Sends(cfg, s, d).0.Compressed?
    ensures 2 <= |Sends(cfg, s, d).0.bytes| < |d.data| && CompressibleProto(d.proto)
  {
    FrameOnWire(cfg, s, d);
    hide SenderCheck, Encode, EncodePacket, Frame, Chained, Distinct, Reachable, SlotOk, Sound;
  }

  /** What the sender bills for a frame without CLEAR is the length of the frame. */
  lemma FrameIsBilled(cfg: Config, s: Peer, d: Datagram)
    requires InOrder(cfg, s) && CompressibleProto(d.proto) && |d.data| < 0x10_0000 && Sends(cfg, s, d).0.Compressed?
    requires s.counts.inCount <= FEW && s.counts.bytesOut <= FEW && !SenderCheck(cfg, s, d).1
    ensures |Sends(cfg, s, d).0.bytes| == FrameLength(cfg, s, d)
  {
    hide Encode, CheckRatio, Billed, Frame, Chained, Distinct, Reachable, SlotOk, BilledLength, Sends, SenderCheck,
      Sound;
    FrameShorter(cfg, s, d);
    SenderBillsHeader(cfg, s, d);
    BilledAdds(cfg, s, d, Allocated(|d.data|));
  }

  /** On a frame the receiver decides nothing that the sender has not decided. */
  lemma FrameCheck(cfg: Config, withAbc: bool, s: Peer, r: Peer, d: Datagram)
    requires Abreast(cfg, s, r) && |d.data| < 0x10_0000 && CompressibleProto(d.proto) && Sends(cfg, s, d).0.Compressed?
    ensures ChecksAgree(cfg, withAbc, s, r, d)
  {
    hide Encode, CheckRatio, Billed, Frame, Sends, Chained, Distinct, Reachable, SlotOk, BilledLength, Fills, Sound;
    FrameShorter(cfg, s, d);
    var bytes, clear := Sends(cfg, s, d).0.bytes, SenderCheck(cfg, s, d).1;
    var full := Sends(cfg, s, d).1.t.maxEnt >= cfg.MaxMaxCode();
    var c := ReceivedCounts(r.counts, |d.data| + 1, |bytes| - 2, clear);
    ClearsIff(c, full);
    if !clear {
      SameFill(cfg, s, d);
      FrameIsBilled(cfg, s, d);
      BilledAdds(cfg, s, d, Allocated(|d.data|));
      SenderClearsIff(cfg, s, d);
    }
  }

  lemma SenderClearsIff(cfg: Config, s: Peer, d: Datagram)
    requires InOrder(cfg, s) && CompressibleProto(d.proto) && |d.data| < 0x10_0000
    requires s.counts.inCount <= FEW && s.counts.bytesOut <= FEW && s.counts.ratio == 0
    requires 0 < s.counts.inCount || 0 < s.counts.checkpoint
    ensures SenderCheck(cfg, s, d).1 <==>
      Fills(cfg, s, d) && s.counts.checkpoint <= s.counts.inCount + |d.data| + 1 < s.counts.bytesOut +
        FrameLength(cfg, s, d)
  {
    hide Encode, CheckRatio, Billed, Chained, Distinct, Reachable, SlotOk, BilledLength, Sound;
    var room := Allocated(|d.data|);
    BilledAdds(cfg, s, d, room);
    ClearsIff(Billed(cfg, s.t, s.seqno, s.counts, d.proto, d.data, room), Fills(cfg, s, d));
  }

  lemma SameFill(cfg: Config, s: Peer, d: Datagram)
    requires InOrder(cfg, s) && CompressibleProto(d.proto) && !SenderCheck(cfg, s, d).1
    ensures Sends(cfg, s, d).1.t.maxEnt >= cfg.MaxMaxCode() <==> Fills(cfg, s, d)
  {
    hide Encode, CheckRatio, Billed, Frame, Chained, Distinct, Reachable, SlotOk;
  }

  /** A frame that fits its buffer is billed with its header and its dribble bits. */
  lemma FrameLengthIs(cfg: Config, s: Peer, d: Datagram)
    requires InOrder(cfg, s) && CompressibleProto(d.proto) && |d.data| < 0x10_0000
    requires CodedLength(|Encode(cfg, s.t, d.proto, d.data).bits|) <= Allocated(|d.data|)
    ensures FrameLength(cfg, s, d) == CodedLength(|Encode(cfg, s.t, d.proto, d.data).bits|)
  {
    hide Encode, Pack, Chained, Distinct, Reachable, SlotOk, WholeBytes, BilledBytes;
    var bits, room := Encode(cfg, s.t, d.proto, d.data).bits, Allocated(|d.data|);
    PaddedLength(bits);
    var whole := Header(s.seqno, room) + Pack(WholeBytes(bits));
    assert |whole| == 2 + |bits| / 8 && Clip(whole, room) == whole;
    ByteSums(CLEARED_COUNTERS, |d.data|, room, |whole|, |bits| % 8 != 0);
  }

  // ----- a packet with which two new peers part -----

  /** The numbers from k to 255. */
  function Ramp(k: nat): (s: seq<Byte>)
    requires k <= 256
    ensures |s| == 256 - k
    decreases 256 - k
  {
    if k == 256 then [] else [k] + Ramp(k + 1)
  }

  function Nulls(n: nat): (s: seq<Byte>)
    ensures |s| == n
  {
    if n == 0 then [] else [0] + Nulls(n - 1)
  }

  const PROTO := 0x21

  /** All bytes once, and then as many zeros. */
  function Parting(n: nat): Datagram { Datagram(PROTO, Ramp(0) + Nulls(n)) }

  /** Only pairs of a number below k and the one before it are in the dictionary, and the protocol followed by zero. */
  ghost predicate Climbs(t: Tables, k: nat) {
    forall p: nat, c: Byte, code: nat :: p < 0x1_0000 && Holds(t, p, c, code) ==>
      c < k && (if c == 0 then p == PROTO else p == c - 1)
  }

  const SMALL := Config(9, 5003, 4)

  /** The code before which byte k of the ramp comes. */
  function Before(k: nat): nat { if k == 0 then PROTO else k - 1 }

  lemma SmallCodes()
    ensures SMALL.MaxMaxCode() == 511 && ValidConfig(SMALL)
  {
    assert Pow2(9) == 512;
  }

  lemma FoundHolds(t: Tables, ent: nat, c: Byte)
    ensures forall code: nat :: FoundUnder(t, ent, c, code) ==> Holds(t, ent, c, code)
  {
  }

  lemma AbsentIsVacant(t: Tables, ent: nat, c: Byte)
    requires Consistent(SMALL, t) && IsCode(t, ent) && forall code: nat :: !Holds(t, ent, c, code)
    ensures Hash(SMALL, ent, c) < |t.dict| && 1 < |t.dict|
    ensures var hit := Search(t, Hash(SMALL, ent, c), Key(ent, c), 0);
      hit.Vacant? && hit.slot < |t.dict| && !Live(t, hit.slot)
  {
    SearchRefinesMap(SMALL, t, ent, c);
    var hit := Search(t, Hash(SMALL, ent, c), Key(ent, c), 0);
    hide Consistent, Search, Hash;
    FoundHolds(t, ent, c);
  }

  lemma GrownSmall(t: Tables, slot: nat, key: nat)
    requires Sound(SMALL, t) && slot < |t.dict| && !Live(t, slot)
    ensures var u := Grow(SMALL, t, slot, key);
      && u.maxEnt == (if t.maxEnt < 511 then t.maxEnt + 1 else t.maxEnt)
      && (t.maxEnt >= 511 ==> u == t) && (t.nBits == 9 ==> u.nBits == 9)
  {
    SmallCodes();
    GrowSound(SMALL, t, slot, key);
    hide Sound;
  }

  /** A pair that is not in the dictionary is missed, and entered while there is code space. */
  lemma Missed(t: Tables, ent: nat, c: Byte, rest: seq<Byte>) returns (u: Tables)
    requires Consistent(SMALL, t) && IsCode(t, ent) && forall code: nat :: !Holds(t, ent, c, code)
    ensures Consistent(SMALL, u) && (t.maxEnt >= 511 ==> u == t) && (t.maxEnt < 511 ==> u.maxEnt == t.maxEnt + 1)
    ensures t.nBits == 9 ==> u.nBits == 9
    ensures GrownBy(SMALL, t, u, ent, c)
    ensures var e := Encode(SMALL, u, c, rest);
      Encode(SMALL, t, ent, [c] + rest) == Encoded(OfNat(ent, t.nBits) + e.bits, e.t)
  {
    hide Encode, Search, Hash, Grow, GrownBy, Chained, Distinct, Reachable, SlotOk, Key;
    AbsentIsVacant(t, ent, c);
    var slot := Search(t, Hash(SMALL, ent, c), Key(ent, c), 0).slot;
    assert ([c] + rest)[1..] == rest;
    GrowConsistent(SMALL, t, ent, c);
    EncodeMiss(SMALL, t, ent, [c] + rest);
    GrownSmall(t, slot, Key(ent, c));
    u := Grow(SMALL, t, slot, Key(ent, c));
  }

  /** A full dictionary that holds climbing pairs only. */
  ghost predicate Climbed(t: Tables) {
    Consistent(SMALL, t) && t.maxEnt == 511 && t.nBits == 9 && Climbs(t, 256)
  }

  /** Zeros after any code but the protocol are missed, every one of them. */
  lemma {:induction false} NullsMissed(t: Tables, ent: nat, n: nat)
    requires Climbed(t) && IsCode(t, ent) && ent != PROTO
    ensures var e := Encode(SMALL, t, ent, Nulls(n)); |e.bits| == 9 * (n + 1) && e.t == t
  {
    hide Consistent, Encode, Climbs, GrownBy;
    if n == 0 {
      OneCode(t, ent);
    } else {
      NullAbsent(t, ent);
      var u := Missed(t, ent, 0, Nulls(n - 1));
      NullsMissed(t, 0, n - 1);
    }
  }

  lemma OneCode(t: Tables, ent: nat)
    requires Consistent(SMALL, t) && IsCode(t, ent)
    ensures Encode(SMALL, t, ent, []) == Encoded(OfNat(ent, t.nBits), t)
  {
  }

  lemma NullAbsent(t: Tables, ent: nat)
    requires Climbs(t, 256) && t.maxEnt == 511 && IsCode(t, ent) && ent != PROTO
    ensures forall code: nat :: !Holds(t, ent, 0, code)
  {
  }

  /** A packet of zeros: at most the pair of the protocol and the first zero is found. */
  lemma NullsAfterProto(t: Tables, n: nat)
    requires Climbed(t)
    ensures var e := Encode(SMALL, t, PROTO, Nulls(n)); 9 * n <= |e.bits| <= 9 * (n + 1) && e.t == t
  {
    hide Consistent, Encode, Climbs, Search, Hash, GrownBy, Grow, Key;
    if n == 0 {
      OneCode(t, PROTO);
    } else {
      assert Nulls(n)[0] == 0 && Nulls(n)[1..] == Nulls(n - 1) && Nulls(n) == [0] + Nulls(n - 1);
      ConsistentSound(t);
      SearchSound(SMALL, t, PROTO, 0);
      var hit := Search(t, Hash(SMALL, PROTO, 0), Key(PROTO, 0), 0);
      if hit.Found? {
        EncodeMatch(SMALL, t, PROTO, Nulls(n));
        NullsMissed(t, hit.code, n - 1);
      } else {
        EncodeMiss(SMALL, t, PROTO, Nulls(n));
        GrownSmall(t, hit.slot, Key(PROTO, 0));
        NullsMissed(t, 0, n - 1);
      }
    }
  }

  lemma ConsistentSound(t: Tables)
    requires Consistent(SMALL, t)
    ensures Sound(SMALL, t)
  {
  }

  lemma NextAbsent(t: Tables, k: nat)
    requires Climbs(t, k) && k < 256
    ensures forall code: nat :: !Holds(t, Before(k), k, code)
  {
  }

  lemma StillClimbs(t: Tables, u: Tables, k: nat)
    requires Climbs(t, k) && k < 256 && GrownBy(SMALL, t, u, Before(k), k)
    ensures Climbs(u, k + 1)
  {
    forall p: nat, c: Byte, code: nat | p < 0x1_0000 && Holds(u, p, c, code)
      ensures c < k + 1 && (if c == 0 then p == PROTO else p == c - 1)
    {
      if !Holds(t, p, c, code) {
        KeyParts(p, c);
        KeyParts(Before(k), k);
      }
    }
  }

  /** Every byte of the ramp is missed, and so are the zeros behind it. */
  lemma {:induction false} RampMissed(t: Tables, k: nat, n: nat)
    requires k <= 256 && Consistent(SMALL, t) && t.nBits == 9 && Climbs(t, k)
    requires t.maxEnt == if k <= 255 then 256 + k else 511
    ensures var e := Encode(SMALL, t, Before(k), Ramp(k) + Nulls(n));
      |e.bits| == 9 * (256 - k + n + 1) && Climbed(e.t)
    decreases 256 - k
  {
    hide Consistent, Encode, Climbs, GrownBy;
    if k == 256 {
      assert Ramp(k) + Nulls(n) == Nulls(n);
      NullsMissed(t, 255, n);
    } else {
      NextAbsent(t, k);
      assert Ramp(k) + Nulls(n) == [k] + (Ramp(k + 1) + Nulls(n));
      var u := Missed(t, Before(k), k, Ramp(k + 1) + Nulls(n));
      StillClimbs(t, u, k);
      RampMissed(u, k + 1, n);
    }
  }

  /** A peer as bsd_init leaves it, for codes of at most nine bits. */
  function NewPeer(): Peer { Peer(Fresh(SMALL), 0, CLEARED_COUNTERS) }

  lemma PartingCodes(n: nat)
    ensures InOrder(SMALL, NewPeer())
    ensures var e := Encode(SMALL, Fresh(SMALL), PROTO, Parting(n).data); |e.bits| == 9 * (n + 257) && Climbed(e.t)
  {
    FreshLinkReady(SMALL);
    hide Encode;
    RampMissed(Fresh(SMALL), 0, n);
  }

  /** Whatever is put behind the codes, so many codes do not make a frame shorter than the packet. */
  lemma TooLong(cfg: Config, s: Peer, d: Datagram)
    requires InOrder(cfg, s) && CompressibleProto(d.proto)
    requires |Encode(cfg, s.t, d.proto, d.data).bits| >= 8 * |d.data|
    ensures Sends(cfg, s, d).0 == Plain(d)
  {
    hide Encode, Pack, Consistent, Widen, CheckRatio, Billed;
  }

  /**
   * Before the first check: so many bytes have gone in, and at least as many, but not very many more, have come out.
   */
  ghost predicate Early(l: Link, bytesIn: nat) {
    Abreast(SMALL, l.s, l.r) && l.s.counts.inCount == bytesIn < CHECK_GAP &&
    l.s.counts.checkpoint == CHECK_GAP && l.r.counts.checkpoint == CHECK_GAP &&
    bytesIn <= l.s.counts.bytesOut <= 34 * bytesIn
  }

  /** The packet takes about nine bits a byte, and leaves a full dictionary of climbing pairs. */
  ghost predicate Wasteful(t: Tables, d: Datagram) {
    d.proto == PROTO && |d.data| < 0x10_0000 && Consistent(SMALL, t) &&
    var e := Encode(SMALL, t, PROTO, d.data);
    9 * |d.data| <= |e.bits| <= 9 * (|d.data| + 1) && Climbed(e.t)
  }

  /** Such a packet brings the first check nearer, or brings it about and parts the two ends. */
  lemma WastefulHop(withAbc: bool, l: Link, bytesIn: nat, d: Datagram, capacity: nat)
    requires Early(l, bytesIn) && Wasteful(l.s.t, d) && |d.data| + 2 <= capacity
    ensures var h := Carry(SMALL, withAbc, l, d, capacity);
      && Ready(SMALL, l) && h.outcome == Untouched(d)
      && if bytesIn + |d.data| + 1 < CHECK_GAP
         then h.agree && Early(h.link, bytesIn + |d.data| + 1) && Climbed(h.link.s.t)
         else !h.agree && h.link.s.t != h.link.r.t
  {
    hide Encode, Consistent, Billed, Sends, Receives, ChecksAgree;
    TooLong(SMALL, l.s, d);
    FrameLengthIs(SMALL, l.s, d);
    FirstCheckIff(SMALL, withAbc, l.s, l.r, d);
    PacketKeepsLockstep(SMALL, withAbc, l.s, l.r, d, capacity);
    if bytesIn + |d.data| + 1 < CHECK_GAP {
      StaysAbreast(SMALL, withAbc, l.s, l.r, d, capacity);
      SenderCounts(SMALL, l.s, d);
      FullStays(l.s, d);
    }
  }

  lemma FullStays(s: Peer, d: Datagram)
    requires InOrder(SMALL, s) && CompressibleProto(d.proto) && !SenderCheck(SMALL, s, d).1
    requires Encode(SMALL, s.t, d.proto, d.data).t.maxEnt == 511
    ensures Sends(SMALL, s, d).1.t == Encode(SMALL, s.t, d.proto, d.data).t
  {
    SmallCodes();
    hide Encode, Consistent, SenderCheck, Frame;
  }

  function NullPacket(n: nat): Datagram { Datagram(PROTO, Nulls(n)) }

  /** k packets of n bytes: the first has all bytes once, and everything else is zeros. */
  function PartingRun(n: nat, k: nat): (run: seq<Datagram>)
    requires n >= 256 && k > 0
    ensures |run| == k && forall d :: d in run ==> |d.data| == n
  {
    [Parting(n - 256)] + seq(k - 1, _ => NullPacket(n))
  }

  /** After so many bytes, j packets of n bytes bring about the first check, and fewer do not. */
  predicate ChecksAfter(bytesIn: nat, n: nat, j: nat)
    decreases j
  {
    bytesIn < CHECK_GAP && j > 0 &&
    if j == 1 then CHECK_GAP <= bytesIn + n + 1 else ChecksAfter(bytesIn + n + 1, n, j - 1)
  }

  lemma {:induction false} ChecksAfterIs(bytesIn: nat, n: nat, j: nat)
    requires j > 0 && bytesIn + (j - 1) * (n + 1) < CHECK_GAP <= bytesIn + j * (n + 1)
    ensures ChecksAfter(bytesIn, n, j)
    decreases j
  {
    if j > 1 {
      assert j * (n + 1) == n + 1 + (j - 1) * (n + 1) && (j - 1) * (n + 1) == n + 1 + (j - 2) * (n + 1);
      ChecksAfterIs(bytesIn + n + 1, n, j - 1);
    }
  }

  /** All packets of a run but the last keep the two ends together, and the last one parts them; all of them arrive. */
  ghost predicate PartsAtLast(hops: seq<Hop>, run: seq<Datagram>) {
    |hops| == |run| > 0 && (forall i :: 0 <= i < |run| ==> hops[i].outcome == Untouched(run[i])) &&
    (forall i :: 0 <= i < |run| - 1 ==> hops[i].agree && Ready(SMALL, hops[i].link)) &&
    var last := hops[|hops| - 1];
    !last.agree && last.link.s.t != last.link.r.t
  }

  lemma OneHop(withAbc: bool, l: Link, run: seq<Datagram>, capacity: nat)
    requires run != []
    ensures var h := Carry(SMALL, withAbc, l, run[0], capacity);
      Run(SMALL, withAbc, l, run, capacity) == [h] + Run(SMALL, withAbc, h.link, run[1..], capacity)
  {
    hide Carry;
  }

  lemma PartsLater(h: Hop, hops: seq<Hop>, run: seq<Datagram>)
    requires run != [] && PartsAtLast(hops, run[1..])
    requires h.outcome == Untouched(run[0]) && h.agree && Ready(SMALL, h.link)
    ensures PartsAtLast([h] + hops, run)
  {
    hide Ready;
    var all := [h] + hops;
    assert forall i :: 0 < i < |run| ==> run[i] == run[1..][i - 1] && all[i] == hops[i - 1];
  }

  /** The first packets of a run, whatever follows: it brings the first check nearer, or parts the two ends. */
  lemma {:induction false} WastefulRun(withAbc: bool, l: Link, bytesIn: nat, run: seq<Datagram>, n: nat, capacity: nat)
    requires run != [] && Early(l, bytesIn) && Wasteful(l.s.t, run[0]) && n < 0x10_0000 && n + 2 <= capacity
    requires |run[0].data| == n && forall i :: 0 < i < |run| ==> run[i] == NullPacket(n)
    requires ChecksAfter(bytesIn, n, |run|)
    ensures PartsAtLast(Run(SMALL, withAbc, l, run, capacity), run)
    decreases |run|
  {
    hide Early, Wasteful, Climbed, Carry, Ready, Run, PartsAtLast;
    var h := Carry(SMALL, withAbc, l, run[0], capacity);
    WastefulHop(withAbc, l, bytesIn, run[0], capacity);
    OneHop(withAbc, l, run, capacity);
    if |run| == 1 {
      PartsNow(h, run, Run(SMALL, withAbc, h.link, run[1..], capacity));
    } else {
      assert run[1..][0] == NullPacket(n);
      EarlyReady(h.link, bytesIn + n + 1);
      NullsAreWasteful(h.link.s.t, n);
      WastefulRun(withAbc, h.link, bytesIn + n + 1, run[1..], n, capacity);
      PartsLater(h, Run(SMALL, withAbc, h.link, run[1..], capacity), run);
    }
  }

  lemma PartsNow(h: Hop, run: seq<Datagram>, none: seq<Hop>)
    requires |run| == 1 && |none| == 0 && h.outcome == Untouched(run[0]) && !h.agree && h.link.s.t != h.link.r.t
    ensures PartsAtLast([h] + none, run)
  {
  }

  lemma EarlyReady(l: Link, bytesIn: nat)
    requires Early(l, bytesIn)
    ensures Ready(SMALL, l)
  {
  }

  lemma NullsAreWasteful(t: Tables, n: nat)
    requires Climbed(t) && n < 0x10_0000
    ensures Wasteful(t, NullPacket(n))
  {
    NullsAfterProto(t, n);
    hide Encode, Consistent, Climbs;
  }

  lemma NewPeersEarly()
    ensures Ready(SMALL, Link(NewPeer(), NewPeer())) && Early(Link(NewPeer(), NewPeer()), 0)
  {
    SmallCodes();
    FreshLinkReady(SMALL);
    hide Fresh, Settled;
  }

  lemma RampIsWasteful(n: nat)
    requires n + 256 < 0x10_0000
    ensures Wasteful(Fresh(SMALL), Parting(n))
  {
    PartingCodes(n);
    hide Encode, Chained, Distinct, Reachable, SlotOk, Climbed;
  }

  /**
   * Two new peers and packets of n bytes, for any n from 256 to 2^20: when so many have been sent that a check is due,
   * and all of them have arrived, the sender has cleared its dictionary and the receiver has not. Packets of 1499
   * bytes, for one, part them with the seventh.
   */
  lemma NewPeersPart(withAbc: bool, n: nat, k: nat, capacity: nat)
    requires 256 <= n < 0x10_0000 && n + 2 <= capacity && k > 0 && (k - 1) * (n + 1) < CHECK_GAP <= k * (n + 1)
    ensures Ready(SMALL, Link(NewPeer(), NewPeer()))
    ensures PartsAtLast(Run(SMALL, withAbc, Link(NewPeer(), NewPeer()), PartingRun(n, k), capacity), PartingRun(n, k))
  {
    hide Early, Wasteful, Ready, Run, PartsAtLast, ChecksAfter;
    NewPeersEarly();
    RampIsWasteful(n - 256);
    ChecksAfterIs(0, n, k);
    WastefulRun(withAbc, Link(NewPeer(), NewPeer()), 0, PartingRun(n, k), n, capacity);
  }
}

/**
 * Runs of packets between a compressor and a decompressor. Peers are the values of the two BsdDb objects; Sends and
 * Receives are what Compress and Decompress do to them, as Transfer shows for two such objects.
 */
module BsdRuns {
  import opened Bits
  import opened BsdTables
  import opened BsdLockstep
  import opened BsdCodec

  datatype Peer = Peer(t: Tables, seqno: nat, counts: Counters)

  datatype Datagram = Datagram(proto: int, data: seq<Byte>)

  /** What crosses the link: a compressed frame, or the packet itself when it does not compress. */
  datatype Wire = Compressed(bytes: seq<Byte>) | Plain(packet: Datagram)

  /** Lost is what a link that is not ready makes of a packet. */
  datatype Outcome = Restored(payload: seq<Byte>) | Untouched(packet: Datagram) | Lost

  ghost predicate InOrder(cfg: Config, p: Peer) {
    Settled(cfg, p.t) && p.seqno < 0x1_0000
  }

  /** The buffer isdn_ppp_compress allocates for a packet of n bytes. */
  function Allocated(n: nat): nat { n + n / 2 + 32 }

  ghost function SenderCheck(cfg: Config, s: Peer, d: Datagram): (Counters, bool)
    requires InOrder(cfg, s) && CompressibleProto(d.proto)
  {
    CheckRatio(Billed(cfg, s.t, s.seqno, s.counts, d.proto, d.data, Allocated(|d.data|)),
               Encode(cfg, s.t, d.proto, d.data).t.maxEnt >= cfg.MaxMaxCode())
  }

  /** A packet of a protocol that is not compressed goes out as it is, and changes nothing. */
  ghost function Sends(cfg: Config, s: Peer, d: Datagram): (Wire, Peer)
    requires InOrder(cfg, s)
  {
    if !CompressibleProto(d.proto) then (Plain(d), s)
    else
      var (counts, clear) := SenderCheck(cfg, s, d);
      var room := Allocated(|d.data|);
      var bytes := Clip(Frame(cfg, s.t, s.seqno, d.proto, d.data, clear, room), room);
      (if |bytes| >= |d.data| then Plain(d) else Compressed(bytes),
       Peer(EncodePacket(cfg, s.t, d.proto, d.data, clear).t, (s.seqno + 1) % 0x1_0000, counts))
  }

  /** bsd_incomp's own decision, on the receiver's counters and without a buffer. */
  ghost function IncompCheck(cfg: Config, r: Peer, d: Datagram): (Counters, bool)
    requires InOrder(cfg, r) && CompressibleProto(d.proto)
  {
    CheckRatio(Billed(cfg, r.t, r.seqno, r.counts, d.proto, d.data, 0),
               Encode(cfg, r.t, d.proto, d.data).t.maxEnt >= cfg.MaxMaxCode())
  }

  /** bsd_decompress's own decision after a packet decoded to n bytes from m; the ABC build makes none. */
  ghost function DecompCheck(cfg: Config, withAbc: bool, r: Peer, t: Tables, n: nat, m: nat, cleared: bool)
    : (Counters, bool)
  {
    var c := ReceivedCounts(r.counts, n, m, cleared);
    if withAbc then (c, false) else CheckRatio(c, t.maxEnt >= cfg.MaxMaxCode())
  }

  /**
   * A plain packet arrives as it is; a frame does when it is the next one and decodes into a buffer of that capacity.
   */
  ghost predicate Readable(cfg: Config, r: Peer, w: Wire, capacity: nat) {
    InOrder(cfg, r) && capacity > 0 &&
    (w.Compressed? ==>
      InSequence(w.bytes, r.seqno) && Decode(cfg, r.t, None, BytesToBits(w.bytes[2..]), capacity - 1).Ok?)
  }

  ghost function Receives(cfg: Config, withAbc: bool, r: Peer, w: Wire, capacity: nat): (Outcome, Peer)
    requires Readable(cfg, r, w, capacity)
  {
    match w
    case Plain(d) =>
      if !CompressibleProto(d.proto) then (Untouched(d), r)
      else
        var (counts, clear) := IncompCheck(cfg, r, d);
        (Untouched(d), Peer(EncodePacket(cfg, r.t, d.proto, d.data, clear).t, (r.seqno + 1) % 0x1_0000, counts))
    case Compressed(bytes) =>
      var Ok(s, t, cleared) := Decode(cfg, r.t, None, BytesToBits(bytes[2..]), capacity - 1);
      var (counts, clear) := DecompCheck(cfg, withAbc, r, t, |s|, |bytes| - 2, cleared);
      (Restored([0] + s), Peer(if clear then Cleared(t) else t, (r.seqno + 1) % 0x1_0000, counts))
  }

  /**
   * The two sides decide alike: on a plain packet both clear or neither does; on a frame the receiver only obeys CLEAR.
   */
  ghost predicate ChecksAgree(cfg: Config, withAbc: bool, s: Peer, r: Peer, d: Datagram)
    requires InOrder(cfg, s) && InOrder(cfg, r)
  {
    match Sends(cfg, s, d).0
    case Plain(_) => CompressibleProto(d.proto) ==> SenderCheck(cfg, s, d).1 == IncompCheck(cfg, r, d).1
    case Compressed(bytes) =>
      !DecompCheck(cfg, withAbc, r, Sends(cfg, s, d).1.t, |d.data| + 1, |bytes| - 2, SenderCheck(cfg, s, d).1).1
  }

  ghost predicate Expected(d: Datagram, w: Wire, o: Outcome) {
    match w
    case Plain(_) => o == Untouched(d)
    case Compressed(_) => CompressibleProto(d.proto) && o == Restored([0, d.proto] + d.data)
  }

  // ----- one packet -----

  lemma CheckClearsOnlyFull(c: Counters, full: bool)
    ensures CheckRatio(c, full).1 ==> full
  {
  }

  /** A frame that came out shorter than its packet was not clipped, and carries the sequence number. */
  lemma FrameOnWire(cfg: Config, s: Peer, d: Datagram)
    requires InOrder(cfg, s) && Sends(cfg, s, d).0.Compressed?
    ensures var bytes := Sends(cfg, s, d).0.bytes;
      var bits := EncodePacket(cfg, s.t, d.proto, d.data, SenderCheck(cfg, s, d).1).bits;
      && InSequence(bytes, s.seqno)
      && BytesToBits(bytes[2..]) == bits + Padding(|bits|)
  {
    var room := Allocated(|d.data|);
    var bits := EncodePacket(cfg, s.t, d.proto, d.data, SenderCheck(cfg, s, d).1).bits;
    var body := Pack(Padded(bits));
    assert (Header(s.seqno, room) + body)[2..] == body;
  }

  /** Protocols below 0x21, above 0xf9 or even are left alone: the packet goes out as it is, and bears no number. */
  lemma LeftAloneIff(cfg: Config, s: Peer, d: Datagram)
    requires InOrder(cfg, s)
    ensures Sends(cfg, s, d) == (Plain(d), s) <==> d.proto < 0x21 || d.proto > 0xf9 || d.proto % 2 == 0
  {
    hide Encode, EncodePacket, CheckRatio, Billed, Frame, Clip, Settled;
    if CompressibleProto(d.proto) {
      assert Sends(cfg, s, d).1.seqno == (s.seqno + 1) % 0x1_0000;
    }
  }

  /** A frame is sent only if, with its header and its last bits filled up to a byte, it is shorter than its packet. */
  lemma CompressedIff(cfg: Config, s: Peer, d: Datagram)
    requires InOrder(cfg, s) && CompressibleProto(d.proto)
    ensures Sends(cfg, s, d).0.Compressed? <==>
      2 + (|EncodePacket(cfg, s.t, d.proto, d.data, SenderCheck(cfg, s, d).1).bits| + 7) / 8 < |d.data|
  {
    hide EncodePacket, SenderCheck, Pack, SlotOk, Chained, Distinct, Reachable;
    var room := Allocated(|d.data|);
    var bits := EncodePacket(cfg, s.t, d.proto, d.data, SenderCheck(cfg, s, d).1).bits;
    PaddedLength(bits);
    assert (|bits| + 7) / 8 == |bits| / 8 + if |bits| % 8 != 0 then 1 else 0;
    assert |Header(s.seqno, room)| == 2;
  }

  /** A frame is the next one, and decodes to that payload and those tables, cleared or not. */
  ghost predicate DecodesTo(cfg: Config, p: Peer, w: Wire, capacity: nat, payload: seq<Byte>, t: Tables, clear: bool) {
    InOrder(cfg, p) && capacity > 0 && w.Compressed? && InSequence(w.bytes, p.seqno) &&
    Decode(cfg, p.t, None, BytesToBits(w.bytes[2..]), capacity - 1) == Ok(payload, t, clear)
  }

  /** From tables that equal the sender's, a frame decodes to its packet and to the sender's new tables. */
  lemma FrameDecodes(cfg: Config, s: Peer, d: Datagram, capacity: nat)
    requires InOrder(cfg, s) && Sends(cfg, s, d).0.Compressed? && capacity >= |d.data| + 2
    ensures CompressibleProto(d.proto)
    ensures DecodesTo(cfg, s, Sends(cfg, s, d).0, capacity,
              [d.proto] + d.data, Sends(cfg, s, d).1.t, SenderCheck(cfg, s, d).1)
  {
    hide Encode, Decode, Sound, Chained, Distinct, Reachable, CheckRatio, Billed, Frame;
    var clear := SenderCheck(cfg, s, d).1;
    var e := Encode(cfg, s.t, d.proto, d.data);
    CheckClearsOnlyFull(Billed(cfg, s.t, s.seqno, s.counts, d.proto, d.data, Allocated(|d.data|)),
      e.t.maxEnt >= cfg.MaxMaxCode());
    FrameOnWire(cfg, s, d);
    PacketRoundTrip(cfg, s.t, d.proto, d.data, clear, capacity - 1);
  }

  /**
   * A packet between peers with equal tables and sequence numbers arrives whole, compressed or not, and the peers are
   * equal afterwards if and only if their decisions about clearing agree.
   */
  lemma PacketKeepsLockstep(cfg: Config, withAbc: bool, s: Peer, r: Peer, d: Datagram, capacity: nat)
    requires InOrder(cfg, s) && s.t == r.t && s.seqno == r.seqno && capacity >= |d.data| + 2
    ensures var (w, s') := Sends(cfg, s, d);
      Readable(cfg, r, w, capacity) &&
      var (o, r') := Receives(cfg, withAbc, r, w, capacity);
      && Expected(d, w, o)
      && s'.seqno == r'.seqno && InOrder(cfg, s') && InOrder(cfg, r')
      && (r'.t == s'.t <==> ChecksAgree(cfg, withAbc, s, r, d))
  {
    hide Encode, Decode, Sound, Chained, Distinct, Reachable, CheckRatio, Billed, Frame;
    var (w, s') := Sends(cfg, s, d);
    if !CompressibleProto(d.proto) {
      return;
    }
    var clear := SenderCheck(cfg, s, d).1;
    var e := Encode(cfg, s.t, d.proto, d.data);
    CheckClearsOnlyFull(Billed(cfg, s.t, s.seqno, s.counts, d.proto, d.data, Allocated(|d.data|)),
      e.t.maxEnt >= cfg.MaxMaxCode());
    EncodePacketSettled(cfg, s.t, d.proto, d.data, clear);
    if w.Plain? {
      var clear' := IncompCheck(cfg, r, d).1;
      CheckClearsOnlyFull(Billed(cfg, r.t, r.seqno, r.counts, d.proto, d.data, 0), e.t.maxEnt >= cfg.MaxMaxCode());
      EncodePacketSettled(cfg, r.t, d.proto, d.data, clear');
      if clear != clear' {
        FullIsNotCleared(cfg, s.t, d);
      }
    } else {
      FrameDecodes(cfg, s, d, capacity);
      assert [0] + ([d.proto] + d.data) == [0, d.proto] + d.data;
      var c := ReceivedCounts(r.counts, |d.data| + 1, |w.bytes| - 2, clear);
      CheckClearsOnlyFull(c, s'.t.maxEnt >= cfg.MaxMaxCode());
      SettledCleared(cfg, s'.t);
    }
  }

  lemma SettledCleared(cfg: Config, t: Tables)
    requires Settled(cfg, t)
    ensures Settled(cfg, Cleared(t)) && (t.maxEnt >= cfg.MaxMaxCode() ==> Cleared(t) != t)
  {
    ConfigFacts(cfg);
    ClearedSettled(cfg, t);
  }

  lemma FullIsNotCleared(cfg: Config, t: Tables, d: Datagram)
    requires Settled(cfg, t) && CompressibleProto(d.proto) &&
      Encode(cfg, t, d.proto, d.data).t.maxEnt >= cfg.MaxMaxCode()
    ensures EncodePacket(cfg, t, d.proto, d.data, true).t != EncodePacket(cfg, t, d.proto, d.data, false).t
  {
    ConfigFacts(cfg);
  }

  // ----- runs -----

  datatype Link = Link(s: Peer, r: Peer)

  /** One packet over the link; agree says whether the two sides decided alike. */
  datatype Hop = Hop(wire: Wire, outcome: Outcome, link: Link, agree: bool)

  ghost predicate Ready(cfg: Config, l: Link) {
    InOrder(cfg, l.s) && InOrder(cfg, l.r) && l.s.t == l.r.t && l.s.seqno == l.r.seqno
  }

  ghost function Carry(cfg: Config, withAbc: bool, l: Link, d: Datagram, capacity: nat): Hop {
    if Ready(cfg, l) && |d.data| + 2 <= capacity then
      PacketKeepsLockstep(cfg, withAbc, l.s, l.r, d, capacity);
      var (w, s') := Sends(cfg, l.s, d);
      var (o, r') := Receives(cfg, withAbc, l.r, w, capacity);
      Hop(w, o, Link(s', r'), ChecksAgree(cfg, withAbc, l.s, l.r, d))
    else Hop(Plain(d), Lost, l, false)
  }

  ghost function Run(cfg: Config, withAbc: bool, l: Link, run: seq<Datagram>, capacity: nat): (hops: seq<Hop>)
    ensures |hops| == |run|
    decreases |run|
  {
    hide Ready, Sends, Receives, ChecksAgree;
    if run == [] then []
    else
      var h := Carry(cfg, withAbc, l, run[0], capacity);
      [h] + Run(cfg, withAbc, h.link, run[1..], capacity)
  }

  /**
   * Over any run on which the checks agree every packet arrives whole, and after every packet the two sides have equal
   * dictionaries slot for slot, equal code widths, largest codes and sequence numbers.
   */
  lemma {:induction false} RunRoundTrip(cfg: Config, withAbc: bool, l: Link, run: seq<Datagram>, capacity: nat)
    requires Ready(cfg, l) && forall d :: d in run ==> |d.data| + 2 <= capacity
    requires forall h :: h in Run(cfg, withAbc, l, run, capacity) ==> h.agree
    ensures var hops := Run(cfg, withAbc, l, run, capacity);
      forall k :: 0 <= k < |run| ==> Expected(run[k], hops[k].wire, hops[k].outcome) && Ready(cfg, hops[k].link)
    decreases |run|
  {
    hide InOrder, Sends, Receives, ChecksAgree;
    if run != [] {
      assert run[0] in run;
      var h := Carry(cfg, withAbc, l, run[0], capacity);
      var rest := Run(cfg, withAbc, h.link, run[1..], capacity);
      PacketKeepsLockstep(cfg, withAbc, l.s, l.r, run[0], capacity);
      assert h in Run(cfg, withAbc, l, run, capacity);
      forall k | k in rest
        ensures k.agree
      {
        assert k in [h] + rest;
      }
      RunRoundTrip(cfg, withAbc, h.link, run[1..], capacity);
    }
  }

  /** Without the receiver's own check, compressed packets never bring the checks apart: only in-band CLEAR clears. */
  lemma {:induction false} CompressedRunAgrees(cfg: Config, l: Link, run: seq<Datagram>, capacity: nat)
    requires Ready(cfg, l) && forall d :: d in run ==> |d.data| + 2 <= capacity
    requires forall h :: h in Run(cfg, true, l, run, capacity) ==> h.wire.Compressed?
    ensures forall h :: h in Run(cfg, true, l, run, capacity) ==> h.agree
    decreases |run|
  {
    if run != [] {
      assert run[0] in run;
      var h := Carry(cfg, true, l, run[0], capacity);
      FrameAgrees(cfg, l, run[0], capacity);
      hide InOrder, Sends, Receives, ChecksAgree;
      var rest := Run(cfg, true, h.link, run[1..], capacity);
      assert h in Run(cfg, true, l, run, capacity);
      PacketKeepsLockstep(cfg, true, l.s, l.r, run[0], capacity);
      forall k | k in rest
        ensures k.wire.Compressed?
      {
        assert k in [h] + rest;
      }
      CompressedRunAgrees(cfg, h.link, run[1..], capacity);
    }
  }

  lemma FrameAgrees(cfg: Config, l: Link, d: Datagram, capacity: nat)
    requires Ready(cfg, l) && capacity > 0
    ensures var h := Carry(cfg, true, l, d, capacity); h.wire.Compressed? ==> h.agree
  {
    hide Encode, Decode, Sound, Chained, Distinct, Reachable, CheckRatio, Billed, Frame;
  }

  /** Two freshly initialised peers are ready. */
  lemma FreshLinkReady(cfg: Config)
    requires ValidConfig(cfg)
    ensures var p := Peer(Fresh(cfg), 0, CLEARED_COUNTERS); Ready(cfg, Link(p, p))
  {
    FreshConsistent(cfg);
    ConfigFacts(cfg);
    assert Pow2(9) == 512;
  }

  // ----- why the checks may disagree -----

  /** For every compressed packet without CLEAR the sender bills two bytes more than the receiver: the header. */
  lemma SenderBillsHeader(cfg: Config, s: Peer, d: Datagram)
    requires InOrder(cfg, s) && Sends(cfg, s, d).0.Compressed? && !SenderCheck(cfg, s, d).1
    ensures var bytes := Sends(cfg, s, d).0.bytes;
      var billed := Billed(cfg, s.t, s.seqno, s.counts, d.proto, d.data, Allocated(|d.data|));
      var received := ReceivedCounts(s.counts, |d.data| + 1, |bytes| - 2, false);
      billed.inCount == received.inCount && billed.bytesOut == (received.bytesOut + 2) % U32
  {
    hide Encode, Sound, Chained, Distinct, Reachable, CheckRatio, Pack, BilledBytes, ReceivedCounts, WholeBytes;
    var room := Allocated(|d.data|);
    var bits := Encode(cfg, s.t, d.proto, d.data).bits;
    assert EncodePacket(cfg, s.t, d.proto, d.data, false).bits == bits;
    BilledLengths(Header(s.seqno, room), bits, room);
    FrameOnWire(cfg, s, d);
    var whole := Clip(Header(s.seqno, room) + Pack(WholeBytes(bits)), room);
    TwoMore(s.counts, |d.data| + 1, |whole|, |bits| % 8 != 0);
  }

  lemma TwoMore(c: Counters, bytesIn: nat, bytesSoFar: nat, dribble: bool)
    requires bytesSoFar + (if dribble then 1 else 0) >= 2
    ensures var billed := BilledBytes(c, bytesIn, bytesSoFar, dribble);
      var received := ReceivedCounts(c, bytesIn, bytesSoFar + (if dribble then 1 else 0) - 2, false);
      billed.inCount == received.inCount && billed.bytesOut == (received.bytesOut + 2) % U32
  {
  }

  lemma BilledLengths(header: seq<Byte>, bits: seq<bool>, room: nat)
    requires |Clip(header + Pack(Padded(bits)), room)| < room
    ensures |Clip(header + Pack(Padded(bits)), room)|
         == |Clip(header + Pack(WholeBytes(bits)), room)| + if |bits| % 8 != 0 then 1 else 0
  {
    hide Pack, Padding, WholeBytes;
    PaddedLength(bits);
  }

  lemma PaddedLength(bits: seq<bool>)
    ensures |bits + Padding(|bits|)| / 8 == |bits| / 8 + (if |bits| % 8 != 0 then 1 else 0)
    ensures |WholeBytes(bits)| / 8 == |bits| / 8
  {
    PaddingOf(|bits| / 8, |bits| % 8);
  }

  // ----- the two objects -----

  ghost function PeerOf(db: BsdDb): Peer
    reads db, db.dict
  {
    Peer(db.T(), db.seqno, db.Counts())
  }

  /** A decompressor in working order: it keeps the lengths of all strings. */
  ghost predicate Receiver(db: BsdDb)
    reads db, db.dict, db.lens
  {
    db.Valid() && db.lens != null && LensOk(db.Lengths(), db.T())
  }

  ghost predicate Apart(tx: BsdDb, rx: BsdDb) {
    tx != rx && tx.dict != rx.dict && tx.lens == null && tx.cfg == rx.cfg
  }

  /** isdn_ppp_compress for one packet: the frame if it came out shorter, else the packet itself. */
  method Send(tx: BsdDb, d: Datagram) returns (wire: Wire)
    requires tx.Valid() && Settled(tx.cfg, tx.T()) && tx.lens == null
    modifies tx, tx.dict
    ensures tx.Valid()
    ensures (wire, PeerOf(tx)) == Sends(tx.cfg, old(PeerOf(tx)), d)
  {
    hide Settled, Encode, EncodePacket, Frame, Billed, CheckRatio, LensOk;
    var out := new Skb(Allocated(|d.data|));
    if CompressibleProto(d.proto) {
      FrameHasHeader(tx.cfg, PeerOf(tx), d);
    }
    var ret, cleared := tx.Compress(d.data, out, d.proto);
    wire := if ret == 0 then Plain(d) else Compressed(out.data);
  }

  lemma FrameHasHeader(cfg: Config, s: Peer, d: Datagram)
    requires InOrder(cfg, s) && CompressibleProto(d.proto)
    ensures var room := Allocated(|d.data|);
      forall clear :: |Clip(Frame(cfg, s.t, s.seqno, d.proto, d.data, clear, room), room)| >= 2
  {
    hide Encode, EncodePacket, Pack;
  }

  /** isdn_ppp_decompress: frames are decompressed, other packets go through bsd_incomp. */
  method Receive(rx: BsdDb, wire: Wire, capacity: nat) returns (outcome: Outcome)
    requires Receiver(rx) && Settled(rx.cfg, rx.T()) && Readable(rx.cfg, PeerOf(rx), wire, capacity)
    modifies rx, rx.dict, rx.lens
    ensures Receiver(rx)
    ensures (outcome, PeerOf(rx)) == Receives(rx.cfg, rx.withAbc, old(PeerOf(rx)), wire, capacity)
  {
    hide Settled, Encode, EncodePacket, Decode, Frame, Billed, CheckRatio, LensOk;
    match wire
    case Plain(d) =>
      var ret, cleared := rx.Compress(d.data, null, d.proto);
      outcome := Untouched(d);
    case Compressed(bytes) =>
      var out := new Skb(capacity);
      var ret, cleared := rx.Decompress(bytes, out);
      outcome := Restored(out.data);
  }

  /** One packet from a compressor to a decompressor that is in step with it: it arrives whole. */
  method Transfer(tx: BsdDb, rx: BsdDb, d: Datagram, capacity: nat) returns (wire: Wire, outcome: Outcome)
    requires tx.Valid() && Receiver(rx) && Apart(tx, rx) && |d.data| + 2 <= capacity
    requires Ready(tx.cfg, Link(PeerOf(tx), PeerOf(rx)))
    modifies tx, tx.dict, rx, rx.dict, rx.lens
    ensures tx.Valid() && Receiver(rx)
    ensures old(Carry(tx.cfg, rx.withAbc, Link(PeerOf(tx), PeerOf(rx)), d, capacity))
         == Hop(wire, outcome, Link(PeerOf(tx), PeerOf(rx)),
           old(ChecksAgree(tx.cfg, rx.withAbc, PeerOf(tx), PeerOf(rx), d)))
    ensures Expected(d, wire, outcome) && tx.seqno == rx.seqno
    ensures tx.T() == rx.T() <==> old(ChecksAgree(tx.cfg, rx.withAbc, PeerOf(tx), PeerOf(rx), d))
  {
    PacketKeepsLockstep(tx.cfg, rx.withAbc, PeerOf(tx), PeerOf(rx), d, capacity);
    hide Settled, Sends, Receives, ChecksAgree, Expected, Decode, LensOk;
    wire := Send(tx, d);
    outcome := Receive(rx, wire, capacity);
  }
}

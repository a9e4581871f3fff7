/**
 * What is delivered, in bytes: the receiver hands up packets of the sender as they were before they were cut into
 * fragments.
 */
module MpPackets {
  import opened Bits
  import opened MpSpec
  import opened MpNetwork
  import MpReceiver

  /** A packet, and the lengths of the pieces it is cut into, one after the other. */
  datatype Job = Job(packet: seq<Byte>, lengths: seq<nat>)

  function Sum(lengths: seq<nat>): nat { if lengths == [] then 0 else lengths[0] + Sum(lengths[1..]) }

  predicate Cut(j: Job) { j.lengths != [] && Sum(j.lengths) == |j.packet| }

  predicate AllCut(jobs: seq<Job>) { forall i :: 0 <= i < |jobs| ==> Cut(jobs[i]) }

  /** The pieces of what is left of a packet; first is true for the first piece of all. */
  function Pieces(packet: seq<Byte>, lengths: seq<nat>, first: bool): (p: seq<Piece>)
    requires Sum(lengths) == |packet|
    ensures |p| == |lengths|
  {
    if lengths == [] then []
    else
      [Piece(first, |lengths| == 1, packet[..lengths[0]])] + Pieces(packet[lengths[0]..], lengths[1..], false)
  }

  /** What a sender makes of its packets: all pieces, in order. */
  function Stream(jobs: seq<Job>): seq<Piece>
    requires AllCut(jobs)
  {
    if jobs == [] then []
    else
      var j := jobs[|jobs| - 1];
      Stream(jobs[..|jobs| - 1]) + Pieces(j.packet, j.lengths, true)
  }

  /** Where packet i begins in the stream. */
  function Start(jobs: seq<Job>, i: nat): nat
    requires i <= |jobs| && AllCut(jobs)
  {
    |Stream(jobs[..i])|
  }

  // ----- the sender conforms -----

  lemma OnePiece(packet: seq<Byte>, lengths: seq<nat>, first: bool)
    requires lengths != [] && Sum(lengths) == |packet|
    ensures lengths[0] <= |packet| && Sum(lengths[1..]) == |packet[lengths[0]..]|
    ensures Pieces(packet, lengths, first) ==
      [Piece(first, |lengths| == 1, packet[..lengths[0]])] + Pieces(packet[lengths[0]..], lengths[1..], false)
  {
  }

  /** Only the first piece may begin a packet, and only the last one ends it. */
  predicate Flagged(p: seq<Piece>, first: bool) {
    forall k :: 0 <= k < |p| ==> (p[k].begin <==> first && k == 0) && (p[k].end <==> k == |p| - 1)
  }

  lemma {:induction false} PieceFlags(packet: seq<Byte>, lengths: seq<nat>, first: bool)
    requires Sum(lengths) == |packet|
    ensures Flagged(Pieces(packet, lengths, first), first)
    decreases |lengths|
  {
    if lengths != [] {
      var p, rest := Pieces(packet, lengths, first), Pieces(packet[lengths[0]..], lengths[1..], false);
      PieceFlags(packet[lengths[0]..], lengths[1..], false);
      OnePiece(packet, lengths, first);
      hide Pieces;
      assert forall k :: 0 < k < |p| ==> p[k] == rest[k - 1];
    }
  }

  lemma {:induction false} StreamIsWellFormed(jobs: seq<Job>)
    requires AllCut(jobs)
    ensures WellFormed(Stream(jobs))
  {
    if jobs != [] {
      var j := jobs[|jobs| - 1];
      StreamIsWellFormed(jobs[..|jobs| - 1]);
      PieceFlags(j.packet, j.lengths, true);
      hide Pieces, WellFormed;
      assert Cut(j);
      JoinWellFormed(Stream(jobs[..|jobs| - 1]), Pieces(j.packet, j.lengths, true));
    }
  }

  lemma JoinWellFormed(a: seq<Piece>, b: seq<Piece>)
    requires WellFormed(a) && b != []
    requires Flagged(b, true)
    ensures WellFormed(a + b)
  {
    var s: seq<Piece> := a + b;
    assert forall n :: 0 <= n < |s| ==> s[n] == if n < |a| then a[n] else b[n - |a|];
  }

  // ----- the bytes of a packet -----

  lemma {:induction false} PayloadConcat(stream: seq<Piece>, a: nat, b: nat, c: nat)
    requires a <= b <= c <= |stream|
    ensures Payload(stream, a, c) == Payload(stream, a, b) + Payload(stream, b, c)
    decreases c
  {
    if b < c {
      PayloadConcat(stream, a, b, c - 1);
    }
  }

  lemma OnePayload(stream: seq<Piece>, a: nat)
    requires a < |stream|
    ensures Payload(stream, a, a + 1) == stream[a].data
  {
    assert Payload(stream, a, a) == [];
  }

  lemma NoPieces(stream: seq<Piece>, a: nat, packet: seq<Byte>)
    requires a <= |stream| && Sum([]) == |packet|
    ensures Payload(stream, a, a) == packet
  {
  }

  /** Some pieces of the stream carry just the bytes they were cut from. */
  lemma {:induction false} PiecesPayload(stream: seq<Piece>, a: nat, packet: seq<Byte>, lengths: seq<nat>, first: bool)
    requires Sum(lengths) == |packet| && a + |lengths| <= |stream|
    requires stream[a..a + |lengths|] == Pieces(packet, lengths, first)
    ensures Payload(stream, a, a + |lengths|) == packet
    decreases |lengths|
  {
    hide Pieces, Payload, Sum;
    if lengths == [] {
      NoPieces(stream, a, packet);
    } else {
      OnePiece(packet, lengths, first);
      var p, rest := Pieces(packet, lengths, first), Pieces(packet[lengths[0]..], lengths[1..], false);
      assert stream[a] == stream[a..a + |lengths|][0] == p[0];
      assert stream[a + 1..a + |lengths|] == stream[a..a + |lengths|][1..] == p[1..] == rest;
      PiecesPayload(stream, a + 1, packet[lengths[0]..], lengths[1..], false);
      PayloadConcat(stream, a, a + 1, a + |lengths|);
      OnePayload(stream, a);
      assert packet == packet[..lengths[0]] + packet[lengths[0]..];
    }
  }

  lemma {:induction false} StreamSplits(jobs: seq<Job>, i: nat)
    requires i < |jobs| && AllCut(jobs)
    ensures Start(jobs, i) + |jobs[i].lengths| == Start(jobs, i + 1) <= |Stream(jobs)|
    ensures Stream(jobs)[Start(jobs, i)..Start(jobs, i + 1)] == Pieces(jobs[i].packet, jobs[i].lengths, true)
    decreases |jobs|
  {
    hide Pieces, Sum;
    var n := |jobs| - 1;
    var last := Pieces(jobs[n].packet, jobs[n].lengths, true);
    assert jobs[..n + 1] == jobs && Stream(jobs) == Stream(jobs[..n]) + last;
    if i < n {
      assert jobs[..n][..i] == jobs[..i] && jobs[..n][..i + 1] == jobs[..i + 1] && jobs[..n][i] == jobs[i];
      StreamSplits(jobs[..n], i);
    }
  }

  /** Packet i of the sender, in the stream. */
  lemma JobIsPacket(jobs: seq<Job>, i: nat)
    requires i < |jobs| && AllCut(jobs)
    ensures Start(jobs, i) < Start(jobs, i + 1) <= |Stream(jobs)|
    ensures IsPacket(Stream(jobs), Start(jobs, i), Start(jobs, i + 1) - 1)
    ensures Payload(Stream(jobs), Start(jobs, i), Start(jobs, i + 1)) == jobs[i].packet
  {
    hide Pieces, Stream, Start, Payload, Sum;
    var j, s, a, b := jobs[i], Stream(jobs), Start(jobs, i), Start(jobs, i + 1);
    StreamSplits(jobs, i);
    PiecesPayload(s, a, j.packet, j.lengths, true);
    PieceFlags(j.packet, j.lengths, true);
    assert forall k :: a <= k < b ==> s[k] == s[a..b][k - a];
  }

  /** Every fragment belongs to one of the packets. */
  lemma {:induction false} Whose(jobs: seq<Job>, x: nat) returns (i: nat)
    requires AllCut(jobs) && x < |Stream(jobs)|
    ensures i < |jobs| && Start(jobs, i) <= x < Start(jobs, i + 1)
    decreases |jobs|
  {
    var n := |jobs| - 1;
    assert jobs[..n + 1] == jobs;
    if Start(jobs, n) <= x {
      i := n;
    } else {
      i := Whose(jobs[..n], x);
      assert jobs[..n][..i] == jobs[..i] && jobs[..n][..i + 1] == jobs[..i + 1];
    }
  }

  /** Whatever is one packet of the stream is one of the packets given to the sender. */
  lemma PacketIsJob(jobs: seq<Job>, a: nat, b: nat) returns (i: nat)
    requires AllCut(jobs) && IsPacket(Stream(jobs), a, b)
    ensures i < |jobs| && a == Start(jobs, i) && b + 1 == Start(jobs, i + 1)
    ensures Payload(Stream(jobs), a, b + 1) == jobs[i].packet
  {
    i := Whose(jobs, a);
    JobIsPacket(jobs, i);
    StreamIsWellFormed(jobs);
    hide Stream, Start, Payload;
    PacketsMeet(Stream(jobs), a, b, Start(jobs, i), Start(jobs, i + 1) - 1);
  }

  /** Packets of one stream that share a fragment are the same. */
  lemma PacketsMeet(stream: seq<Piece>, a: nat, b: nat, x: nat, y: nat)
    requires WellFormed(stream) && IsPacket(stream, a, b) && IsPacket(stream, x, y) && x <= a <= y
    ensures a == x && b == y
  {
    assert a > 0 ==> (stream[a].begin <==> stream[a - 1].end);
  }

  // ----- what is handed up -----

  /** The places of some of the packets, in the sender's order. */
  predicate Places(jobs: seq<Job>, idx: seq<nat>) {
    Increasing(idx) && forall k :: 0 <= k < |idx| ==> idx[k] < |jobs|
  }

  /** The packets at those places. */
  function At(jobs: seq<Job>, idx: seq<nat>): (p: seq<seq<Byte>>)
    requires Places(jobs, idx)
    ensures |p| == |idx| && forall k :: 0 <= k < |p| ==> p[k] == jobs[idx[k]].packet
  {
    seq(|idx|, k requires 0 <= k < |idx| => jobs[idx[k]].packet)
  }

  /** Run k is the packet at idx[k]. */
  predicate RunsAre(jobs: seq<Job>, runs: seq<Run>, idx: seq<nat>)
    requires AllCut(jobs)
  {
    Places(jobs, idx) && |idx| == |runs| &&
    forall k :: 0 <= k < |runs| ==> runs[k].first == Start(jobs, idx[k]) && runs[k].last + 1 == Start(jobs, idx[k] + 1)
  }

  lemma {:induction false} StartGrows(jobs: seq<Job>, i: nat, j: nat)
    requires i <= j <= |jobs| && AllCut(jobs)
    ensures Start(jobs, i) <= Start(jobs, j)
    decreases j
  {
    if i < j {
      StartGrows(jobs, i, j - 1);
      JobIsPacket(jobs, j - 1);
    }
  }

  lemma PlacesGrow(jobs: seq<Job>, i: nat, j: nat)
    requires AllCut(jobs) && i < |jobs| && j < |jobs| && Start(jobs, i + 1) <= Start(jobs, j)
    ensures i < j
  {
    JobIsPacket(jobs, i);
    if j <= i {
      StartGrows(jobs, j, i);
    }
  }

  /** Runs of whole packets in order are packets of the sender in its order, none of them twice. */
  lemma {:induction false} RunsArePackets(jobs: seq<Job>, next: int, runs: seq<Run>) returns (idx: seq<nat>)
    requires AllCut(jobs) && RunsInOrder(Stream(jobs), next, runs)
    ensures RunsAre(jobs, runs, idx)
    decreases |runs|
  {
    if runs == [] {
      idx := [];
    } else {
      var m := |runs| - 1;
      var front := RunsArePackets(jobs, next, runs[..m]);
      var i := PacketIsJob(jobs, runs[m].first, runs[m].last);
      idx := front + [i];
      hide Stream, Start, Payload, IsPacket;
      forall k | 0 <= k < m
        ensures front[k] < i
      {
        assert runs[k].last < runs[m].first && runs[..m][k] == runs[k];
        PlacesGrow(jobs, front[k], i);
      }
    }
  }

  /**
   * A packet of several pieces is handed up if a buffer of its length could be had, a packet of one piece in any case.
   */
  predicate HasRoom(j: Job, alloc: nat -> bool) { |j.lengths| == 1 || alloc(|j.packet|) }

  /** The packets at some places for which there was room. */
  function Kept(jobs: seq<Job>, alloc: nat -> bool, idx: seq<nat>): (p: seq<seq<Byte>>)
    requires Places(jobs, idx)
  {
    if idx == [] then []
    else
      var m := |idx| - 1;
      Kept(jobs, alloc, idx[..m]) + if HasRoom(jobs[idx[m]], alloc) then [jobs[idx[m]].packet] else []
  }

  /**
   * What one call hands up are packets that the sender was given, byte for byte, in the sender's order and none twice:
   * those of the runs it took for which there was room.
   */
  lemma {:induction false} HandedUp(jobs: seq<Job>, alloc: nat -> bool, next: int, runs: seq<Run>, out: seq<seq<Byte>>)
    returns (idx: seq<nat>)
    requires AllCut(jobs) && RunsInOrder(Stream(jobs), next, runs)
    requires MpReceiver.Handed(Stream(jobs), alloc, runs, out)
    ensures RunsAre(jobs, runs, idx) && out == Kept(jobs, alloc, idx)
  {
    idx := RunsArePackets(jobs, next, runs);
    KeptIsPushed(jobs, alloc, runs, idx);
  }

  lemma {:induction false} KeptIsPushed(jobs: seq<Job>, alloc: nat -> bool, runs: seq<Run>, idx: seq<nat>)
    requires AllCut(jobs) && RunsAre(jobs, runs, idx)
    requires forall i :: 0 <= i < |runs| ==> runs[i].last < |Stream(jobs)|
    requires forall i :: 0 <= i < |runs| ==> MpReceiver.PushedIfRoom(Stream(jobs), alloc, runs[i])
    ensures MpReceiver.Pushed(Stream(jobs), runs) == Kept(jobs, alloc, idx)
    decreases |runs|
  {
    hide Stream, Start, Payload, Pieces, AllCut, Sum, MpReceiver.PushedIfRoom, HasRoom;
    if runs != [] {
      var m := |runs| - 1;
      KeptIsPushed(jobs, alloc, runs[..m], idx[..m]);
      JobIsPacket(jobs, idx[m]);
      RoomForJob(jobs, alloc, runs[m], idx[m]);
    }
  }

  lemma RoomForJob(jobs: seq<Job>, alloc: nat -> bool, r: Run, i: nat)
    requires AllCut(jobs) && i < |jobs| && r.first == Start(jobs, i) && r.last + 1 == Start(jobs, i + 1)
    requires MpReceiver.PushedIfRoom(Stream(jobs), alloc, r)
    ensures r.pushed == HasRoom(jobs[i], alloc)
  {
    hide Stream, Start, Payload, Pieces, Sum, IsPacket, AllCut, Cut;
    JobIsPacket(jobs, i);
    StreamSplits(jobs, i);
  }

  /**
   * Sixteen fragments may wait: nothing is dropped as long as they suffice, and otherwise all but the latest sixteen.
   */
  lemma SixteenWait(stream: seq<Piece>, rx: Rx, link: nat, n: nat, rx': Rx, e: Effect)
    requires link < |rx.last| && Received(stream, rx, link, n, rx', e) && !e.tossed
    ensures |e.queue| <= 16 ==> rx'.held == e.queue && e.spilled == {}
    ensures |e.queue| > 16 ==>
      rx'.held == e.queue[|e.queue| - 16..] && e.spilled == Elems(e.queue[..|e.queue| - 16]) && e.spilled != {}
  {
    assert Overflowed(rx'.held, e);
    hide Received;
    assert e.queue[..0] == [] && e.queue[0..] == e.queue;
    if |e.queue| > 16 {
      assert e.queue[..|e.queue| - 16][0] in e.spilled;
    }
  }

  /** With buffers to be had at any time, everything that is taken is handed up. */
  lemma {:induction false} NothingWithheld(jobs: seq<Job>, alloc: nat -> bool, idx: seq<nat>)
    requires Places(jobs, idx) && forall n :: alloc(n)
    ensures Kept(jobs, alloc, idx) == At(jobs, idx)
    decreases |idx|
  {
    hide Cut;
    if idx != [] {
      var m := |idx| - 1;
      NothingWithheld(jobs, alloc, idx[..m]);
      assert alloc(|jobs[idx[m]].packet|);
      assert At(jobs, idx) == At(jobs, idx[..m]) + [jobs[idx[m]].packet];
      hide At, Places;
    }
  }

  /**
   * Delivery is exact in bytes: in every reachable state of a bundle that carries the packets of a sender, cut in any
   * way, what was taken are packets given to the sender, in its order and none twice, and what was in them is their
   * bytes.
   */
  lemma BytesDelivered(jobs: seq<Job>, links: nat, states: seq<Net>, t: nat) returns (idx: seq<nat>)
    requires AllCut(jobs) && Behaviour(Stream(jobs), links, states) && t < |states|
    ensures RunsAre(jobs, states[t].runs, idx)
    ensures forall k :: 0 <= k < |idx| ==> var r := states[t].runs[k];
      r.last < |Stream(jobs)| && Payload(Stream(jobs), r.first, r.last + 1) == jobs[idx[k]].packet
  {
    hide Stream, Start, Payload, Behaviour;
    Always(Stream(jobs), links, states, t);
    idx := RunsArePackets(jobs, -1, states[t].runs);
    forall k | 0 <= k < |idx|
      ensures var r := states[t].runs[k];
        r.last < |Stream(jobs)| && Payload(Stream(jobs), r.first, r.last + 1) == jobs[idx[k]].packet
    {
      JobIsPacket(jobs, idx[k]);
    }
  }
}

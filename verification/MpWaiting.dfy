/**
 * When the receiver hands on a complete packet: exactly which ones one call takes and which it leaves in the queue, and
 * when a stream that arrives without loss is handed on.
 */
module MpWaiting {
  import opened Bits
  import opened MpWire
  import opened MpSpec
  import MpReceiver
  import opened MpNetwork

  /** Fragments a to b are one packet, all of which is in s. */
  predicate HasPacket(stream: seq<Piece>, s: set<nat>, a: nat, b: nat) {
    IsPacket(stream, a, b) && forall y: nat :: a <= y <= b ==> y in s
  }

  /** The first complete packet in s begins with c. */
  ghost predicate FirstComplete(stream: seq<Piece>, s: set<nat>, c: nat) {
    (exists b :: HasPacket(stream, s, c, b)) && forall a, b :: HasPacket(stream, s, a, b) ==> c <= a
  }

  /** Fragment n arrives and is not tossed, and e is what the call does. */
  ghost predicate Accepted(stream: seq<Piece>, rx: Rx, link: nat, n: nat, rx': Rx, e: Effect) {
    Sane(stream, rx) && link < |rx.last| && rx.next <= n && Received(stream, rx, link, n, rx', e)
  }

  // ----- one call -----

  lemma NotDoomed(stream: seq<Piece>, a: nat, b: nat, x: nat, atHand: set<nat>, last: seq<nat>)
    requires WellFormed(stream) && HasPacket(stream, atHand, a, b) && a <= x <= b
    ensures !Doomed(stream, x, atHand, last)
  {
    forall y: nat | SamePacket(stream, x, y)
      ensures y in atHand
    {
      assert a > 0 ==> stream[a - 1].end;
    }
  }

  /** What is at hand is queued, taken or freed. */
  lemma QueuedTakenFreed(stream: seq<Piece>, rx: Rx, link: nat, n: nat, rx': Rx, e: Effect)
    requires Accepted(stream, rx, link, n, rx', e)
    ensures Elems(e.queue) + RunElems(e.runs) + e.stale == Elems(rx.held) + {n}
  {
    hide Sane, RunElems, Doomed, HeadIncomplete, RunsInOrder, ReadyToRun, Unbroken, Tried, Ordered;
    var k := Excess(e.queue);
    assert e.queue == e.queue[..k] + e.queue[k..];
    assert Elems(e.queue) == e.spilled + Elems(rx'.held);
  }

  /** A complete packet is taken as a whole, or stays in the queue as a whole. */
  lemma TakenOrQueued(stream: seq<Piece>, rx: Rx, link: nat, n: nat, rx': Rx, e: Effect, a: nat, b: nat)
    requires Accepted(stream, rx, link, n, rx', e) && HasPacket(stream, Elems(rx.held) + {n}, a, b)
    ensures a in RunElems(e.runs) || forall y: nat :: a <= y <= b ==> y in e.queue
  {
    QueuedTakenFreed(stream, rx, link, n, rx', e);
    forall y: nat | a <= y <= b && a !in RunElems(e.runs)
      ensures y in e.queue
    {
      NotDoomed(stream, a, b, y, Elems(rx.held) + {n}, rx'.last);
      hide Doomed, IsPacket, HeadIncomplete, ReadyToRun, Unbroken, Tried, Ordered, Overflowed, RunElems;
      if y in RunElems(e.runs) {
        SamePacketWithin(stream, a, b, y);
        TakenTogether(stream, rx.next, e.runs, a, y);
        assert false;
      }
      assert y in Elems(e.queue);
    }
  }

  lemma SamePacketWithin(stream: seq<Piece>, a: nat, b: nat, y: nat)
    requires IsPacket(stream, a, b) && a <= y <= b
    ensures SamePacket(stream, a, y)
  {
  }

  /** What a call takes is everything from the first complete packet on, up to the next number. */
  lemma TakenFromFirst(stream: seq<Piece>, rx: Rx, link: nat, n: nat, rx': Rx, e: Effect, c: nat)
    requires Accepted(stream, rx, link, n, rx', e) && FirstComplete(stream, Elems(rx.held) + {n}, c) && e.runs != []
    ensures e.runs[0].first == c && (c == rx.next || c in rx.held)
    ensures forall y: nat :: y in RunElems(e.runs) <==> c <= y < rx'.next
  {
    var atHand := Elems(rx.held) + {n};
    var f, d := e.runs[0].first, e.runs[0].last;
    QueuedTakenFreed(stream, rx, link, n, rx', e);
    assert HasPacket(stream, atHand, f, d) by {
      forall y: nat | f <= y <= d
        ensures y in RunElems(e.runs)
      {
        RunElemsHas(e.runs, 0, y);
      }
    }
    var b :| HasPacket(stream, atHand, c, b);
    TakenOrQueued(stream, rx, link, n, rx', e, c, b);
    EndsBefore(stream, rx.next, e.runs);
    hide Doomed, IsPacket, HeadIncomplete, ReadyToRun, Tried, Overflowed, RunElems, Sane, Elems;
    assert c <= f;
    assert c in RunElems(e.runs) || c in e.queue;
    assert f < rx'.next;
    assert f <= c;
  }

  lemma NoEndInRun(stream: seq<Piece>, held: seq<nat>, j: nat, y: nat)
    requires j < |held| && RunUpTo(stream, held, j) && held[0] <= y <= held[0] + j
    ensures y < |stream| && !stream[y].end
  {
    var i := y - held[0];
    assert held[i] == y;
  }

  /** A run without an end does not stop before the end of a packet that is all there. */
  lemma NextInRun(stream: seq<Piece>, held: seq<nat>, b: nat, j: nat)
    requires Increasing(held) && j < |held| && RunUpTo(stream, held, j) && held[0] <= b < |stream| && stream[b].end
    requires forall y: nat :: held[0] <= y <= b ==> y in held
    ensures j + 1 < |held| && held[j + 1] == held[0] + j + 1
  {
    assert b > held[0] + j by {
      if b <= held[0] + j {
        NoEndInRun(stream, held, j, b);
        assert false;
      }
    }
    var y: nat := held[0] + j + 1;
    assert y in held;
    var i :| 0 <= i < |held| && held[i] == y;
    assert i > j && held[j] < held[j + 1] <= held[i];
  }

  lemma HeadNotIncomplete(stream: seq<Piece>, held: seq<nat>, b: nat)
    requires Increasing(held) && held != [] && held[0] <= b < |stream| && stream[b].end
    requires forall y: nat :: held[0] <= y <= b ==> y in held
    ensures !HeadIncomplete(stream, held, |held|)
  {
    hide Increasing, RunUpTo;
    forall j | 0 <= j < |held| && RunUpTo(stream, held, j)
      ensures j + 1 < |held| && held[j + 1] == held[0] + j + 1
    {
      NextInRun(stream, held, b, j);
    }
  }

  lemma StartsAtHead(stream: seq<Piece>, held: seq<nat>, i: nat, j: nat)
    requires WellFormed(stream) && i <= j < |held| && RunUpTo(stream, held, j) && stream[held[i]].begin
    ensures i == 0
  {
    var x, k := held[i], if i > 0 then i - 1 else 0;
    assert x == held[0] + i && held[k] == held[0] + k && !stream[held[k]].end;
    assert x > 0 ==> (stream[x].begin <==> stream[x - 1].end);
  }

  /** A queue that contains a whole packet not after the mark does not wait. */
  lemma HeadDoesNotWait(stream: seq<Piece>, held: seq<nat>, c: nat, b: nat, mark: int)
    requires WellFormed(stream) && Increasing(held) && held != [] && held[0] <= c <= mark
    requires HasPacket(stream, Elems(held), c, b)
    ensures !HeadWaits(stream, held, |held|, mark)
  {
    assert c in Elems(held);
    forall y: nat | c <= y <= b
      ensures y in held
    {
      assert y in Elems(held);
    }
    var i :| 0 <= i < |held| && held[i] == c;
    forall j | 0 <= j < |held| && RunUpTo(stream, held, j)
      ensures j + 1 < |held| && (held[j + 1] == held[0] + j + 1 || held[j] < mark)
    {
      if i <= j {
        StartsAtHead(stream, held, i, j);
        NextInRun(stream, held, b, j);
      }
    }
  }

  /**
   * A packet is not left behind while all from the first complete packet to its end is at hand, and that one is tried.
   */
  lemma NotLeft(stream: seq<Piece>, rx: Rx, link: nat, n: nat, rx': Rx, e: Effect, a: nat, b: nat, c: nat)
    requires Accepted(stream, rx, link, n, rx', e) && HasPacket(stream, Elems(rx.held) + {n}, a, b)
    requires FirstComplete(stream, Elems(rx.held) + {n}, c) && Tryable(rx, rx'.last, c)
    requires forall y: nat :: c <= y <= b ==> y in Elems(rx.held) + {n}
    ensures a in RunElems(e.runs)
  {
    SomethingTaken(stream, rx, link, n, rx', e, c);
    TakenFromFirst(stream, rx, link, n, rx', e, c);
    RunReaches(stream, rx, link, n, rx', e, b, c);
  }

  /** The packets taken do not end where more is at hand, up to the end of a packet. */
  lemma RunReaches(stream: seq<Piece>, rx: Rx, link: nat, n: nat, rx': Rx, e: Effect, b: nat, c: nat)
    requires Accepted(stream, rx, link, n, rx', e) && FirstComplete(stream, Elems(rx.held) + {n}, c) && e.runs != []
    requires c <= b < |stream| && stream[b].end && forall y: nat :: c <= y <= b ==> y in Elems(rx.held) + {n}
    ensures b < rx'.next
  {
    QueuedTakenFreed(stream, rx, link, n, rx', e);
    TakenFromFirst(stream, rx, link, n, rx', e, c);
    if rx'.next <= b {
      var x: nat := rx'.next;
      forall y: nat | x <= y <= b
        ensures y in e.queue
      {
        assert y in Elems(e.queue) + RunElems(e.runs) + e.stale;
      }
      QueueFrom(rx', e, x);
      HeadNotIncomplete(stream, e.queue, b);
      assert false;
    }
  }

  lemma QueueFrom(rx': Rx, e: Effect, x: nat)
    requires Ordered(rx'.next, e) && Overflowed(rx'.held, e) && x in e.queue
    ensures Increasing(e.queue) && e.queue != [] && rx'.next <= e.queue[0] <= x
  {
    var i :| 0 <= i < |e.queue| && e.queue[i] == x;
    assert e.queue[0] in e.queue;
  }

  lemma SomethingTaken(stream: seq<Piece>, rx: Rx, link: nat, n: nat, rx': Rx, e: Effect, c: nat)
    requires Accepted(stream, rx, link, n, rx', e) && FirstComplete(stream, Elems(rx.held) + {n}, c)
    requires c <= Highest(rx.next, rx'.last) && (c == rx.next || c in rx.held)
    ensures e.runs != []
  {
    if e.runs == [] {
      var d :| HasPacket(stream, Elems(rx.held) + {n}, c, d);
      TakenOrQueued(stream, rx, link, n, rx', e, c, d);
      QueueFrom(rx', e, c);
      if c == rx.next {
        HeadNotIncomplete(stream, e.queue, d);
      } else {
        MarkNotBeyond(rx, link, n);
        HeadDoesNotWait(stream, e.queue, c, d, Highest(rx.next, rx'.last));
      }
      assert false;
    }
  }

  /** The link that delivers n is one of those that the mark is not beyond. */
  lemma MarkNotBeyond(rx: Rx, link: nat, n: nat)
    requires link < |rx.last| && rx.next <= n
    ensures Highest(rx.next, rx.last[link := n]) <= n
  {
    var last := rx.last[link := n];
    assert last[link] == n;
    MinLastIs(last);
  }

  /** The first run of a call begins with the next number, or where no link is behind it. */
  lemma FirstReady(stream: seq<Piece>, rx: Rx, link: nat, n: nat, rx': Rx, e: Effect)
    requires Accepted(stream, rx, link, n, rx', e) && e.runs != []
    ensures e.runs[0].first == rx.next || e.runs[0].first <= Highest(rx.next, rx.last[link := n])
  {
    assert ReadyToRun(rx.next, rx'.last, e.runs, 0);
    MinLastIs(rx'.last);
  }

  /** c is the next number, or was queued before and nothing older can precede it any more. */
  predicate Tryable(rx: Rx, last: seq<nat>, c: nat)
    requires last != []
  {
    c == rx.next || (c in rx.held && c <= Highest(rx.next, last))
  }

  /**
   * Which of the complete packets at hand one call takes: those that follow without a gap on the first of them, if that
   * is the next one, or was queued before and nothing older can precede it any more. The others stay in the queue
   * although nothing is missing: the loop ends when it has freed something with the new fragment in place, and it looks
   * no further than the first gap behind a packet it has taken.
   */
  lemma TakenIffUnbroken(stream: seq<Piece>, rx: Rx, link: nat, n: nat, rx': Rx, e: Effect, a: nat, b: nat, c: nat)
    requires Accepted(stream, rx, link, n, rx', e) && HasPacket(stream, Elems(rx.held) + {n}, a, b)
    requires FirstComplete(stream, Elems(rx.held) + {n}, c)
    ensures a in RunElems(e.runs) <==>
      Tryable(rx, rx.last[link := n], c) && forall y: nat :: c <= y <= b ==> y in Elems(rx.held) + {n}
    ensures a in RunElems(e.runs) || forall y: nat :: a <= y <= b ==> y in e.queue
  {
    TakenOrQueued(stream, rx, link, n, rx', e, a, b);
    if a in RunElems(e.runs) {
      QueuedTakenFreed(stream, rx, link, n, rx', e);
      TakenFromFirst(stream, rx, link, n, rx', e, c);
      FirstReady(stream, rx, link, n, rx', e);
      TakenToEnd(stream, rx.next, e.runs, a, b);
      EndsBefore(stream, rx.next, e.runs);
    } else if Tryable(rx, rx'.last, c) && forall y: nat :: c <= y <= b ==> y in Elems(rx.held) + {n} {
      NotLeft(stream, rx, link, n, rx', e, a, b, c);
    }
  }

  lemma TakenToEnd(stream: seq<Piece>, next: int, runs: seq<Run>, a: nat, b: nat)
    requires WellFormed(stream) && RunsInOrder(stream, next, runs) && a in RunElems(runs) && IsPacket(stream, a, b)
    ensures b in RunElems(runs)
  {
    SamePacketWithin(stream, a, b, b);
    TakenTogether(stream, next, runs, b, a);
  }

  /**
   * The receiver does not wait longer than it must: a packet that is complete at the head of the queue, and that
   * nothing older can precede, is taken by the next call that does not put its fragment in front of it.
   */
  lemma CompleteHeadIsTaken(stream: seq<Piece>, rx: Rx, link: nat, n: nat, rx': Rx, e: Effect, b: nat)
    requires Accepted(stream, rx, link, n, rx', e) && rx.held != [] && rx.held[0] <= n
    requires rx.held[0] <= Highest(rx.next, rx'.last) && HasPacket(stream, Elems(rx.held) + {n}, rx.held[0], b)
    ensures rx.held[0] in RunElems(e.runs)
  {
    var c := rx.held[0];
    forall x, y | HasPacket(stream, Elems(rx.held) + {n}, x, y)
      ensures c <= x
    {
      assert x in Elems(rx.held) + {n};
    }
    TakenIffUnbroken(stream, rx, link, n, rx', e, c, b, c);
  }

  /**
   * A complete packet stays queued after a discard: fragment 1 of three is lost, and the third is a packet of its own.
   * When it arrives, the first is freed and nothing is handed up, though there is nothing left that the packet could
   * wait for.
   */
  method DiscardLeavesPacket(d0: seq<Byte>, d1: seq<Byte>, d2: seq<Byte>)
    returns (out: seq<seq<Byte>>, queue: seq<Frag>)
    ensures out == [] && queue == [Frag(2, true, true, d2)]
  {
    var stream := [Piece(true, false, d0), Piece(false, true, d1), Piece(true, true, d2)];
    hide Received, Sane, Window, Wire, MpReceiver.Sent, MpReceiver.Queue, MpReceiver.Handed;
    SmallNumbers();
    var bundle := new MpReceiver.Bundle([false]);
    ghost var e0, e2;
    var early;
    ghost var rx := bundle.rx;
    assert rx == Rx(-1, [], [0]);
    early, e0 := bundle.Receive(0, MpReceiver.Sent(stream, 0, false), _ => true, stream, 0);
    SaneAtFirst(stream);
    FirstStaysQueued(stream, rx, 0, 0, bundle.rx, e0);
    assert bundle.rx == Rx(-1, [0], [0]);
    out, e2 := bundle.Receive(0, MpReceiver.Sent(stream, 2, false), _ => true, stream, 2);
    LostBetween(stream, bundle.rx, e2);
    NothingHanded(stream, early);
    NothingHanded(stream, out);
    QueueOfOne(stream, bundle.frags);
    out, queue := early + out, bundle.frags;
  }

  lemma SmallNumbers()
    ensures Window(Rx(-1, [], [0]), 0) && Window(Rx(-1, [0], [0]), 2)
  {
  }

  lemma SaneAtFirst(stream: seq<Piece>)
    requires WellFormed(stream) && stream != []
    ensures Sane(stream, Rx(-1, [], [0])) && Sane(stream, Rx(-1, [0], [0]))
  {
  }

  lemma NothingHanded(stream: seq<Piece>, out: seq<seq<Byte>>)
    ensures MpReceiver.Handed(stream, _ => true, [], out) ==> out == []
  {
  }

  lemma QueueOfOne(stream: seq<Piece>, frags: seq<Frag>)
    requires |stream| == 3 && MpReceiver.Queue(stream, frags, [2])
    ensures frags == [Frag(2, stream[2].begin, stream[2].end, stream[2].data)]
  {
    assert frags[0] == FragOf(stream, 2);
  }

  /** What arrives first stays queued, for mp->seq is not known yet. */
  lemma FirstStaysQueued(stream: seq<Piece>, rx: Rx, link: nat, n: nat, rx': Rx, e: Effect)
    requires Accepted(stream, rx, link, n, rx', e) && rx.next == -1 && rx.held == []
    ensures e.runs == [] && rx' == Rx(-1, [n], rx.last[link := n])
  {
    QueuedTakenFreed(stream, rx, link, n, rx', e);
    OneElem(e.queue, n);
  }

  lemma OneElem(held: seq<nat>, n: nat)
    requires Increasing(held) && Elems(held) == {n}
    ensures held == [n]
  {
    assert n in Elems(held);
    var last := held[|held| - 1];
    assert last in Elems(held) && held[0] in Elems(held);
  }

  lemma LostBetween(stream: seq<Piece>, rx': Rx, e: Effect)
    requires |stream| == 3 && stream[0].begin && !stream[0].end && stream[1].end && stream[2].begin && stream[2].end
    requires Accepted(stream, Rx(-1, [0], [0]), 0, 2, rx', e)
    ensures e.runs == [] && rx'.held == [2]
  {
    var rx, atHand := Rx(-1, [0], [0]), {0, 2};
    assert Elems(rx.held) + {2} == atHand;
    assert HasPacket(stream, atHand, 2, 2);
    assert !HasPacket(stream, atHand, 0, 2) && 1 !in atHand;
    assert FirstComplete(stream, atHand, 2);
    QueuedTakenFreed(stream, rx, 0, 2, rx', e);
    TakenOrQueued(stream, rx, 0, 2, rx', e, 2, 2);
    NothingTaken(stream, rx, 0, 2, rx', e, 2);
    HeadFreed(stream, rx, rx', e);
    assert Elems(e.queue) == {2};
    OneElem(e.queue, 2);
  }

  lemma NothingTaken(stream: seq<Piece>, rx: Rx, link: nat, n: nat, rx': Rx, e: Effect, c: nat)
    requires Accepted(stream, rx, link, n, rx', e) && FirstComplete(stream, Elems(rx.held) + {n}, c)
    requires c != rx.next && c !in rx.held
    ensures e.runs == []
  {
    if e.runs != [] {
      TakenFromFirst(stream, rx, link, n, rx', e, c);
      assert false;
    }
  }

  lemma HeadFreed(stream: seq<Piece>, rx: Rx, rx': Rx, e: Effect)
    requires rx == Rx(-1, [0], [0]) && Accepted(stream, rx, 0, 2, rx', e) && e.runs == [] && 2 in e.queue
    ensures 0 !in e.queue
  {
    QueuedTakenFreed(stream, rx, 0, 2, rx', e);
    assert rx'.last == [2] && Highest(rx.next, rx'.last) == 2;
    hide Doomed, HeadIncomplete, RunsInOrder, ReadyToRun, Unbroken, Sane;
    if 0 in e.queue {
      TwoElems(e.queue);
      assert HeadWaits(stream, [0, 2], 2, 2);
      GapAtOnce(stream);
      assert false;
    }
  }

  lemma TwoElems(held: seq<nat>)
    requires Increasing(held) && Elems(held) <= {0, 2} && 0 in held && 2 in held
    ensures held == [0, 2]
  {
    var i :| 0 <= i < |held| && held[i] == 0;
    var j :| 0 <= j < |held| && held[j] == 2;
    var last := |held| - 1;
    assert held[0] in Elems(held) && held[last] in Elems(held);
    assert held[0] == 0 && 0 < j;
    assert held[1] in Elems(held);
    assert held[1] == 2 && last == 1;
  }

  lemma GapAtOnce(stream: seq<Piece>)
    ensures !HeadWaits(stream, [0, 2], 2, 2)
  {
    var held: seq<nat> := [0, 2];
    assert held[0] == 0 && held[1] == 2;
  }

  // ----- a stream that arrives as a whole -----

  /** No fragment has arrived after the first one of the stream. */
  predicate FirstArrivesLast(states: seq<Net>, t: nat)
    requires t < |states|
  {
    forall k :: 0 <= k <= t && 0 in states[k].arrived ==> states[k].arrived == states[t].arrived
  }

  lemma {:induction false} Grows(stream: seq<Piece>, links: nat, states: seq<Net>, i: nat, j: nat)
    requires Behaviour(stream, links, states) && i <= j < |states|
    ensures states[i].arrived <= states[j].arrived && states[i].lost <= states[j].lost &&
      states[i].spilled <= states[j].spilled
    ensures |states[i].runs| <= |states[j].runs|
    decreases j
  {
    if i < j {
      Grows(stream, links, states, i, j - 1);
      assert Step(stream, states[j - 1], states[j]);
    }
  }

  /** A delivery at which something is taken, or something arrives. */
  lemma Delivered(stream: seq<Piece>, links: nat, states: seq<Net>, i: nat) returns (l: nat, e: Effect)
    requires Behaviour(stream, links, states) && 0 < i < |states|
    requires states[i].runs != states[i - 1].runs || states[i].arrived != states[i - 1].arrived
    ensures l < |states[i - 1].links| && states[i - 1].links[l] != []
    ensures Deliver(stream, states[i - 1], states[i], l, states[i].rx, e)
    ensures Inv(stream, states[i - 1]) && Inv(stream, states[i]) && states[i - 1].links[l][0] !in states[i - 1].arrived
    ensures states[i - 1].rx.next <= states[i - 1].links[l][0]
  {
    hide Inv, Behaviour, Step, Deliver;
    var s, s' := states[i - 1], states[i];
    Always(stream, links, states, i - 1);
    Always(stream, links, states, i);
    StepAt(stream, links, states, i);
    l, e := ByDelivery(stream, s, s');
    NothingIsLate(stream, s, l);
    Undelivered(stream, s, l);
  }

  lemma StepAt(stream: seq<Piece>, links: nat, states: seq<Net>, i: nat)
    requires Behaviour(stream, links, states) && 0 < i < |states|
    ensures Step(stream, states[i - 1], states[i])
  {
    hide Step;
    assert Step(stream, states[i - 1], states[i - 1 + 1]);
  }

  lemma ByDelivery(stream: seq<Piece>, s: Net, s': Net) returns (l: nat, e: Effect)
    requires Step(stream, s, s') && (s'.runs != s.runs || s'.arrived != s.arrived)
    ensures Deliver(stream, s, s', l, s'.rx, e) && l < |s.links| && s.links[l] != []
  {
    assert forall l :: !Send(stream, s, s', l);
    assert forall l, i :: !Lose(s, s', l, i);
    hide Send, Lose, Received;
    l, e :| Deliver(stream, s, s', l, s'.rx, e);
  }

  lemma Undelivered(stream: seq<Piece>, s: Net, l: nat)
    requires Inv(stream, s) && l < |s.links| && s.links[l] != []
    ensures s.links[l][0] !in s.arrived
  {
    assert OnLink(s.links, l, s.links[l][0]) && Carried(s.links, s.links[l][0]);
  }

  /** While the first fragment is missing nothing is taken, and nothing is taken when it arrives. */
  lemma {:induction false} NothingYet(stream: seq<Piece>, links: nat, states: seq<Net>, t: nat, i: nat)
    requires Behaviour(stream, links, states) && i <= t < |states| && 0 !in states[t].lost &&
      FirstArrivesLast(states, t)
    ensures states[i].runs == []
    decreases i
  {
    if i > 0 {
      var s, s' := states[i - 1], states[i];
      NothingYet(stream, links, states, t, i - 1);
      Grows(stream, links, states, i, t);
      if s'.runs != [] {
        var l, e := Delivered(stream, links, states, i);
        assert 0 !in s.arrived by {
          assert s.links[l][0] in s'.arrived;
        }
        TakesFirst(stream, s, s', l, e);
        assert false;
      }
    }
  }

  lemma TakesFirst(stream: seq<Piece>, s: Net, s': Net, l: nat, e: Effect)
    requires Deliver(stream, s, s', l, s'.rx, e) && Inv(stream, s) && Inv(stream, s')
    requires s.runs == [] && 0 !in s.arrived && 0 !in s'.lost
    ensures s'.runs == []
  {
    hide Inv, Received;
    NothingIsLate(stream, s, l);
    ZeroArrived(stream, s');
    HeldArrived(stream, s);
    ZeroTakesNothing(stream, s.rx, l, s.links[l][0], s'.rx, e);
  }

  lemma ZeroTakesNothing(stream: seq<Piece>, rx: Rx, link: nat, n: nat, rx': Rx, e: Effect)
    requires link < |rx.last| && rx.next == -1 && Received(stream, rx, link, n, rx', e)
    ensures n == 0 && (rx.held == [] || rx.held[0] != 0) ==> e.runs == []
  {
    hide Sane, RunsInOrder, ReadyToRun, HeadIncomplete, Doomed, Tried, Unbroken, Ordered, Overflowed, Elems, RunElems;
  }

  lemma ZeroArrived(stream: seq<Piece>, s: Net)
    requires Inv(stream, s) && 0 !in s.lost
    ensures s.runs != [] ==> 0 in s.arrived
  {
  }

  lemma HeldArrived(stream: seq<Piece>, s: Net)
    requires Inv(stream, s)
    ensures s.rx.held != [] ==> s.rx.held[0] in s.arrived
    ensures s.runs == [] ==> s.rx.next == -1
  {
    assert s.rx.held != [] ==> s.rx.held[0] in Elems(s.rx.held);
  }

  /** The delivery with which everything has arrived. */
  lemma {:induction false} LastArrival(stream: seq<Piece>, links: nat, states: seq<Net>, k: nat, t: nat)
    returns (i: nat)
    requires Behaviour(stream, links, states) && k <= t < |states| && states[k].arrived != states[t].arrived
    ensures k < i <= t && states[i - 1].arrived != states[i].arrived == states[t].arrived
    decreases t
  {
    hide Behaviour;
    if states[t - 1].arrived != states[t].arrived {
      i := t;
    } else {
      i := LastArrival(stream, links, states, k, t - 1);
    }
  }

  lemma {:induction false} FirstEnd(stream: seq<Piece>, b: nat) returns (d: nat)
    requires b < |stream| && (exists k :: b <= k < |stream| && stream[k].end)
    ensures b <= d < |stream| && stream[d].end && NoEnd(stream, b, d)
    decreases |stream| - b
  {
    if stream[b].end {
      d := b;
    } else {
      d := FirstEnd(stream, b + 1);
    }
  }

  /** A queue that holds all of the stream but the fragment that arrives, and not only that, is handed on. */
  lemma RestIsTaken(stream: seq<Piece>, rx: Rx, link: nat, n: nat, rx': Rx, e: Effect)
    requires stream != [] && Accepted(stream, rx, link, n, rx', e) && 0 in rx.held
    requires forall y: nat :: y < |stream| ==> y in rx.held || y == n
    ensures e.runs != []
  {
    assert rx.held[0] in rx.held;
    var i :| 0 <= i < |rx.held| && rx.held[i] == 0;
    assert rx.held[0] == 0;
    assert stream[|stream| - 1].end;
    var b := FirstEnd(stream, 0);
    assert 0 <= Highest(rx.next, rx'.last);
    hide Received, Sane, Doomed, Highest;
    assert HasPacket(stream, Elems(rx.held) + {n}, 0, b);
    CompleteHeadIsTaken(stream, rx, link, n, rx', e, b);
  }

  /** Nothing has been taken, so nothing can have been freed: all that arrived is queued. */
  lemma AllQueued(stream: seq<Piece>, s: Net)
    requires Inv(stream, s) && s.runs == [] && s.lost == {} && s.spilled == {}
    ensures forall y :: y in s.arrived ==> y in s.rx.held
  {
    assert forall x :: x in s.stale ==> Hopeless(stream, s, x);
    assert RunElems(s.runs) == {} && s.stale == {};
    assert Elems(s.rx.held) == s.arrived;
  }

  /** When the last fragment arrives and the first is here, something is taken. */
  lemma LastOneTakes(stream: seq<Piece>, links: nat, states: seq<Net>, t: nat, i: nat)
    requires Behaviour(stream, links, states) && 0 < i <= t < |states| && AllArrived(stream, states[t]) && stream != []
    requires states[i - 1].arrived != states[i].arrived == states[t].arrived && 0 in states[i - 1].arrived
    ensures states[i].runs != []
  {
    hide Behaviour, Inv, Received, Sane, Carried;
    var s, s' := states[i - 1], states[i];
    Grows(stream, links, states, i - 1, t);
    Grows(stream, links, states, i - 1, i);
    Always(stream, links, states, t);
    var l, e := Delivered(stream, links, states, i);
    if s.runs == [] {
      AllQueued(stream, s);
      EverythingArrived(stream, states[t]);
      var n := s.links[l][0];
      InvSane(stream, s);
      assert s'.arrived == s.arrived + {n};
      RestIsTaken(stream, s.rx, l, n, s'.rx, e);
    }
  }

  lemma InvSane(stream: seq<Piece>, s: Net)
    requires Inv(stream, s)
    ensures Sane(stream, s.rx)
  {
  }

  lemma EverythingArrived(stream: seq<Piece>, s: Net)
    requires Inv(stream, s) && AllArrived(stream, s)
    ensures forall y: nat :: y < |stream| ==> y in s.arrived
  {
  }

  /**
   * Of a stream that has arrived as a whole, nothing has been handed on if and only if its first fragment arrived last;
   * otherwise all of it has.
   */
  lemma AllUnlessFirstIsLast(stream: seq<Piece>, links: nat, states: seq<Net>, t: nat)
    requires Behaviour(stream, links, states) && t < |states| && AllArrived(stream, states[t]) && stream != []
    ensures states[t].runs == [] <==> FirstArrivesLast(states, t)
    ensures AllTaken(stream, states[t]) <==> !FirstArrivesLast(states, t)
  {
    hide Behaviour, Carried;
    AllOrNothing(stream, links, states, t);
    if FirstArrivesLast(states, t) {
      NothingYet(stream, links, states, t, t);
      assert 0 !in RunElems(states[t].runs);
    } else {
      var k :| 0 <= k <= t && 0 in states[k].arrived && states[k].arrived != states[t].arrived;
      var i := LastArrival(stream, links, states, k, t);
      Grows(stream, links, states, k, i - 1);
      LastOneTakes(stream, links, states, t, i);
      Grows(stream, links, states, i, t);
    }
  }

  /** A lone packet waits for ever, whatever is lost. */
  lemma LonePacketWaits(data: seq<Byte>, links: nat, states: seq<Net>, t: nat)
    requires Behaviour([Piece(true, true, data)], links, states) && t < |states|
    ensures states[t].runs == []
  {
    var stream := [Piece(true, true, data)];
    Always(stream, links, states, t);
    OnlyFirst(stream, states[t]);
    forall k | 0 <= k <= t && 0 in states[k].arrived
      ensures states[k].arrived == states[t].arrived
    {
      Grows(stream, links, states, k, t);
    }
    if 0 !in states[t].lost {
      NothingYet(stream, links, states, t, t);
    }
  }

  lemma OnlyFirst(stream: seq<Piece>, s: Net)
    requires Inv(stream, s) && |stream| == 1
    ensures s.arrived <= {0} && (0 in s.lost ==> s.runs == [])
  {
    if s.runs != [] {
      RunElemsHas(s.runs, 0, s.runs[0].first);
    }
  }
}

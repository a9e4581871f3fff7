/**
 * A bundle as a distributed protocol: a sender that spreads the fragments of a stream over in-order links that may lose
 * some, and the receiver of MpReceiver. What holds in every reachable state, whatever the interleaving and the losses.
 */
module MpNetwork {
  import opened MpSpec

  /**
   * sent: fragments handed to links so far; links: what each still carries; lost: what a link dropped; arrived: what
   * was given to the receiver. The receiver's state rx, the packets taken so far, and the fragments freed as incomplete
   * or dropped on overflow.
   */
  datatype Net = Net(sent: nat, links: seq<seq<nat>>, lost: set<nat>, arrived: set<nat>,
                     rx: Rx, runs: seq<Run>, stale: set<nat>, spilled: set<nat>)

  function Initial(links: nat): Net {
    Net(0, seq(links, _ => []), {}, {}, Rx(-1, [], seq(links, _ => 0)), [], {}, {})
  }

  predicate Send(stream: seq<Piece>, s: Net, s': Net, l: nat) {
    s.sent < |stream| && l < |s.links| && s' == s.(sent := s.sent + 1, links := s.links[l := s.links[l] + [s.sent]])
  }

  /** Any fragment that a link carries may be lost. */
  predicate Lose(s: Net, s': Net, l: nat, i: nat) {
    l < |s.links| && i < |s.links[l]| &&
    s' == s.(links := s.links[l := s.links[l][..i] + s.links[l][i + 1..]], lost := s.lost + {s.links[l][i]})
  }

  /** The oldest fragment that a link carries arrives and is received. */
  ghost predicate Deliver(stream: seq<Piece>, s: Net, s': Net, l: nat, rx: Rx, e: Effect) {
    l < |s.links| && l < |s.rx.last| && s.links[l] != [] && s.links[l][0] < |stream| &&
    Received(stream, s.rx, l, s.links[l][0], rx, e) &&
    s' == s.(links := s.links[l := s.links[l][1..]], arrived := s.arrived + {s.links[l][0]}, rx := rx,
             runs := s.runs + e.runs, stale := s.stale + e.stale, spilled := s.spilled + e.spilled)
  }

  ghost predicate Step(stream: seq<Piece>, s: Net, s': Net) {
    || (exists l :: Send(stream, s, s', l))
    || (exists l, i :: Lose(s, s', l, i))
    || (exists l, e :: Deliver(stream, s, s', l, s'.rx, e))
  }

  /** A run of the protocol with the given number of links. */
  ghost predicate Behaviour(stream: seq<Piece>, links: nat, states: seq<Net>) {
    WellFormed(stream) && links > 0 && states != [] && states[0] == Initial(links) &&
    forall i :: 0 <= i < |states| - 1 ==> Step(stream, states[i], states[i + 1])
  }

  // ----- the invariant -----

  predicate OnLink(links: seq<seq<nat>>, l: nat, y: nat) {
    l < |links| && y in links[l]
  }

  ghost predicate Carried(links: seq<seq<nat>>, y: nat) {
    exists l: nat :: OnLink(links, l, y)
  }

  /** Each link carries growing numbers that are beyond its last one; no number is on two links. */
  ghost predicate LinksOk(s: Net) {
    |s.links| == |s.rx.last| && s.links != [] &&
    (forall l :: 0 <= l < |s.links| ==> Increasing(s.links[l]) && (s.rx.last[l] < s.sent || s.rx.last[l] == 0)) &&
    (forall l: nat, y: nat :: OnLink(s.links, l, y) ==> s.rx.last[l] <= y && (s.rx.last[l] == y ==> y == 0)) &&
    (forall l: nat, m: nat, y: nat :: OnLink(s.links, l, y) && OnLink(s.links, m, y) ==> l == m)
  }

  /** Every fragment sent so far is on a link, lost, or arrived, and only one of these. */
  ghost predicate SentOk(stream: seq<Piece>, s: Net) {
    s.sent <= |stream| && s.lost !! s.arrived &&
    (forall y: nat :: y < s.sent <==> y in s.lost || y in s.arrived || Carried(s.links, y)) &&
    (forall y: nat :: Carried(s.links, y) ==> y !in s.lost && y !in s.arrived)
  }

  /**
   * Every fragment that arrived is queued, in a packet that was taken, freed, or dropped on overflow, and only one of
   * these.
   */
  ghost predicate ArrivedOk(stream: seq<Piece>, s: Net) {
    Sane(stream, s.rx) && Elems(s.rx.held) + RunElems(s.runs) + s.stale + s.spilled == s.arrived &&
    Apart(Elems(s.rx.held), RunElems(s.runs), s.stale, s.spilled)
  }

  /** What was taken are packets of the stream, one after the other, and nothing before their end can still arrive. */
  ghost predicate TakenOk(stream: seq<Piece>, s: Net) {
    RunsInOrder(stream, -1, s.runs) && s.rx.next == NextAfter(-1, s.runs) &&
    forall y: nat :: y < s.rx.next ==> y in s.arrived || y in s.lost
  }

  /** Some fragment of x's packet was lost by a link or dropped on overflow. */
  ghost predicate Hopeless(stream: seq<Piece>, s: Net, x: nat) {
    exists y: nat :: SamePacket(stream, x, y) && (y in s.lost || y in s.spilled)
  }

  ghost predicate FreedOk(stream: seq<Piece>, s: Net) {
    forall x :: x in s.stale ==> Hopeless(stream, s, x)
  }

  ghost predicate QueueOk(stream: seq<Piece>, rx: Rx) {
    |rx.held| <= 16 &&
    (rx.next > 0 && rx.held != [] && rx.held[0] == rx.next ==> HeadIncomplete(stream, rx.held, |rx.held|))
  }

  ghost predicate Inv(stream: seq<Piece>, s: Net) {
    LinksOk(s) && SentOk(stream, s) && ArrivedOk(stream, s) && TakenOk(stream, s) && FreedOk(stream, s) &&
    QueueOk(stream, s.rx)
  }

  // ----- the steps keep it -----

  lemma InitialInv(stream: seq<Piece>, links: nat)
    requires WellFormed(stream) && links > 0
    ensures Inv(stream, Initial(links))
  {
    var s := Initial(links);
    assert |s.rx.last| == links && |s.links| == links;
    assert forall l: nat, y: nat :: !OnLink(s.links, l, y);
    assert LinksOk(s) && SentOk(stream, s);
    assert Elems(s.rx.held) == {} && RunElems(s.runs) == {};
  }

  lemma SendKeeps(stream: seq<Piece>, s: Net, s': Net, l: nat)
    requires Inv(stream, s) && Send(stream, s, s', l)
    ensures Inv(stream, s')
  {
    hide Sane, TakenOk, QueueOk, ArrivedOk, FreedOk;
    forall m: nat, y: nat
      ensures OnLink(s'.links, m, y) <==> OnLink(s.links, m, y) || (m == l && y == s.sent)
    {
    }
    forall y: nat
      ensures Carried(s'.links, y) <==> Carried(s.links, y) || y == s.sent
    {
      if Carried(s'.links, y) {
        var m: nat :| OnLink(s'.links, m, y);
        assert OnLink(s.links, m, y) || y == s.sent;
      } else {
        assert !OnLink(s'.links, l, s.sent) ==> y != s.sent;
      }
      if Carried(s.links, y) {
        var m: nat :| OnLink(s.links, m, y);
        assert OnLink(s'.links, m, y);
      }
      assert OnLink(s'.links, l, s.sent);
    }
    forall y | y in s.links[l]
      ensures y < s.sent
    {
      assert OnLink(s.links, l, y) && Carried(s.links, y);
    }
    forall m: nat
      ensures !OnLink(s.links, m, s.sent)
    {
      assert OnLink(s.links, m, s.sent) ==> Carried(s.links, s.sent);
    }
    SendLink(s, l);
    SameReceiver(stream, s, s');
  }

  lemma SendLink(s: Net, l: nat)
    requires l < |s.links| && Increasing(s.links[l]) && forall y :: y in s.links[l] ==> y < s.sent
    ensures Increasing(s.links[l] + [s.sent])
  {
    var link := s.links[l];
    forall i, j | 0 <= i < j < |link + [s.sent]|
      ensures (link + [s.sent])[i] < (link + [s.sent])[j]
    {
      assert link[i] in link;
    }
  }

  /** Sending and losing do not touch the receiver. */
  lemma SameReceiver(stream: seq<Piece>, s: Net, s': Net)
    requires s'.rx == s.rx && s'.runs == s.runs && s'.stale == s.stale && s'.spilled == s.spilled &&
      s'.arrived == s.arrived && s.lost <= s'.lost
    requires ArrivedOk(stream, s) && TakenOk(stream, s) && FreedOk(stream, s)
    ensures ArrivedOk(stream, s') && TakenOk(stream, s') && FreedOk(stream, s')
  {
    hide Sane, SamePacket;
    forall x | x in s'.stale
      ensures Hopeless(stream, s', x)
    {
      assert Hopeless(stream, s, x);
    }
  }

  /** A link without one of its numbers. */
  lemma Without(link: seq<nat>, i: nat)
    requires i < |link| && Increasing(link)
    ensures var rest := link[..i] + link[i + 1..];
      Increasing(rest) && forall y :: y in rest <==> y in link && y != link[i]
  {
    var rest := link[..i] + link[i + 1..];
    forall j | 0 <= j < |rest|
      ensures rest[j] == link[if j < i then j else j + 1]
    {
    }
    forall y | y in link && y != link[i]
      ensures y in rest
    {
      var j :| 0 <= j < |link| && link[j] == y;
      assert rest[if j < i then j else j - 1] == y;
    }
  }

  /** What a number leaving a link changes. */
  lemma Leaves(links: seq<seq<nat>>, l: nat, i: nat)
    requires l < |links| && i < |links[l]| && Increasing(links[l])
    requires forall a: nat, b: nat, y: nat :: OnLink(links, a, y) && OnLink(links, b, y) ==> a == b
    ensures var links' := links[l := links[l][..i] + links[l][i + 1..]];
      && Increasing(links'[l])
      && (forall m: nat, y: nat :: OnLink(links', m, y) <==> OnLink(links, m, y) && y != links[l][i])
      && (forall y: nat :: Carried(links', y) <==> Carried(links, y) && y != links[l][i])
      && Carried(links, links[l][i]) && OnLink(links, l, links[l][i])
  {
    var links' := links[l := links[l][..i] + links[l][i + 1..]];
    Without(links[l], i);
    assert OnLink(links, l, links[l][i]);
    assert links'[l] == links[l][..i] + links[l][i + 1..];
    forall m: nat, y: nat
      ensures OnLink(links', m, y) <==> OnLink(links, m, y) && y != links[l][i]
    {
      if m == l {
        assert y in links'[l] <==> y in links[l] && y != links[l][i];
      } else if OnLink(links, m, y) {
        assert y == links[l][i] ==> OnLink(links, l, y);
      }
    }
    forall y: nat
      ensures Carried(links', y) <==> Carried(links, y) && y != links[l][i]
    {
      if Carried(links, y) && y != links[l][i] {
        var m: nat :| OnLink(links, m, y);
        assert OnLink(links', m, y);
      }
      if Carried(links', y) {
        var m: nat :| OnLink(links', m, y);
        assert OnLink(links, m, y);
      }
    }
  }

  lemma LoseKeeps(stream: seq<Piece>, s: Net, s': Net, l: nat, i: nat)
    requires Inv(stream, s) && Lose(s, s', l, i)
    ensures Inv(stream, s')
  {
    hide Sane, TakenOk, QueueOk, ArrivedOk, FreedOk, Carried, OnLink, Increasing;
    Leaves(s.links, l, i);
    SameReceiver(stream, s, s');
  }

  /** A fragment that arrives is never older than what was processed: the late-fragment branch is not taken. */
  lemma NothingIsLate(stream: seq<Piece>, s: Net, l: nat)
    requires Inv(stream, s) && l < |s.links| && s.links[l] != []
    ensures s.rx.next <= s.links[l][0] < |stream|
  {
    assert OnLink(s.links, l, s.links[l][0]) && Carried(s.links, s.links[l][0]);
  }

  lemma DeliverKeepsLinks(stream: seq<Piece>, s: Net, s': Net, l: nat, e: Effect)
    requires Inv(stream, s) && Deliver(stream, s, s', l, s'.rx, e)
    ensures LinksOk(s') && SentOk(stream, s')
  {
    hide TakenOk, QueueOk, ArrivedOk, FreedOk, Received, Carried;
    var n := s.links[l][0];
    assert s.links[l][..0] + s.links[l][1..] == s.links[l][1..];
    Leaves(s.links, l, 0);
    LastMoves(stream, s, l, s'.rx, e);
    forall y: nat | OnLink(s'.links, l, y)
      ensures n < y
    {
    }
  }

  lemma LastMoves(stream: seq<Piece>, s: Net, l: nat, rx: Rx, e: Effect)
    requires Inv(stream, s) && l < |s.links| && s.links[l] != [] && Received(stream, s.rx, l, s.links[l][0], rx, e)
    ensures rx.last == s.rx.last[l := s.links[l][0]] && !e.tossed && Sane(stream, rx)
  {
    NothingIsLate(stream, s, l);
  }

  /** What no link can bring any more and did not arrive is lost. */
  lemma GoneIsLost(stream: seq<Piece>, s: Net, y: nat)
    requires LinksOk(s) && SentOk(stream, s) && Gone(y, s.rx.last) && y !in s.arrived
    ensures y in s.lost
  {
    assert y < s.rx.last[0] || (y == s.rx.last[0] && y > 0);
    forall l: nat
      ensures !OnLink(s.links, l, y)
    {
      if OnLink(s.links, l, y) {
        CarriedNotGone(s, l, y);
        assert false;
      }
    }
  }

  lemma CarriedNotGone(s: Net, l: nat, y: nat)
    requires LinksOk(s) && OnLink(s.links, l, y)
    ensures !Gone(y, s.rx.last)
  {
    assert s.rx.last[l] <= y && (s.rx.last[l] == y ==> y == 0);
  }

  lemma {:induction false} RunElemsIn(runs: seq<Run>, y: nat)
    requires y in RunElems(runs)
    ensures exists i :: 0 <= i < |runs| && runs[i].first <= y <= runs[i].last
    decreases |runs|
  {
    var m := |runs| - 1;
    if y !in Range(runs[m].first, runs[m].last) {
      RunElemsIn(runs[..m], y);
      var i :| 0 <= i < m && runs[..m][i].first <= y <= runs[..m][i].last;
      assert runs[i].first <= y <= runs[i].last;
    }
  }

  lemma {:induction false} RunElemsHas(runs: seq<Run>, i: nat, y: nat)
    requires i < |runs| && runs[i].first <= y <= runs[i].last
    ensures y in RunElems(runs)
    decreases |runs|
  {
    if i < |runs| - 1 {
      RunElemsHas(runs[..|runs| - 1], i, y);
    }
  }

  lemma {:induction false} RunElemsConcat(a: seq<Run>, b: seq<Run>)
    ensures RunElems(a + b) == RunElems(a) + RunElems(b)
    decreases |b|
  {
    if b == [] {
      assert a + b == a;
    } else {
      assert (a + b)[..|a + b| - 1] == a + b[..|b| - 1];
      RunElemsConcat(a, b[..|b| - 1]);
    }
  }

  lemma RunsConcat(stream: seq<Piece>, next: int, a: seq<Run>, b: seq<Run>)
    requires RunsInOrder(stream, next, a) && RunsInOrder(stream, NextAfter(next, a), b)
    ensures RunsInOrder(stream, next, a + b) && NextAfter(next, a + b) == NextAfter(NextAfter(next, a), b)
  {
    var runs := a + b;
    hide IsPacket;
    EndsBefore(stream, next, a);
    forall i | 0 <= i < |runs|
      ensures IsPacket(stream, runs[i].first, runs[i].last) && next <= runs[i].first
    {
      assert runs[i] == if i < |a| then a[i] else b[i - |a|];
    }
    forall i, j | 0 <= i < j < |runs|
      ensures runs[i].last < runs[j].first
    {
      assert runs[i] == if i < |a| then a[i] else b[i - |a|];
      assert runs[j] == if j < |a| then a[j] else b[j - |a|];
    }
  }

  lemma EndsBefore(stream: seq<Piece>, next: int, runs: seq<Run>)
    requires RunsInOrder(stream, next, runs)
    ensures next <= NextAfter(next, runs) && forall i :: 0 <= i < |runs| ==> runs[i].last < NextAfter(next, runs)
  {
  }

  /** y lies before the i-th run and after the run before it. */
  predicate Between(next: int, runs: seq<Run>, i: nat, y: nat) {
    i < |runs| && NextAfter(next, runs[..i]) <= y < runs[i].first
  }

  /** A number before the end of the taken runs is in one of them, before the first, or between two of them. */
  lemma {:induction false} InOrBetween(next: int, runs: seq<Run>, y: nat)
    requires next <= y < NextAfter(next, runs)
    ensures y in RunElems(runs) || exists i: nat :: Between(next, runs, i, y)
    decreases |runs|
  {
    var m := |runs| - 1;
    var rest := runs[..m];
    if y < NextAfter(next, rest) {
      InOrBetween(next, rest, y);
      if y !in RunElems(rest) {
        var i: nat :| Between(next, rest, i, y);
        assert rest[..i] == runs[..i] && rest[i] == runs[i];
        assert Between(next, runs, i, y);
      }
    } else if y < runs[m].first {
      assert Between(next, runs, m, y);
    }
  }

  lemma DeliverKeepsTaken(stream: seq<Piece>, s: Net, s': Net, l: nat, e: Effect)
    requires Inv(stream, s) && Deliver(stream, s, s', l, s'.rx, e) && LinksOk(s') && SentOk(stream, s')
    ensures TakenOk(stream, s')
  {
    TakenRuns(stream, s, s', l, e);
    hide Sane, Inv, LinksOk, SentOk, RunsInOrder, Received;
    forall y: nat | y < s'.rx.next
      ensures y in s'.arrived || y in s'.lost
    {
      if y >= s.rx.next {
        NewlyPast(stream, s, s', l, e, y);
      } else {
        assert y in s.arrived || y in s.lost by {
          StillPast(stream, s, y);
        }
      }
    }
  }

  lemma StillPast(stream: seq<Piece>, s: Net, y: nat)
    requires Inv(stream, s) && y < s.rx.next
    ensures y in s.arrived || y in s.lost
  {
  }

  lemma TakenRuns(stream: seq<Piece>, s: Net, s': Net, l: nat, e: Effect)
    requires Inv(stream, s) && Deliver(stream, s, s', l, s'.rx, e)
    ensures RunsInOrder(stream, -1, s'.runs) && s'.rx.next == NextAfter(-1, s'.runs) == NextAfter(s.rx.next, e.runs)
  {
    NothingIsLate(stream, s, l);
    hide Sane, LinksOk, SentOk, QueueOk, ArrivedOk, FreedOk, RunElems, Elems, HeadIncomplete, Doomed, RunsInOrder,
      ReadyToRun;
    RunsConcat(stream, -1, s.runs, e.runs);
  }

  lemma NewlyPast(stream: seq<Piece>, s: Net, s': Net, l: nat, e: Effect, y: nat)
    requires Inv(stream, s) && Deliver(stream, s, s', l, s'.rx, e) && LinksOk(s') && SentOk(stream, s')
    requires s.rx.next <= y < NextAfter(s.rx.next, e.runs)
    ensures y in s'.arrived || y in s'.lost
  {
    NothingIsLate(stream, s, l);
    InOrBetween(s.rx.next, e.runs, y);
    if y in RunElems(e.runs) {
      TakenArrived(stream, s, s', l, e, y);
    } else {
      hide Sane, Inv, LinksOk, SentOk, RunElems, Elems, RunsInOrder, HeadIncomplete, Doomed;
      var i: nat :| Between(s.rx.next, e.runs, i, y);
      assert ReadyToRun(s.rx.next, s'.rx.last, e.runs, i);
      assert Gone(y, s'.rx.last);
      if y !in s'.arrived {
        GoneIsLost(stream, s', y);
      }
    }
  }

  lemma TakenArrived(stream: seq<Piece>, s: Net, s': Net, l: nat, e: Effect, y: nat)
    requires Inv(stream, s) && Deliver(stream, s, s', l, s'.rx, e) && y in RunElems(e.runs)
    ensures y in s'.arrived
  {
    NothingIsLate(stream, s, l);
    hide LinksOk, SentOk, QueueOk, TakenOk, FreedOk, Sane, RunElems, HeadIncomplete, Doomed;
    assert y in Elems(s.rx.held) + {s.links[l][0]};
  }

  lemma DeliverKeepsArrived(stream: seq<Piece>, s: Net, s': Net, l: nat, e: Effect)
    requires Inv(stream, s) && Deliver(stream, s, s', l, s'.rx, e)
    ensures ArrivedOk(stream, s') && QueueOk(stream, s'.rx)
  {
    NothingIsLate(stream, s, l);
    var n := s.links[l][0];
    assert OnLink(s.links, l, n) && n !in s.arrived;
    RunElemsConcat(s.runs, e.runs);
    QueueAfter(stream, s'.rx, e);
    hide Overflowed, Ordered, Unbroken, Tried, QueueOk;
    hide LinksOk, SentOk, TakenOk, FreedOk, Sane, RunElems, Elems, HeadIncomplete, Doomed;
    Regroup(Elems(s.rx.held), RunElems(s.runs), s.stale, s.spilled, s.arrived, n, Elems(s'.rx.held), RunElems(e.runs),
      e.stale, e.spilled);
  }

  lemma Regroup(held: set<nat>, runs: set<nat>, stale: set<nat>, spilled: set<nat>, arrived: set<nat>, n: nat,
                held': set<nat>, taken: set<nat>, freed: set<nat>, dropped: set<nat>)
    requires held + runs + stale + spilled == arrived && n !in arrived && Apart(held, runs, stale, spilled)
    requires held' + taken + freed + dropped == held + {n} && Apart(held', taken, freed, dropped)
    ensures held' + (runs + taken) + (stale + freed) + (spilled + dropped) == arrived + {n}
    ensures Apart(held', runs + taken, stale + freed, spilled + dropped)
  {
  }

  /** The queue that is left begins with the next number only if nothing was dropped. */
  lemma QueueAfter(stream: seq<Piece>, rx: Rx, e: Effect)
    requires Overflowed(rx.held, e) && Ordered(rx.next, e)
    requires rx.next > 0 && e.queue != [] && e.queue[0] == rx.next ==> HeadIncomplete(stream, e.queue, |e.queue|)
    ensures QueueOk(stream, rx)
  {
    var k := Excess(e.queue);
    hide HeadIncomplete, Elems;
    if k > 0 {
      assert e.queue[0] in e.queue && rx.held[0] == e.queue[k] > e.queue[0];
    } else {
      assert e.queue[0..] == e.queue;
    }
  }

  lemma SamePacketTrans(stream: seq<Piece>, x: nat, y: nat, z: nat)
    requires SamePacket(stream, x, y) && SamePacket(stream, y, z)
    ensures SamePacket(stream, x, z)
  {
  }

  /** Fragments of one packet are taken together. */
  lemma TakenTogether(stream: seq<Piece>, next: int, runs: seq<Run>, x: nat, y: nat)
    requires WellFormed(stream) && RunsInOrder(stream, next, runs) && SamePacket(stream, x, y) && y in RunElems(runs)
    ensures x in RunElems(runs)
  {
    RunElemsIn(runs, y);
    var i :| 0 <= i < |runs| && runs[i].first <= y <= runs[i].last;
    var a, b := runs[i].first, runs[i].last;
    assert a > 0 ==> stream[a - 1].end;
    RunElemsHas(runs, i, x);
  }

  lemma DeliverKeepsFreed(stream: seq<Piece>, s: Net, s': Net, l: nat, e: Effect)
    requires Inv(stream, s) && Deliver(stream, s, s', l, s'.rx, e) && LinksOk(s') && SentOk(stream, s')
    ensures FreedOk(stream, s')
  {
    NothingIsLate(stream, s, l);
    hide LinksOk, SentOk, TakenOk, Sane, QueueOk, RunElems, HeadIncomplete, SamePacket, Received;
    forall x | x in s'.stale
      ensures Hopeless(stream, s', x)
    {
      if x in s.stale {
        assert Hopeless(stream, s, x);
      } else {
        NewlyFreed(stream, s, s', l, e, x);
      }
    }
  }

  lemma NewlyFreed(stream: seq<Piece>, s: Net, s': Net, l: nat, e: Effect, x: nat)
    requires Inv(stream, s) && Deliver(stream, s, s', l, s'.rx, e) && LinksOk(s') && SentOk(stream, s') && x in e.stale
    ensures Hopeless(stream, s', x)
  {
    NothingIsLate(stream, s, l);
    var n, atHand := s.links[l][0], Elems(s.rx.held) + {s.links[l][0]};
    assert Doomed(stream, x, atHand, s'.rx.last) && x in atHand;
    hide LinksOk, SentOk, QueueOk, RunElems, HeadIncomplete, SamePacket, Received, Gone;
    var y: nat :| SamePacket(stream, x, y) && y !in atHand && Gone(y, s'.rx.last);
    if y !in s'.arrived {
      GoneIsLost(stream, s', y);
    } else if y in s.stale {
      assert Hopeless(stream, s, y);
      var z: nat :| SamePacket(stream, y, z) && (z in s.lost || z in s.spilled);
      SamePacketTrans(stream, x, y, z);
    } else if y in RunElems(s.runs) {
      TakenTogether(stream, -1, s.runs, x, y);
      TakenIsPast(stream, s, x);
      assert false;
    }
  }

  lemma TakenIsPast(stream: seq<Piece>, s: Net, x: nat)
    requires TakenOk(stream, s) && x in RunElems(s.runs)
    ensures x < s.rx.next
  {
    RunElemsIn(s.runs, x);
    var i :| 0 <= i < |s.runs| && s.runs[i].first <= x <= s.runs[i].last;
    var m := |s.runs| - 1;
    assert i < m ==> s.runs[i].last < s.runs[m].first;
  }

  lemma StepKeeps(stream: seq<Piece>, s: Net, s': Net)
    requires Inv(stream, s) && Step(stream, s, s')
    ensures Inv(stream, s')
  {
    hide Inv, Send, Lose, Deliver;
    if l :| Send(stream, s, s', l) {
      SendKeeps(stream, s, s', l);
    } else if l, i :| Lose(s, s', l, i) {
      LoseKeeps(stream, s, s', l, i);
    } else {
      var l, e :| Deliver(stream, s, s', l, s'.rx, e);
      DeliverKeeps(stream, s, s', l, e);
    }
  }

  lemma DeliverKeeps(stream: seq<Piece>, s: Net, s': Net, l: nat, e: Effect)
    requires Inv(stream, s) && Deliver(stream, s, s', l, s'.rx, e)
    ensures Inv(stream, s')
  {
    hide Deliver, LinksOk, SentOk, TakenOk, QueueOk, ArrivedOk, FreedOk;
    DeliverKeepsLinks(stream, s, s', l, e);
    DeliverKeepsTaken(stream, s, s', l, e);
    DeliverKeepsArrived(stream, s, s', l, e);
    DeliverKeepsFreed(stream, s, s', l, e);
  }

  lemma {:induction false} Always(stream: seq<Piece>, links: nat, states: seq<Net>, i: nat)
    requires Behaviour(stream, links, states) && i < |states|
    ensures Inv(stream, states[i])
  {
    hide Inv, Step;
    if i == 0 {
      InitialInv(stream, links);
    } else {
      Always(stream, links, states, i - 1);
      StepKeeps(stream, states[i - 1], states[i]);
    }
  }

  // ----- what this means for a user of the bundle -----

  /**
   * Delivery is exact: whatever was handed up consists of whole packets of the sender, each at most once and in the
   * order in which they were sent, every fragment of which has arrived.
   */
  lemma DeliveryIsExact(stream: seq<Piece>, links: nat, states: seq<Net>, t: nat)
    requires Behaviour(stream, links, states) && t < |states|
    ensures var s := states[t];
      && (forall i :: 0 <= i < |s.runs| ==> IsPacket(stream, s.runs[i].first, s.runs[i].last))
      && (forall i, j :: 0 <= i < j < |s.runs| ==> s.runs[i].last < s.runs[j].first)
      && (forall i, y: nat :: 0 <= i < |s.runs| && s.runs[i].first <= y <= s.runs[i].last ==> y in s.arrived)
  {
    Always(stream, links, states, t);
    var s := states[t];
    forall i, y: nat | 0 <= i < |s.runs| && s.runs[i].first <= y <= s.runs[i].last
      ensures y in s.arrived
    {
      RunElemsHas(s.runs, i, y);
    }
  }

  /**
   * The receiver never gives up early: it frees a fragment only if a link has lost a part of its packet, or the queue
   * overflowed.
   */
  lemma NeverGivesUpEarly(stream: seq<Piece>, links: nat, states: seq<Net>, t: nat, x: nat)
    requires Behaviour(stream, links, states) && t < |states| && x in states[t].stale
    ensures exists y: nat :: SamePacket(stream, x, y) && (y in states[t].lost || y in states[t].spilled)
  {
    Always(stream, links, states, t);
    assert Hopeless(stream, states[t], x);
  }

  /** No fragment that is still under way is older than what was processed. */
  lemma NeverLate(stream: seq<Piece>, links: nat, states: seq<Net>, t: nat, l: nat)
    requires Behaviour(stream, links, states) && t < |states| && l < |states[t].links| && states[t].links[l] != []
    ensures states[t].rx.next <= states[t].links[l][0] < |stream|
  {
    Always(stream, links, states, t);
    NothingIsLate(stream, states[t], l);
  }

  /**
   * Conservation: the fragments that were sent are on a link, lost, queued, part of a packet that was handed on, freed
   * or dropped, and each of them only one of these.
   */
  lemma NothingVanishes(stream: seq<Piece>, links: nat, states: seq<Net>, t: nat, y: nat)
    requires Behaviour(stream, links, states) && t < |states|
    ensures var s := states[t];
      var arrived := Elems(s.rx.held) + RunElems(s.runs) + s.stale + s.spilled;
      && (y < s.sent <==> Carried(s.links, y) || y in s.lost || y in arrived)
      && !(Carried(s.links, y) && y in s.lost) && !(Carried(s.links, y) && y in arrived) && s.lost !! arrived
      && Apart(Elems(s.rx.held), RunElems(s.runs), s.stale, s.spilled)
  {
    Always(stream, links, states, t);
  }

  /** All of the stream has arrived, and nothing was lost or dropped. */
  ghost predicate AllArrived(stream: seq<Piece>, s: Net) {
    s.sent == |stream| && s.lost == {} && s.spilled == {} && forall y: nat :: !Carried(s.links, y)
  }

  /** Every fragment of the stream is in a packet that was handed on. */
  predicate AllTaken(stream: seq<Piece>, s: Net) {
    forall y: nat :: y < |stream| ==> y in RunElems(s.runs)
  }

  /**
   * When nothing was lost or dropped and everything has arrived, then either all packets have been handed on, or none:
   * the first fragment waits for a later one.
   */
  lemma AllOrNothing(stream: seq<Piece>, links: nat, states: seq<Net>, t: nat)
    requires Behaviour(stream, links, states) && t < |states|
    requires AllArrived(stream, states[t])
    ensures states[t].stale == {}
    ensures states[t].runs == [] ||
      (states[t].rx.held == [] && states[t].rx.next == |stream| && AllTaken(stream, states[t]))
  {
    Always(stream, links, states, t);
    var s := states[t];
    forall x: nat
      ensures x !in s.stale
    {
      assert !Hopeless(stream, s, x);
    }
    if s.runs != [] {
      forall y: nat | s.rx.next <= y < |stream|
        ensures y in s.rx.held
      {
        assert y in s.arrived;
        if y in RunElems(s.runs) {
          TakenIsPast(stream, s, y);
        }
      }
      NoTail(stream, s.rx);
      forall y: nat | y < |stream|
        ensures y in RunElems(s.runs)
      {
        assert y in s.arrived && y in Elems(s.rx.held) + RunElems(s.runs);
      }
    }
  }

  /** A queue that holds all that is left of the stream, and starts at the next number, would have been taken. */
  lemma NoTail(stream: seq<Piece>, rx: Rx)
    requires Sane(stream, rx) && QueueOk(stream, rx) && rx.next > 0 && forall y: nat :: rx.next <= y < |stream| ==>
      y in rx.held
    ensures rx.held == [] && rx.next == |stream|
  {
    assert rx.held == [] || rx.held[0] in rx.held;
    if rx.next < |stream| {
      HeldIsRange(stream, rx.held, rx.next, 0);
      var j :| 0 <= j < |rx.held| && RunUpTo(stream, rx.held, j) &&
        (j + 1 < |rx.held| ==> rx.held[j + 1] != rx.held[0] + j + 1);
      if j + 1 < |rx.held| {
        HeldIsRange(stream, rx.held, rx.next, j + 1);
      }
      LastHeld(stream, rx.held);
      assert false;
    }
  }

  lemma LastHeld(stream: seq<Piece>, held: seq<nat>)
    requires Increasing(held) && stream != [] && (forall x :: x in held ==> x < |stream|) && |stream| - 1 in held
    ensures held[|held| - 1] == |stream| - 1
  {
    var k :| 0 <= k < |held| && held[k] == |stream| - 1;
    assert held[|held| - 1] in held;
  }

  lemma {:induction false} HeldIsRange(stream: seq<Piece>, held: seq<nat>, next: nat, j: nat)
    requires Increasing(held) && (forall x :: x in held ==> next <= x < |stream|) &&
      (forall y: nat :: next <= y < |stream| ==> y in held)
    requires j < |held| || (j == 0 && next < |stream|)
    ensures j < |held| && held[j] == next + j
  {
    if j == 0 {
      assert next in held;
      var k :| 0 <= k < |held| && held[k] == next;
      assert held[0] in held;
    } else {
      HeldIsRange(stream, held, next, j - 1);
      assert held[j] in held;
      var y := next + j;
      assert y <= held[j] && y in held;
      var k :| 0 <= k < |held| && held[k] == y;
    }
  }
}

/**
 * Multilink reassembly on true (unwrapped) fragment numbers: what a sender following RFC 1990 produces, and what one
 * call of the receiver does to what it holds.
 */
module MpSpec {
  import opened Bits
  import opened MpWire

  /** One fragment as sent; its true number is its place in the stream. */
  datatype Piece = Piece(begin: bool, end: bool, data: seq<Byte>)

  /** Packets are cut into consecutive fragments: a packet begins exactly where the one before it has ended. */
  predicate WellFormed(stream: seq<Piece>) {
    (stream != [] ==> stream[0].begin && stream[|stream| - 1].end) &&
    forall n :: 0 < n < |stream| ==> (stream[n].begin <==> stream[n - 1].end)
  }

  function FragOf(stream: seq<Piece>, n: nat): Frag
    requires n < |stream|
  {
    Frag(Wire(n), stream[n].begin, stream[n].end, stream[n].data)
  }

  /** Fragments a to b are exactly one packet. */
  predicate IsPacket(stream: seq<Piece>, a: nat, b: nat) {
    a <= b < |stream| && stream[a].begin && stream[b].end && NoEnd(stream, a, b)
  }

  predicate NoEnd(stream: seq<Piece>, a: nat, b: nat)
    requires b <= |stream|
  {
    forall k :: a <= k < b ==> !stream[k].end
  }

  predicate SamePacket(stream: seq<Piece>, x: nat, y: nat) {
    x < |stream| && y < |stream| && NoEnd(stream, x, y) && NoEnd(stream, y, x)
  }

  function Payload(stream: seq<Piece>, a: nat, b: nat): seq<Byte>
    requires b <= |stream|
  {
    if b <= a then [] else Payload(stream, a, b - 1) + stream[b - 1].data
  }

  /**
   * The receiver in true numbers: the next number to process, minus one before the first packet; the queue; the links.
   */
  datatype Rx = Rx(next: int, held: seq<nat>, last: seq<nat>)

  /** A packet taken off the queue; not pushed when no buffer could be allocated for it. */
  datatype Run = Run(first: nat, last: nat, pushed: bool)

  predicate Increasing(s: seq<nat>) {
    forall i, j :: 0 <= i < j < |s| ==> s[i] < s[j]
  }

  function Elems(s: seq<nat>): set<nat> { set x | x in s }

  function Range(a: nat, b: int): (r: set<nat>)
    ensures forall x: nat :: x in r <==> a <= x <= b
    decreases b
  {
    if b < a then {} else Range(a, b - 1) + {b}
  }

  function RunElems(runs: seq<Run>): set<nat> {
    if runs == [] then {} else RunElems(runs[..|runs| - 1]) + Range(runs[|runs| - 1].first, runs[|runs| - 1].last)
  }

  function MinLast(last: seq<nat>): nat
    requires last != []
  {
    if |last| == 1 then last[0]
    else
      var m := MinLast(last[..|last| - 1]);
      if last[|last| - 1] < m then last[|last| - 1] else m
  }

  /** Every link stands at low or beyond. */
  predicate LinksReached(last: seq<nat>, low: int) {
    forall l :: 0 <= l < |last| ==> low <= last[l]
  }

  /** The mark below which nothing can arrive any more. */
  function Highest(next: int, last: seq<nat>): (low: int)
    requires last != []
    ensures next <= low && (low == next || (LinksReached(last, low) && low in last))
  {
    MinLastIs(last);
    if MinLast(last) < next then next else MinLast(last)
  }

  lemma {:induction false} MinLastIs(last: seq<nat>)
    requires last != []
    ensures MinLast(last) in last && LinksReached(last, MinLast(last))
    decreases |last|
  {
    var m := |last| - 1;
    if m > 0 {
      MinLastIs(last[..m]);
      assert forall l :: 0 <= l < m ==> last[..m][l] == last[l];
    }
  }

  /**
   * No link whose numbers grow can still deliver y (a link that has delivered nothing stands at 0 and may deliver 0).
   */
  predicate Gone(y: nat, last: seq<nat>) {
    forall i :: 0 <= i < |last| ==> y < last[i] || (y == last[i] && y > 0)
  }

  /** A packet boundary: the receiver has processed nothing, or up to the end of a packet. */
  predicate Boundary(stream: seq<Piece>, next: int) {
    next == -1 || (0 < next <= |stream| && stream[next - 1].end)
  }

  ghost predicate Sane(stream: seq<Piece>, rx: Rx) {
    WellFormed(stream) && Boundary(stream, rx.next) && rx.last != [] &&
    Increasing(rx.held) && (forall x :: x in rx.held ==> rx.next <= x < |stream|)
  }

  /** The runs start at packet boundaries and follow one another. */
  predicate RunsInOrder(stream: seq<Piece>, next: int, runs: seq<Run>) {
    (forall i :: 0 <= i < |runs| ==> IsPacket(stream, runs[i].first, runs[i].last) && next <= runs[i].first) &&
    forall i, j :: 0 <= i < j < |runs| ==> runs[i].last < runs[j].first
  }

  function NextAfter(next: int, runs: seq<Run>): int {
    if runs == [] then next else runs[|runs| - 1].last + 1
  }

  /** x cannot be completed: some fragment of its packet is not at hand and no link can bring it. */
  ghost predicate Doomed(stream: seq<Piece>, x: nat, atHand: set<nat>, last: seq<nat>) {
    exists y: nat :: SamePacket(stream, x, y) && y !in atHand && Gone(y, last)
  }

  /** The queue's first packet, if it starts at its head, is not complete in the queue. */
  ghost predicate HeadIncomplete(stream: seq<Piece>, held: seq<nat>, k: nat) {
    exists j :: 0 <= j < k && j < |held| && RunUpTo(stream, held, j) &&
      (j + 1 < |held| ==> held[j + 1] != held[0] + j + 1)
  }

  /**
   * The queue's first packet waits for more: it has begun, is not complete, and breaks off at the end of the queue or
   * not below the mark.
   */
  ghost predicate HeadWaits(stream: seq<Piece>, held: seq<nat>, k: nat, mark: int) {
    held != [] && held[0] < |stream| && stream[held[0]].begin &&
    exists j :: 0 <= j < k && j < |held| && RunUpTo(stream, held, j) &&
      (j + 1 < |held| ==> held[j + 1] != held[0] + j + 1 && held[j] >= mark)
  }

  /** The first j + 1 numbers of the queue are consecutive and contain no end of packet. */
  predicate RunUpTo(stream: seq<Piece>, held: seq<nat>, j: nat)
    requires j < |held|
  {
    forall i :: 0 <= i <= j ==> held[i] == held[0] + i && held[i] < |stream| && !stream[held[i]].end
  }

  /** What one call did; queue is what it left in the queue before the overflow was dropped. */
  datatype Effect = Effect(tossed: bool, runs: seq<Run>, stale: set<nat>, queue: seq<nat>, spilled: set<nat>)

  predicate Apart(held: set<nat>, taken: set<nat>, freed: set<nat>, dropped: set<nat>) {
    held !! taken && held !! freed && held !! dropped && taken !! freed && taken !! dropped && freed !! dropped
  }

  function Excess(queue: seq<nat>): (k: nat)
    ensures k <= |queue|
  {
    if |queue| > 16 then |queue| - 16 else 0
  }

  /** One call: fragment n arrived on a link. */
  ghost predicate Received(stream: seq<Piece>, rx: Rx, link: nat, n: nat, rx': Rx, e: Effect)
    requires link < |rx.last|
  {
    var atHand := Elems(rx.held) + {n};
    if n < rx.next then rx' == rx && e == Effect(true, [], {}, rx.held, {})
    else
      && !e.tossed && Sane(stream, rx')
      && rx'.last == rx.last[link := n]
      && RunsInOrder(stream, rx.next, e.runs) && rx'.next == NextAfter(rx.next, e.runs)
      && (forall i :: 0 <= i < |e.runs| ==> ReadyToRun(rx.next, rx'.last, e.runs, i))
      && Elems(rx'.held) + RunElems(e.runs) + e.stale + e.spilled == atHand
      && Apart(Elems(rx'.held), RunElems(e.runs), e.stale, e.spilled)
      && (forall x :: x in e.stale ==> Doomed(stream, x, atHand, rx'.last))
      && (rx'.next > 0 && e.queue != [] && e.queue[0] == rx'.next ==> HeadIncomplete(stream, e.queue, |e.queue|))
      && (rx.next != n && (rx.held == [] || n < rx.held[0]) ==> e.runs == [] && e.stale == {})
      && Overflowed(rx'.held, e) && Ordered(rx'.next, e) && Unbroken(rx, e) && Tried(stream, rx, n, rx'.last, e)
  }

  /** What is too much is dropped from the head of the queue. */
  ghost predicate Overflowed(held: seq<nat>, e: Effect) {
    Increasing(e.queue) && held == e.queue[Excess(e.queue)..] && e.spilled == Elems(e.queue[..Excess(e.queue)])
  }

  /** What was freed came before all that was taken and all that is left, and what was taken before what is left. */
  ghost predicate Ordered(next: int, e: Effect) {
    (forall x, y :: x in e.stale && y in e.queue ==> x < y) &&
    (forall x :: x in e.stale && e.runs != [] ==> x < e.runs[0].first) &&
    forall x :: x in e.queue ==> next <= x
  }

  /** What one call takes is an unbroken sequence of packets, and it begins with the next number or in the old queue. */
  ghost predicate Unbroken(rx: Rx, e: Effect) {
    e.runs != [] ==>
      && RunElems(e.runs) == Range(e.runs[0].first, e.runs[|e.runs| - 1].last)
      && (e.runs[0].first == rx.next || e.runs[0].first in rx.held)
  }

  /**
   * If nothing was taken and some fragment before the new one stays in the queue, then the queue was looked through:
   * its head is beyond the mark or waits for more.
   */
  ghost predicate Tried(stream: seq<Piece>, rx: Rx, n: nat, last: seq<nat>, e: Effect)
    requires last != []
  {
    forall x :: x in rx.held && x <= n && x in e.queue && e.runs == [] && e.queue[0] <= Highest(rx.next, last) ==>
      HeadWaits(stream, e.queue, |e.queue|, Highest(rx.next, last))
  }

  /** A packet is taken only when nothing before it can still arrive: it is next, or no link is behind its start. */
  predicate ReadyToRun(next: int, last: seq<nat>, runs: seq<Run>, i: nat)
    requires i < |runs|
  {
    runs[i].first == NextAfter(next, runs[..i]) || forall l :: 0 <= l < |last| ==> runs[i].first <= last[l]
  }

  /** All the numbers a call compares are less than 2^23 apart. */
  ghost predicate Window(rx: Rx, n: nat) {
    forall x: int, y: int :: Live(rx, n, x) && Live(rx, n, y) ==> x - y < HALF
  }

  ghost predicate Live(rx: Rx, n: nat, x: int) {
    x == n || x == rx.next || (x >= 0 && (x in rx.held || x in rx.last))
  }
}

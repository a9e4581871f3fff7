/** isdn_ppp_mp_receive over the bundle's queue of fragments. */
module MpReceiver {
  import opened Bits
  import opened MpWire
  import opened MpSpec

  const LONG_MAX := 0x7fff_ffff
  const MAX_QUEUE := 16

  /** The queued fragments are those with the given true numbers. */
  ghost predicate Queue(stream: seq<Piece>, frags: seq<Frag>, held: seq<nat>) {
    |frags| == |held| && Increasing(held) &&
    forall i :: 0 <= i < |held| ==> held[i] < |stream| && frags[i] == FragOf(stream, held[i])
  }

  /** Fragment n on the wire. */
  function Sent(stream: seq<Piece>, n: nat, short: bool): (skb: seq<Byte>)
    requires n < |stream|
    ensures |skb| >= if short then 2 else 4
  {
    Header(short, stream[n].begin, stream[n].end, n) + stream[n].data
  }

  // ----- list surgery keeps the queue -----

  lemma QueueDrop(stream: seq<Piece>, frags: seq<Frag>, held: seq<nat>, k: nat)
    requires Queue(stream, frags, held) && k <= |held|
    ensures Queue(stream, frags[k..], held[k..])
  {
    hide FragOf;
    assert forall i :: 0 <= i < |held| - k ==> held[k..][i] == held[k + i] && frags[k..][i] == frags[k + i];
  }

  lemma QueueInsert(stream: seq<Piece>, frags: seq<Frag>, held: seq<nat>, k: nat, n: nat)
    requires Queue(stream, frags, held) && k <= |held| && n < |stream|
    requires k > 0 ==> held[k - 1] < n
    requires k < |held| ==> n < held[k]
    ensures Queue(stream, frags[..k] + [FragOf(stream, n)] + frags[k..], held[..k] + [n] + held[k..])
    ensures Elems(held[..k] + [n] + held[k..]) == Elems(held) + {n}
  {
    InsertIncreasing(held, k, n);
    InsertElems(held, k, n);
    var h, f := held[..k] + [n] + held[k..], frags[..k] + [FragOf(stream, n)] + frags[k..];
    forall i | 0 <= i < |h|
      ensures h[i] < |stream| && f[i] == FragOf(stream, h[i])
    {
      if i > k {
        assert h[i] == held[i - 1] && f[i] == frags[i - 1];
      }
    }
  }

  lemma InsertElems(held: seq<nat>, k: nat, n: nat)
    requires k <= |held|
    ensures Elems(Insert(held, k, n)) == Elems(held) + {n}
  {
    assert held == held[..k] + held[k..];
  }

  lemma InsertIncreasing(held: seq<nat>, k: nat, n: nat)
    requires Increasing(held) && k <= |held|
    requires k > 0 ==> held[k - 1] < n
    requires k < |held| ==> n < held[k]
    ensures Increasing(Insert(held, k, n))
  {
    var h := held[..k] + [n] + held[k..];
    forall i, j | 0 <= i < j < |h|
      ensures h[i] < h[j]
    {
      assert i < k ==> h[i] == held[i] && held[i] <= held[k - 1];
      assert i > k ==> h[i] == held[i - 1];
      assert j < k ==> h[j] == held[j];
      assert j > k ==> h[j] == held[j - 1] && held[k] <= held[j - 1];
    }
  }

  /** A run from the head of the queue is the numbers from its first to its last. */
  lemma RunRange(stream: seq<Piece>, held: seq<nat>, k: nat)
    requires Increasing(held) && k < |held| && forall i :: 0 <= i <= k ==> held[i] == held[0] + i
    ensures Elems(held[..k + 1]) == Range(held[0], held[k])
  {
    forall x | x in Range(held[0], held[k])
      ensures x in held[..k + 1]
    {
      assert held[..k + 1][x - held[0]] == x;
    }
  }

  // ----- the state of the traversing loop, in true numbers -----

  /**
   * What is fixed during one call, and what changes. prev is the last number of the old queue that is not after n, or
   * minus one. The cursor is at position k of the queue; started means that start points at a fragment, which is then
   * the head; pending means that the new fragment n is not yet in the queue.
   */
  datatype Call = Call(stream: seq<Piece>, next0: int, last: seq<nat>, atHand: set<nat>, n: nat, prev: int, mark: int)

  datatype Walk = Walk(next: int, held: seq<nat>, k: nat, started: bool, pending: bool, low: int, runs: seq<Run>,
                       stale: set<nat>)

  ghost predicate Accounted(c: Call, held: seq<nat>, runs: seq<Run>, stale: set<nat>, pending: bool) {
    Elems(held) + RunElems(runs) + stale + (if pending then {c.n} else {}) == c.atHand
  }

  ghost predicate StaleOk(c: Call, held: seq<nat>, stale: set<nat>, pending: bool) {
    forall x :: x in stale ==>
      Doomed(c.stream, x, c.atHand, c.last) && (held != [] ==> x < held[0]) &&
      (pending ==> x < c.n)
  }

  ghost predicate RunsOk(c: Call, next: int, runs: seq<Run>) {
    RunsInOrder(c.stream, c.next0, runs) && next == NextAfter(c.next0, runs) &&
    forall i :: 0 <= i < |runs| ==> ReadyToRun(c.next0, c.last, runs, i)
  }

  /** The low-water mark is the next number, or every link has reached it; what is compared with it is near. */
  ghost predicate Near(c: Call, next: int, low: int, held: seq<nat>, pending: bool) {
    next <= low && (low == next || LinksReached(c.last, low)) &&
    (forall x :: x in held ==> -HALF < x - low < HALF) && (pending ==> -HALF < c.n - low < HALF)
  }

  /**
   * The run that start and the cursor delimit: it begins a packet, which nothing older can precede any more, and is
   * unbroken.
   */
  ghost predicate StartOk(c: Call, next: int, held: seq<nat>, k: nat) {
    k < |held| && held[0] <= held[k] < |c.stream| && c.stream[held[0]].begin &&
    (held[0] == next || LinksReached(c.last, held[0])) &&
    (forall i :: 0 <= i <= k ==> held[i] == held[0] + i) && NoEnd(c.stream, held[0], held[k])
  }

  ghost predicate CursorOk(c: Call, w: Walk) {
    w.k <= |w.held| &&
    (w.pending ==> w.k < |w.held| && w.held[w.k] <= c.n) &&
    (!w.started && 0 < w.k < |w.held| ==> w.low < w.held[w.k]) &&
    (w.started ==> StartOk(c, w.next, w.held, w.k)) &&
    (!w.started && w.next > 0 && w.held != [] && w.held[0] == w.next ==> HeadIncomplete(c.stream, w.held, w.k))
  }

  /** Nothing at the head that is not beyond the mark is left behind by the cursor: it waits for more. */
  ghost predicate HeadOk(c: Call, w: Walk) {
    w.runs == [] && w.held != [] && w.held[0] <= c.mark && !w.started && w.k > 0 ==>
      HeadWaits(c.stream, w.held, w.k, c.mark)
  }

  /** What is taken is one unbroken sequence, behind which the mark is; what is freed is freed before. */
  ghost predicate ChainOk(c: Call, w: Walk) {
    if w.runs == [] then
      && w.low == c.mark
      && (w.started ==> w.held != [] && (w.held[0] == c.next0 || w.held[0] <= c.prev))
    else
      && w.low == w.next
      && (w.started ==> w.held != [] && w.held[0] == w.next)
      && w.runs[0].first < w.next && RunElems(w.runs) == Range(w.runs[0].first, w.next - 1)
      && (w.runs[0].first == c.next0 || w.runs[0].first <= c.prev)
      && forall x :: x in w.stale ==> x < w.runs[0].first
  }

  /**
   * The new fragment goes behind prev: while it is pending, prev is still queued, and afterwards in the run, if there
   * is one.
   */
  ghost predicate PrevOk(c: Call, w: Walk) {
    c.prev <= c.n && (c.prev < 0 ==> !w.pending && forall x :: x in w.held ==> c.n <= x) &&
    (w.pending ==> c.prev in w.held && forall x :: x in w.held && x <= c.n ==> x <= c.prev) &&
    (!w.pending && w.started && w.runs == [] && c.prev >= 0 && w.k < |w.held| ==> w.held[0] <= c.prev <= w.held[w.k])
  }

  ghost predicate CallOk(c: Call) {
    c.n in c.atHand && -1 <= c.next0 <= c.n && -1 <= c.prev <= c.n && c.mark <= c.n &&
    (forall x :: x in c.atHand ==> x < |c.stream|) &&
    forall x, y :: x in c.atHand && y in c.atHand ==> x - y < HALF
  }

  ghost predicate WalkOk(c: Call, w: Walk) {
    CallOk(c) && Sane(c.stream, Rx(w.next, w.held, c.last)) && Near(c, w.next, w.low, w.held, w.pending) &&
    Accounted(c, w.held, w.runs, w.stale, w.pending) && StaleOk(c, w.held, w.stale, w.pending) &&
    RunsOk(c, w.next, w.runs) &&
    CursorOk(c, w) && HeadOk(c, w) && ChainOk(c, w) && PrevOk(c, w)
  }

  // ----- the steps of the loop -----

  function Insert(s: seq<nat>, k: nat, n: nat): seq<nat>
    requires k <= |s|
  {
    s[..k] + [n] + s[k..]
  }

  /** A fragment that is in the queue already is dropped. */
  lemma DuplicateStep(c: Call, w: Walk)
    requires WalkOk(c, w) && w.pending && w.held[w.k] == c.n
    ensures w.held[w.k] == c.prev && WalkOk(c, w.(pending := false))
  {
    PrevAtCursor(c, w);
  }

  /** The new fragment goes behind the cursor. */
  lemma InsertStep(c: Call, w: Walk)
    requires WalkOk(c, w) && w.pending && w.held[w.k] != c.n && (w.k + 1 == |w.held| || c.n < w.held[w.k + 1])
    ensures w.held[w.k] == c.prev && WalkOk(c, w.(held := Insert(w.held, w.k + 1, c.n), pending := false))
  {
    hide Near, Accounted, StaleOk, RunsOk, CallOk, Elems, WellFormed, Boundary, Increasing;
    InsertElems(w.held, w.k + 1, c.n);
    InsertAccounted(c, w.held, Insert(w.held, w.k + 1, c.n), w.runs, w.stale);
    InsertRest(c, w);
    InsertCursor(c, w);
    InsertHead(c, w);
    InsertChain(c, w);
    hide CursorOk, HeadOk, ChainOk, PrevOk, Sane;
  }

  lemma InsertHead(c: Call, w: Walk)
    requires HeadOk(c, w) && w.k < |w.held|
    ensures HeadOk(c, w.(held := Insert(w.held, w.k + 1, c.n), pending := false))
  {
    var held := Insert(w.held, w.k + 1, c.n);
    assert forall i :: 0 <= i <= w.k ==> held[i] == w.held[i];
    hide Insert, RunUpTo;
    if HeadWaits(c.stream, w.held, w.k, c.mark) {
      var j :| 0 <= j < w.k && RunUpTo(c.stream, w.held, j) && w.held[j + 1] != w.held[0] + j + 1 &&
        w.held[j] >= c.mark;
      SameRun(c.stream, w.held, held, j);
    }
  }

  lemma InsertChain(c: Call, w: Walk)
    requires ChainOk(c, w) && PrevOk(c, w) && Increasing(w.held)
    requires w.pending && w.k < |w.held| && w.held[w.k] <= c.n && (w.k + 1 == |w.held| || c.n < w.held[w.k + 1])
    ensures var w' := w.(held := Insert(w.held, w.k + 1, c.n), pending := false);
      w.held[w.k] == c.prev && ChainOk(c, w') && PrevOk(c, w')
  {
    hide RunElems, Range;
    PrevAtCursor(c, w);
  }

  /** The new fragment is put in its place when the cursor is at prev. */
  lemma PrevAtCursor(c: Call, w: Walk)
    requires PrevOk(c, w) && Increasing(w.held) && w.pending && w.k < |w.held| && w.held[w.k] <= c.n
    requires w.k + 1 == |w.held| || c.n < w.held[w.k + 1] || w.held[w.k] == c.n
    ensures w.held[w.k] == c.prev && w.held[0] <= c.prev
  {
    assert w.held[w.k] in w.held;
    var i :| 0 <= i < |w.held| && w.held[i] == c.prev;
  }

  lemma SameRun(stream: seq<Piece>, held: seq<nat>, held': seq<nat>, j: nat)
    requires j < |held| && j < |held'| && RunUpTo(stream, held, j) && forall i :: 0 <= i <= j ==> held'[i] == held[i]
    ensures RunUpTo(stream, held', j)
  {
  }

  lemma InsertRest(c: Call, w: Walk)
    requires Sane(c.stream, Rx(w.next, w.held, c.last)) && Near(c, w.next, w.low, w.held, w.pending) &&
      StaleOk(c, w.held, w.stale, w.pending) && CallOk(c)
    requires w.pending && w.k < |w.held| && w.held[w.k] < c.n && (w.k + 1 == |w.held| || c.n < w.held[w.k + 1])
    ensures var held := Insert(w.held, w.k + 1, c.n);
      Sane(c.stream, Rx(w.next, held, c.last)) && Near(c, w.next, w.low, held, false) &&
      StaleOk(c, held, w.stale, false)
  {
    hide Doomed, WellFormed, Boundary, Insert;
    InsertIncreasing(w.held, w.k + 1, c.n);
    InsertMembers(w.held, w.k + 1, c.n);
    assert w.held[w.k] in w.held;
    var held := Insert(w.held, w.k + 1, c.n);
    forall x | x in held
      ensures w.next <= x < |c.stream| && -HALF < x - w.low < HALF
    {
      assert x in w.held || x == c.n;
    }
  }

  lemma InsertAccounted(c: Call, held: seq<nat>, held': seq<nat>, runs: seq<Run>, stale: set<nat>)
    requires Accounted(c, held, runs, stale, true) && Elems(held') == Elems(held) + {c.n}
    ensures Accounted(c, held', runs, stale, false)
  {
    hide Elems, RunElems;
    assert Elems(held) + {c.n} + RunElems(runs) + stale + {} == Elems(held) + RunElems(runs) + stale + {c.n};
  }

  lemma InsertMembers(held: seq<nat>, k: nat, n: nat)
    requires 0 < k <= |held|
    ensures forall x :: x in Insert(held, k, n) <==> x in held || x == n
    ensures Insert(held, k, n)[0] == held[0]
  {
    assert held == held[..k] + held[k..];
  }

  lemma InsertCursor(c: Call, w: Walk)
    requires CursorOk(c, w) && w.pending && Increasing(w.held) && (w.k + 1 == |w.held| || c.n < w.held[w.k + 1])
    ensures CursorOk(c, w.(held := Insert(w.held, w.k + 1, c.n), pending := false))
  {
    var w' := w.(held := Insert(w.held, w.k + 1, c.n), pending := false);
    assert |w'.held| == |w.held| + 1 && forall i :: 0 <= i <= w.k ==> w'.held[i] == w.held[i];
    hide Insert, Increasing, RunUpTo, NoEnd, LinksReached;
    if !w.started && w.next > 0 && w.held[0] == w.next {
      InsertBehindGap(c.stream, w.held, w.k, w'.held);
    }
  }

  lemma InsertBehindGap(stream: seq<Piece>, held: seq<nat>, k: nat, held': seq<nat>)
    requires HeadIncomplete(stream, held, k) && k < |held| < |held'| && forall i :: 0 <= i <= k ==> held'[i] == held[i]
    ensures HeadIncomplete(stream, held', k)
  {
    var j :| 0 <= j < k && j < |held| && RunUpTo(stream, held, j) &&
      (j + 1 < |held| ==> held[j + 1] != held[0] + j + 1);
    assert RunUpTo(stream, held', j);
  }

  /** The first packet that nothing older can precede starts at the cursor. */
  lemma StartStep(c: Call, w: Walk)
    requires WalkOk(c, w) && !w.started && w.k < |w.held| && w.held[w.k] < |c.stream|
    requires w.held[w.k] <= w.low && c.stream[w.held[w.k]].begin
    requires w.pending || w.held[w.k] == c.prev
    ensures w.k == 0 && WalkOk(c, w.(started := true))
  {
    assert w.held[0] in w.held;
  }

  /** Once the new fragment has been tried against the cursor it belongs further on, if it is still pending. */
  predicate Further(c: Call, w: Walk) {
    w.pending ==> w.k + 1 < |w.held| && w.held[w.k + 1] <= c.n
  }

  lemma PrefixInOrder(stream: seq<Piece>, next: int, runs: seq<Run>, m: nat)
    requires RunsInOrder(stream, next, runs) && m <= |runs|
    ensures RunsInOrder(stream, next, runs[..m])
    ensures m < |runs| ==> NextAfter(next, runs[..m]) <= runs[m].first
  {
  }

  lemma {:induction false} RunElemsBelow(stream: seq<Piece>, next: int, runs: seq<Run>, x: nat)
    requires RunsInOrder(stream, next, runs) && x in RunElems(runs)
    ensures x < NextAfter(next, runs)
    decreases |runs|
  {
    var m := |runs| - 1;
    if x !in Range(runs[m].first, runs[m].last) {
      PrefixInOrder(stream, next, runs, m);
      RunElemsBelow(stream, next, runs[..m], x);
    }
  }

  /** A number between next and the head of the queue is stale or not at hand. */
  lemma BelowHead(c: Call, w: Walk, y: nat)
    requires WalkOk(c, w) && w.k < |w.held| && w.next <= y && y !in w.held && (w.pending ==> y != c.n) && y !in w.stale
    ensures y !in c.atHand
  {
    if y in RunElems(w.runs) {
      RunElemsBelow(c.stream, c.next0, w.runs, y);
    }
  }

  lemma SamePacketNext(stream: seq<Piece>, x: nat, z: nat)
    requires 0 < x < |stream| && !stream[x - 1].end && SamePacket(stream, x - 1, z)
    ensures SamePacket(stream, x, z)
  {
  }

  /** The head of the queue does not begin a packet, and nothing before it can come any more. */
  lemma HeadDoomed(c: Call, w: Walk)
    requires WalkOk(c, w) && w.k == 0 && w.held != [] && w.held[0] < |c.stream| && Further(c, w)
    requires w.held[0] <= w.low && !c.stream[w.held[0]].begin
    ensures Doomed(c.stream, w.held[0], c.atHand, c.last)
  {
    var x := w.held[0];
    assert x in w.held && x > 0;
    var y := x - 1;
    assert !c.stream[y].end;
    if y in w.stale {
      var z: nat :| SamePacket(c.stream, y, z) && z !in c.atHand && Gone(z, c.last);
      SamePacketNext(c.stream, x, z);
    } else {
      BelowHead(c, w, y);
      assert SamePacket(c.stream, x, y) && Gone(y, c.last);
    }
  }

  lemma FreeStep(c: Call, w: Walk)
    requires WalkOk(c, w) && !w.started && w.k < |w.held| && w.held[w.k] < |c.stream| && Further(c, w)
    requires w.held[w.k] <= w.low && !c.stream[w.held[w.k]].begin
    ensures w.k == 0 && WalkOk(c, w.(held := w.held[1..], stale := w.stale + {w.held[0]}))
  {
    assert w.k == 0 && w.held[0] in w.held;
    NoRunYet(c, w);
    HeadDoomed(c, w);
    DropHeld(c, w, 1);
    assert w.held[..1] == [w.held[0]];
  }

  /** Behind a packet that was taken nothing lies below the mark. */
  lemma NoRunYet(c: Call, w: Walk)
    requires WalkOk(c, w) && w.k < |w.held| && w.held[w.k] < |c.stream|
    requires w.held[w.k] < w.low || (w.k == 0 && w.held[w.k] <= w.low && !c.stream[w.held[w.k]].begin)
    ensures w.runs == []
  {
    var x := w.held[w.k];
    assert x in w.held;
    assert x > 0 ==> (c.stream[x].begin <==> c.stream[x - 1].end);
  }

  /** Fragments dropped from the head of the queue. */
  lemma DropHeld(c: Call, w: Walk, m: nat)
    requires WalkOk(c, w) && 0 < m <= |w.held| && (w.pending ==> m < |w.held| && w.held[m] <= c.n) && w.runs == []
    requires forall x :: x in w.held[..m] ==> Doomed(c.stream, x, c.atHand, c.last)
    ensures WalkOk(c, w.(held := w.held[m..], stale := w.stale + Elems(w.held[..m]), started := false, k := 0))
  {
    hide Near, Accounted, StaleOk, RunsOk, CallOk, Elems, WellFormed, Boundary, Doomed;
    DropSets(w.held, m);
    DropAccounted(c, w.held, w.runs, w.stale, w.pending, m);
    DropStale(c, w, m);
    DropNear(c, w, m);
    DropPrev(c, w, m);
    assert w.held[0] in w.held;
  }

  lemma DropPrev(c: Call, w: Walk, m: nat)
    requires PrevOk(c, w) && Increasing(w.held) && m <= |w.held| && (w.pending ==> m < |w.held| && w.held[m] <= c.n)
    ensures c.prev < 0 ==> !w.pending && forall x :: x in w.held[m..] ==> c.n <= x
    ensures w.pending ==> c.prev in w.held[m..] && forall x :: x in w.held[m..] && x <= c.n ==> x <= c.prev
  {
    assert forall x :: x in w.held[m..] ==> x in w.held;
    if w.pending {
      assert w.held[m] in w.held;
      var i :| 0 <= i < |w.held| && w.held[i] == c.prev;
      assert w.held[m..][i - m] == c.prev;
    }
  }

  lemma DropNear(c: Call, w: Walk, m: nat)
    requires Near(c, w.next, w.low, w.held, w.pending) && Sane(c.stream, Rx(w.next, w.held, c.last)) && m <= |w.held|
    ensures Near(c, w.next, w.low, w.held[m..], w.pending) && Sane(c.stream, Rx(w.next, w.held[m..], c.last))
  {
    var held := w.held[m..];
    forall x | x in held
      ensures x in w.held
    {
    }
  }

  lemma DropStale(c: Call, w: Walk, m: nat)
    requires StaleOk(c, w.held, w.stale, w.pending) && Increasing(w.held) && 0 < m <= |w.held| &&
      (w.pending ==> m < |w.held| && w.held[m] <= c.n)
    requires forall x :: x in w.held[..m] ==> Doomed(c.stream, x, c.atHand, c.last)
    ensures StaleOk(c, w.held[m..], w.stale + Elems(w.held[..m]), w.pending)
  {
    hide Doomed;
    DropSets(w.held, m);
  }

  lemma DropSets(held: seq<nat>, m: nat)
    requires Increasing(held) && 0 < m <= |held|
    ensures Increasing(held[m..]) && forall x :: x in held[m..] ==> x in held && x > held[0]
    ensures forall x :: x in held[..m] ==> x in held && (m < |held| ==> x < held[m])
    ensures m < |held| ==> held[m..] != [] && held[m..][0] == held[m]
    ensures Elems(held) == Elems(held[..m]) + Elems(held[m..])
  {
    assert held == held[..m] + held[m..];
  }

  lemma DropAccounted(c: Call, held: seq<nat>, runs: seq<Run>, stale: set<nat>, pending: bool, m: nat)
    requires Accounted(c, held, runs, stale, pending) && m <= |held| &&
      Elems(held) == Elems(held[..m]) + Elems(held[m..])
    ensures Accounted(c, held[m..], runs, stale + Elems(held[..m]), pending)
  {
    hide Elems, RunElems;
  }

  /** No fragment of an unbroken run but the first begins a packet. */
  lemma RunHasNoBegin(c: Call, w: Walk)
    requires WalkOk(c, w) && w.started && w.k > 0
    ensures w.k < |w.held| && w.held[w.k] < |c.stream| && !c.stream[w.held[w.k]].begin
  {
    assert !c.stream[w.held[w.k] - 1].end;
  }

  lemma ContiguousStep(c: Call, w: Walk)
    requires WalkOk(c, w) && w.started && Further(c, w) && w.k + 1 < |w.held| && w.held[w.k + 1] == w.held[w.k] + 1
    requires w.held[w.k] < |c.stream| && !c.stream[w.held[w.k]].end
    ensures WalkOk(c, w.(k := w.k + 1))
  {
    hide Near, Accounted, StaleOk, RunsOk, CallOk, WellFormed, Boundary, HeadIncomplete;
    assert w.held[w.k + 1] in w.held;
  }

  /** The run breaks off below the mark that every link has reached: what is missing cannot come any more. */
  lemma BreakBelowStep(c: Call, w: Walk)
    requires WalkOk(c, w) && w.started && Further(c, w) && w.k + 1 < |w.held| && w.held[w.k + 1] != w.held[w.k] + 1
    requires w.held[w.k] < |c.stream| && !c.stream[w.held[w.k]].end && w.held[w.k] < w.low
    ensures WalkOk(c,
      w.(held := w.held[w.k + 1..], stale := w.stale + Elems(w.held[..w.k + 1]), started := false, k := 0))
  {
    hide WalkOk, Doomed, StartOk, LinksReached;
    BreakFacts(c, w);
    NoRunYet(c, w);
    BelowTail(c, w, w.held[w.k] + 1);
    RunDoomed(c, w, w.held[w.k] + 1);
    DropHeld(c, w, w.k + 1);
  }

  lemma BreakFacts(c: Call, w: Walk)
    requires WalkOk(c, w) && w.started && Further(c, w) && w.k + 1 < |w.held| && w.held[w.k + 1] != w.held[w.k] + 1 &&
      w.held[w.k] < w.low
    ensures StartOk(c, w.next, w.held, w.k) && LinksReached(c.last, w.low) &&
      w.held[w.k] + 1 < w.held[w.k + 1] < |c.stream|
    ensures w.pending ==> w.held[w.k + 1] <= c.n
  {
    hide Accounted, StaleOk, RunsOk, CallOk, WellFormed, HeadOk, HeadIncomplete, LinksReached;
    assert w.held[w.k] in w.held && w.held[w.k + 1] in w.held;
  }

  lemma RunDoomed(c: Call, w: Walk, y: nat)
    requires StartOk(c, w.next, w.held, w.k) && y == w.held[w.k] + 1 && y < |c.stream| && !c.stream[w.held[w.k]].end
    requires y !in c.atHand && LinksReached(c.last, w.low) && y <= w.low
    ensures forall x :: x in w.held[..w.k + 1] ==> Doomed(c.stream, x, c.atHand, c.last)
  {
    forall x | x in w.held[..w.k + 1]
      ensures Doomed(c.stream, x, c.atHand, c.last)
    {
      assert SamePacket(c.stream, x, y) && Gone(y, c.last);
    }
  }

  /** The number after an unbroken run that breaks off is not at hand. */
  lemma BelowTail(c: Call, w: Walk, y: nat)
    requires WalkOk(c, w) && w.k + 1 < |w.held| && w.held[w.k] < y < w.held[w.k + 1] && Further(c, w)
    ensures y !in c.atHand
  {
    assert w.held[0] in w.held && w.held[w.k] >= w.held[0];
    forall i | 0 <= i < |w.held|
      ensures w.held[i] != y
    {
    }
    BelowHead(c, w, y);
  }

  lemma BreakAboveStep(c: Call, w: Walk)
    requires WalkOk(c, w) && w.started && Further(c, w) && w.held[w.k] < |c.stream| && !c.stream[w.held[w.k]].end
    requires w.k + 1 == |w.held| || (w.held[w.k + 1] != w.held[w.k] + 1 && w.held[w.k] >= w.low)
    ensures WalkOk(c, w.(started := false, k := w.k + 1))
  {
    hide Near, Accounted, StaleOk, RunsOk, CallOk, WellFormed, Boundary;
    assert RunUpTo(c.stream, w.held, w.k);
  }

  lemma PassStep(c: Call, w: Walk)
    requires WalkOk(c, w) && !w.started && w.k < |w.held| && Further(c, w) && w.low < w.held[w.k]
    ensures WalkOk(c, w.(k := w.k + 1))
  {
    hide Near, Accounted, StaleOk, RunsOk, CallOk, WellFormed, Boundary;
  }

  /** A complete packet leaves the queue; the mark moves behind it, and a packet that follows at once is started. */
  lemma ReassembleStep(c: Call, w: Walk, pushed: bool)
    requires WalkOk(c, w) && w.started && Further(c, w) && w.k < |w.held| && w.held[w.k] < |c.stream| &&
      c.stream[w.held[w.k]].end
    ensures WalkOk(c, Reassembled(w, pushed))
    ensures Reassembled(w, pushed).started ==> w.held[w.k + 1] < |c.stream| && c.stream[w.held[w.k + 1]].begin
  {
    hide Accounted, StaleOk, RunsOk, CallOk, Near, WellFormed, Boundary, HeadIncomplete, Elems, Range, ChainOk, PrevOk;
    ReassembledRuns(c, w, pushed);
    RunRange(c.stream, w.held, w.k);
    ReassembledHeld(c, w);
    ReassembledAccounted(c, w, pushed);
    ReassembledStale(c, w);
    ReassembledChain(c, w, pushed);
    ReassembledPrev(c, w, pushed);
    assert w.pending ==> w.held[w.k + 1..][0] == w.held[w.k + 1];
  }

  lemma ReassembledPrev(c: Call, w: Walk, pushed: bool)
    requires PrevOk(c, w) && Increasing(w.held) && w.k < |w.held|
    requires w.pending ==> w.k + 1 < |w.held| && w.held[w.k + 1] <= c.n
    ensures PrevOk(c, Reassembled(w, pushed))
  {
    DropPrev(c, w, w.k + 1);
  }

  lemma ReassembledChain(c: Call, w: Walk, pushed: bool)
    requires ChainOk(c, w) && StaleOk(c, w.held, w.stale, w.pending) && w.started && w.k < |w.held|
    requires forall i :: 0 <= i <= w.k ==> w.held[i] == w.held[0] + i
    ensures ChainOk(c, Reassembled(w, pushed))
  {
    hide Doomed, RunElems, Range;
    var r := Run(w.held[0], w.held[w.k], pushed);
    OneRunMore(w.runs, r);
    if w.runs != [] {
      RangesMeet(w.runs[0].first, w.next, r.last);
    }
    assert (w.runs + [r])[0] == if w.runs == [] then r else w.runs[0];
  }

  lemma OneRunMore(runs: seq<Run>, r: Run)
    ensures RunElems(runs + [r]) == RunElems(runs) + Range(r.first, r.last)
    ensures runs == [] ==> RunElems(runs + [r]) == Range(r.first, r.last)
  {
    hide Range;
    assert (runs + [r])[..|runs|] == runs;
  }

  lemma RangesMeet(a: nat, b: nat, c: nat)
    requires a <= b <= c
    ensures Range(a, b - 1) + Range(b, c) == Range(a, c)
  {
  }

  lemma ReassembledStale(c: Call, w: Walk)
    requires StaleOk(c, w.held, w.stale, w.pending) && w.k < |w.held|
    requires w.k + 1 < |w.held| ==> w.held[0] < w.held[w.k + 1]
    ensures StaleOk(c, w.held[w.k + 1..], w.stale, w.pending)
  {
    hide Doomed;
  }

  function Reassembled(w: Walk, pushed: bool): Walk
    requires w.k < |w.held|
  {
    var next, held := w.held[w.k] + 1, w.held[w.k + 1..];
    Walk(next, held, 0, held != [] && held[0] == next, w.pending, next, w.runs + [Run(w.held[0], w.held[w.k], pushed)],
      w.stale)
  }

  lemma ReassembledRuns(c: Call, w: Walk, pushed: bool)
    requires WalkOk(c, w) && StartOk(c, w.next, w.held, w.k) && c.stream[w.held[w.k]].end
    ensures RunsOk(c, w.held[w.k] + 1, w.runs + [Run(w.held[0], w.held[w.k], pushed)])
  {
    hide Near, Accounted, StaleOk, CallOk, WellFormed, Boundary;
    var r := Run(w.held[0], w.held[w.k], pushed);
    var runs := w.runs + [r];
    assert w.held[0] in w.held;
    assert IsPacket(c.stream, r.first, r.last);
    assert runs[..|w.runs|] == w.runs;
    forall i | 0 <= i < |runs|
      ensures ReadyToRun(c.next0, c.last, runs, i)
    {
      if i < |w.runs| {
        assert runs[..i] == w.runs[..i] && ReadyToRun(c.next0, c.last, w.runs, i);
      }
    }
  }

  lemma ReassembledHeld(c: Call, w: Walk)
    requires WalkOk(c, w) && w.k < |w.held| && w.held[w.k] < |c.stream| && c.stream[w.held[w.k]].end && Further(c, w)
    ensures var next, held := w.held[w.k] + 1, w.held[w.k + 1..];
      && Sane(c.stream, Rx(next, held, c.last)) && Near(c, next, next, held, w.pending)
      && (held != [] && held[0] == next ==> held[0] < |c.stream| && c.stream[held[0]].begin)
  {
    var next, held := w.held[w.k] + 1, w.held[w.k + 1..];
    AtHand(c, w);
    assert w.held[w.k] in w.held;
    hide Accounted, StaleOk, RunsOk, Elems;
    forall x | x in held
      ensures x in w.held && next <= x < |c.stream| && x - next < HALF
    {
      var i :| 0 <= i < |held| && held[i] == x;
      assert w.held[w.k + 1 + i] == x;
    }
    if w.pending {
      assert w.held[w.k + 1] > w.held[w.k];
      assert c.n - next < HALF;
    }
    assert Increasing(held);
    assert Boundary(c.stream, next);
    if held != [] && held[0] == next {
      assert held[0] in held;
    }
  }

  /** What is queued is at hand, and so is close together. */
  lemma AtHand(c: Call, w: Walk)
    requires CallOk(c) && Accounted(c, w.held, w.runs, w.stale, w.pending)
    ensures forall x :: x in w.held ==> x in c.atHand
    ensures forall x, y :: x in w.held && y in w.held ==> x - y < HALF
    ensures forall x :: x in w.held ==> c.n - x < HALF
  {
    forall x | x in w.held
      ensures x in c.atHand
    {
      assert x in Elems(w.held);
    }
  }

  lemma ReassembledAccounted(c: Call, w: Walk, pushed: bool)
    requires Accounted(c, w.held, w.runs, w.stale, w.pending) && w.k < |w.held|
    requires Elems(w.held[..w.k + 1]) == Range(w.held[0], w.held[w.k])
    ensures Accounted(c, w.held[w.k + 1..], w.runs + [Run(w.held[0], w.held[w.k], pushed)], w.stale, w.pending)
  {
    var runs := w.runs + [Run(w.held[0], w.held[w.k], pushed)];
    assert runs[..|runs| - 1] == w.runs;
    assert RunElems(runs) == RunElems(w.runs) + Range(w.held[0], w.held[w.k]);
    assert Elems(w.held) == Elems(w.held[..w.k + 1]) + Elems(w.held[w.k + 1..]) by {
      assert w.held == w.held[..w.k + 1] + w.held[w.k + 1..];
    }
    hide Elems, RunElems;
  }

  // ----- the call as a whole -----

  function CallOf(stream: seq<Piece>, rx: Rx, link: nat, n: nat): Call
    requires link < |rx.last|
  {
    Call(stream, rx.next, rx.last[link := n], Elems(rx.held) + {n}, n, Before(rx.held, n),
      Highest(rx.next, rx.last[link := n]))
  }

  /** The last number of the queue that is not after n, or minus one. */
  function Before(held: seq<nat>, n: nat): (prev: int)
    ensures -1 <= prev <= n && (prev >= 0 ==> prev in held)
  {
    if held == [] then -1
    else
      var m := |held| - 1;
      if held[m] <= n then held[m] else Before(held[..m], n)
  }

  lemma {:induction false} BeforeIsLast(held: seq<nat>, n: nat)
    requires Increasing(held)
    ensures forall x :: x in held && x <= n ==> x <= Before(held, n)
  {
    if held != [] {
      var m := |held| - 1;
      assert held == held[..m] + [held[m]];
      BeforeIsLast(held[..m], n);
    }
  }

  /** The state in which the loop is entered. */
  function Entry(stream: seq<Piece>, rx: Rx, n: nat, low: int): Walk
    requires n < |stream| && forall x :: x in rx.held ==> x < |stream|
  {
    var front := rx.held == [] || n < rx.held[0];
    var held := if front then [n] + rx.held else rx.held;
    Walk(rx.next, held, 0, held[0] == rx.next && stream[held[0]].begin, !front, low, [], {})
  }

  lemma EntryOk(stream: seq<Piece>, rx: Rx, link: nat, n: nat, low: int)
    requires Sane(stream, rx) && link < |rx.last| && n < |stream| && rx.next <= n && Window(rx, n)
    requires low == Highest(rx.next, rx.last[link := n])
    ensures WalkOk(CallOf(stream, rx, link, n), Entry(stream, rx, n, low))
  {
    hide Window, Near, CallOk, Increasing, Accounted, RunsOk, Elems, LinksReached, Highest, HeadIncomplete;
    var c, w := CallOf(stream, rx, link, n), Entry(stream, rx, n, low);
    EntryHeld(stream, rx, n, low, c.last);
    EntryNear(stream, rx, link, n, low);
    EntryPrev(stream, rx, n, low);
    hide Before, Elems;
    EntryAccounted(c, w.held, w.pending);
    EntryRuns(c);
  }

  lemma EntryRuns(c: Call)
    ensures RunsOk(c, c.next0, [])
  {
  }

  lemma EntryPrev(stream: seq<Piece>, rx: Rx, n: nat, low: int)
    requires Sane(stream, rx) && n < |stream|
    ensures var w, prev := Entry(stream, rx, n, low), Before(rx.held, n);
      && (forall x :: x in rx.held && x <= n ==> x <= prev)
      && (prev < 0 <==> !w.pending) && (prev < 0 ==> forall x :: x in w.held ==> n <= x) &&
        (prev >= 0 ==> w.held[0] <= prev)
  {
    BeforeIsLast(rx.held, n);
    assert rx.held != [] ==> rx.held[0] in rx.held;
    assert forall x :: x in rx.held ==> rx.held[0] <= x;
    hide Before;
    var w := Entry(stream, rx, n, low);
    assert !w.pending ==> w.held == [n] + rx.held;
  }

  lemma EntryHeld(stream: seq<Piece>, rx: Rx, n: nat, low: int, last: seq<nat>)
    requires Sane(stream, rx) && n < |stream| && rx.next <= n && last != []
    ensures var w := Entry(stream, rx, n, low);
      && Sane(stream, Rx(w.next, w.held, last)) &&
        Elems(rx.held) + {n} == Elems(w.held) + (if w.pending then {n} else {})
      && w.held[0] < |stream|
  {
    var w := Entry(stream, rx, n, low);
    hide WellFormed, Boundary;
    if !w.pending {
      InsertIncreasing(rx.held, 0, n);
      assert w.held == Insert(rx.held, 0, n);
      InsertElems(rx.held, 0, n);
    }
    forall x | x in w.held
      ensures rx.next <= x < |stream|
    {
    }
    assert w.held[0] in w.held;
  }

  lemma LinkReached(last: seq<nat>, low: int, link: nat)
    requires link < |last|
    ensures LinksReached(last, low) ==> low <= last[link]
  {
  }

  lemma EntryNear(stream: seq<Piece>, rx: Rx, link: nat, n: nat, low: int)
    requires link < |rx.last| && n < |stream| && -1 <= rx.next <= n && Window(rx, n) && forall x :: x in rx.held ==>
      x < |stream|
    requires low == Highest(rx.next, rx.last[link := n])
    ensures var c, w := CallOf(stream, rx, link, n), Entry(stream, rx, n, low);
      CallOk(c) && Near(c, w.next, w.low, w.held, w.pending)
  {
    hide LinksReached, Highest;
    var c, w := CallOf(stream, rx, link, n), Entry(stream, rx, n, low);
    assert Live(rx, n, rx.next) && Live(rx, n, n);
    assert Live(rx, n, low) && c.last[link] == n;
    LinkReached(c.last, low, link);
    forall x | x in c.atHand
      ensures x < |stream| && Live(rx, n, x)
    {
    }
    forall x | x in w.held
      ensures -HALF < x - low < HALF
    {
      assert Live(rx, n, x);
    }
  }

  lemma EntryAccounted(c: Call, held: seq<nat>, pending: bool)
    requires c.atHand == Elems(held) + if pending then {c.n} else {}
    ensures Accounted(c, held, [], {}, pending)
  {
  }

  /** The loop has ended; the overflow is dropped from the head of the queue. */
  ghost predicate Finished(c: Call, w: Walk, spill: nat) {
    WalkOk(c, w) && !w.started && !w.pending && Settled(c, w) && spill == if |w.held| > 16 then |w.held| - 16 else 0
  }

  /** When the loop has ended and the overflow has been dropped, the call has done what it should. */
  lemma CallDone(stream: seq<Piece>, rx: Rx, link: nat, n: nat, w: Walk, spill: nat)
    requires link < |rx.last| && rx.next <= n && Sane(stream, rx) && Finished(CallOf(stream, rx, link, n), w, spill)
    requires rx.next != n && (rx.held == [] || n < rx.held[0]) ==> w.runs == [] && w.stale == {}
    ensures spill <= |w.held|
    ensures Received(stream, rx, link, n, Rx(w.next, w.held[spill..], rx.last[link := n]), EffectOf(w, spill))
    ensures Sane(stream, Rx(w.next, w.held[spill..], rx.last[link := n]))
  {
    hide Finished, RunElems, Elems, Doomed, Sane, HeadIncomplete, RunsInOrder, ReadyToRun, Before, Increasing;
    hide Tried, Unbroken, Ordered, Overflowed, Apart, Highest, NextAfter, HeadWaits;
    var c := CallOf(stream, rx, link, n);
    OldQueue(stream, rx, n);
    SpillInside(c, w, spill);
    DoneSets(c, w, spill);
    DoneRuns(c, w, spill);
    DoneQueue(c, w, spill);
    DoneOrdered(c, w, spill);
    DoneUnbroken(c, rx, w, spill);
    DoneTried(c, rx, w, spill);
  }

  function EffectOf(w: Walk, spill: nat): Effect
    requires spill <= |w.held|
  {
    Effect(false, w.runs, w.stale, w.held, Elems(w.held[..spill]))
  }

  lemma OldQueue(stream: seq<Piece>, rx: Rx, n: nat)
    requires Sane(stream, rx)
    ensures forall x :: x in rx.held && x <= n ==> x <= Before(rx.held, n)
  {
    BeforeIsLast(rx.held, n);
  }

  lemma SpillInside(c: Call, w: Walk, spill: nat)
    requires Finished(c, w, spill)
    ensures spill <= |w.held| && Overflowed(w.held[spill..], EffectOf(w, spill))
  {
  }

  lemma DoneOrdered(c: Call, w: Walk, spill: nat)
    requires Finished(c, w, spill) && spill <= |w.held|
    ensures Ordered(w.next, EffectOf(w, spill))
  {
    hide Doomed;
    forall y | y in w.held
      ensures w.held[0] <= y
    {
    }
  }

  lemma DoneUnbroken(c: Call, rx: Rx, w: Walk, spill: nat)
    requires Finished(c, w, spill) && spill <= |w.held|
    requires c.next0 == rx.next && c.atHand == Elems(rx.held) + {c.n} && (c.prev >= 0 ==> c.prev in rx.held)
    ensures Unbroken(rx, EffectOf(w, spill))
  {
    ChainAtHand(c, w);
    hide Finished, Sane, RunElems, Range, NextAfter;
    if w.runs != [] {
      assert w.runs[0].first in Elems(rx.held) + {c.n};
    }
  }

  lemma ChainAtHand(c: Call, w: Walk)
    requires WalkOk(c, w)
    ensures w.runs != [] ==> RunElems(w.runs) == Range(w.runs[0].first, w.runs[|w.runs| - 1].last)
    ensures w.runs != [] ==> w.runs[0].first == c.next0 || w.runs[0].first <= c.prev <= c.n
    ensures w.runs != [] ==> w.runs[0].first in c.atHand
  {
    hide Near, StaleOk, CursorOk, HeadOk, Sane, RunsInOrder, ReadyToRun;
    if w.runs != [] {
      assert w.runs[0].first in Range(w.runs[0].first, w.next - 1);
    }
  }

  lemma DoneTried(c: Call, rx: Rx, w: Walk, spill: nat)
    requires Finished(c, w, spill) && spill <= |w.held| && c.prev == Before(rx.held, c.n)
    requires forall x :: x in rx.held && x <= c.n ==> x <= c.prev
    requires c.next0 == rx.next && c.last != [] && c.mark == Highest(rx.next, c.last)
    ensures Tried(c.stream, rx, c.n, c.last, EffectOf(w, spill))
  {
    hide Before, Highest, Doomed;
    forall x | x in rx.held && x <= c.n && x in w.held && w.runs == [] && w.held[0] <= c.mark
      ensures HeadWaits(c.stream, w.held, |w.held|, c.mark)
    {
      assert x <= c.prev && w.held[0] <= x;
      if w.k > 0 {
        MoreWaits(c.stream, w.held, w.k, c.mark);
      }
    }
  }

  lemma MoreWaits(stream: seq<Piece>, held: seq<nat>, k: nat, mark: int)
    requires HeadWaits(stream, held, k, mark)
    ensures HeadWaits(stream, held, |held|, mark)
  {
  }

  lemma DoneSets(c: Call, w: Walk, spill: nat)
    requires Finished(c, w, spill) && spill <= |w.held|
    ensures Elems(w.held[spill..]) + RunElems(w.runs) + w.stale + Elems(w.held[..spill]) == c.atHand
    ensures Apart(Elems(w.held[spill..]), RunElems(w.runs), w.stale, Elems(w.held[..spill]))
    ensures forall x :: x in w.stale ==> Doomed(c.stream, x, c.atHand, c.last)
  {
    SpillSets(c, w.held, w.runs, w.stale, spill);
    RunsAway(c, w);
    hide Doomed;
    assert forall x :: x in w.held[spill..] ==> x in w.held;
    assert forall x :: x in w.held[..spill] ==> x in w.held;
    SpilledFreed(c, w, spill);
  }

  lemma SpilledFreed(c: Call, w: Walk, spill: nat)
    requires StaleOk(c, w.held, w.stale, false) && Increasing(w.held) && spill <= |w.held|
    ensures w.stale !! Elems(w.held[..spill])
  {
    hide Doomed;
    forall y | y in w.held[..spill]
      ensures w.held[0] <= y
    {
    }
  }

  /** What was taken is neither queued nor freed. */
  lemma RunsAway(c: Call, w: Walk)
    requires ChainOk(c, w) && Sane(c.stream, Rx(w.next, w.held, c.last))
    ensures forall x :: x in RunElems(w.runs) ==> x !in w.held && x !in w.stale
  {
    forall x | x in RunElems(w.runs)
      ensures x !in w.held && x !in w.stale
    {
      assert w.runs != [];
      assert w.runs[0].first <= x <= w.next - 1;
    }
  }

  lemma DoneRuns(c: Call, w: Walk, spill: nat)
    requires Finished(c, w, spill)
    ensures RunsInOrder(c.stream, c.next0, w.runs) && w.next == NextAfter(c.next0, w.runs)
    ensures forall i :: 0 <= i < |w.runs| ==> ReadyToRun(c.next0, c.last, w.runs, i)
  {
  }

  lemma DoneQueue(c: Call, w: Walk, spill: nat)
    requires Finished(c, w, spill)
    ensures Sane(c.stream, Rx(w.next, w.held[spill..], c.last))
    ensures w.next > 0 && w.held != [] && w.held[0] == w.next ==> HeadIncomplete(c.stream, w.held, |w.held|)
  {
    SpillSane(c.stream, w.next, w.held, c.last, spill);
  }

  lemma SpillSane(stream: seq<Piece>, next: int, held: seq<nat>, last: seq<nat>, spill: nat)
    requires Sane(stream, Rx(next, held, last)) && spill <= |held|
    ensures Sane(stream, Rx(next, held[spill..], last))
  {
    var rest := held[spill..];
    forall x | x in rest
      ensures x in held
    {
    }
  }

  lemma SpillSets(c: Call, held: seq<nat>, runs: seq<Run>, stale: set<nat>, spill: nat)
    requires Accounted(c, held, runs, stale, false) && StaleOk(c, held, stale, false) && Increasing(held) &&
      spill <= |held|
    ensures Elems(held[spill..]) + RunElems(runs) + stale + Elems(held[..spill]) == c.atHand
    ensures Elems(held[spill..]) !! stale
    ensures forall x, y :: x in Elems(held[..spill]) && y in held[spill..] ==> x < y
  {
    var rest, gone := held[spill..], held[..spill];
    forall x, y | x in gone && y in rest
      ensures x < y
    {
      var i :| 0 <= i < spill && held[i] == x;
      var j :| 0 <= j < |rest| && rest[j] == y;
      assert held[spill + j] == y;
    }
    forall y | y in rest
      ensures y !in stale
    {
      var j :| 0 <= j < |rest| && rest[j] == y;
      assert held[0] <= held[spill + j];
    }
    assert Elems(held) == Elems(gone) + Elems(rest) by {
      assert held == gone + rest;
    }
    hide Elems, RunElems, Increasing, StaleOk;
    assert Elems(rest) + RunElems(runs) + stale + Elems(gone)
      == Elems(gone) + Elems(rest) + RunElems(runs) + stale + {};
  }

  // ----- the bundle -----

  /** mp->seq before and after the first packet. */
  predicate SeqOk(seqno: nat, next: int) {
    seqno == if next < 0 then LONG_MAX else Wire(next)
  }

  /** The links' last numbers as they are stored. */
  predicate LinksOk(last: seq<nat>, stored: seq<nat>) {
    |last| == |stored| && forall l :: 0 <= l < |last| ==> stored[l] == Wire(last[l])
  }

  lemma LinkMoved(last: seq<nat>, stored: seq<nat>, link: nat, n: nat)
    requires LinksOk(last, stored) && link < |last|
    ensures |stored| == |last| && LinksOk(last[link := n], stored[link := Wire(n)])
  {
  }

  /** The payloads handed up, in order. */
  function Pushed(stream: seq<Piece>, runs: seq<Run>): seq<seq<Byte>>
    requires forall i :: 0 <= i < |runs| ==> runs[i].last < |stream|
  {
    if runs == [] then []
    else
      var r := runs[|runs| - 1];
      Pushed(stream, runs[..|runs| - 1]) + if r.pushed then [Payload(stream, r.first, r.last + 1)] else []
  }

  /**
   * What was handed up is the payloads of the runs that were pushed: a packet of one fragment is handed up as it is, a
   * longer one is copied if a buffer of its length can be allocated.
   */
  predicate Handed(stream: seq<Piece>, alloc: nat -> bool, runs: seq<Run>, out: seq<seq<Byte>>) {
    (forall i :: 0 <= i < |runs| ==> PushedIfRoom(stream, alloc, runs[i])) && out == Pushed(stream, runs)
  }

  predicate PushedIfRoom(stream: seq<Piece>, alloc: nat -> bool, r: Run) {
    r.last < |stream| && r.pushed == (r.first == r.last || alloc(|Payload(stream, r.first, r.last + 1)|))
  }

  lemma HandedNone(stream: seq<Piece>, alloc: nat -> bool)
    ensures Handed(stream, alloc, [], [])
  {
  }

  lemma HandedAnother(stream: seq<Piece>, alloc: nat -> bool, runs: seq<Run>, r: Run, out: seq<seq<Byte>>,
                      data: seq<Byte>)
    requires Handed(stream, alloc, runs, out) && PushedIfRoom(stream, alloc, r) &&
      data == Payload(stream, r.first, r.last + 1)
    ensures Handed(stream, alloc, runs + [r], if r.pushed then out + [data] else out)
  {
    assert (runs + [r])[..|runs + [r]| - 1] == runs;
    hide Payload;
  }

  /** Queue numbers compare as their true numbers do. */
  lemma Compare(x: int, y: int)
    requires -HALF < x - y < HALF
    ensures MpLt(Wire(x), Wire(y)) <==> x < y
    ensures MpLe(Wire(x), Wire(y)) <==> x <= y
    ensures Wire(x) == Wire(y) <==> x == y
  {
    ComparesTrueNumbers(x, y, Wire(x), Wire(y));
  }

  lemma NextWire(x: int)
    ensures (Wire(x) + 1) % MODULUS == Wire(x + 1)
  {
  }

  /** Everything the loop compares in one iteration is close together. */
  lemma CursorNear(c: Call, w: Walk)
    requires WalkOk(c, w) && w.k < |w.held|
    ensures w.held[w.k] < |c.stream| && -HALF < w.held[w.k] - w.low < HALF
    ensures -HALF < c.n - w.held[w.k] < HALF
    ensures w.k + 1 < |w.held| ==>
      -HALF < c.n - w.held[w.k + 1] < HALF &&
      w.held[w.k] + 1 <= w.held[w.k + 1] < w.held[w.k] + HALF
  {
    AtHand(c, w);
    assert w.held[w.k] in w.held && w.held[w.k] in c.atHand;
    assert w.k + 1 < |w.held| ==> w.held[w.k + 1] in w.held && w.held[w.k + 1] in c.atHand;
  }

  class Bundle {
    const shortSeq: seq<bool>
    var frags: seq<Frag>
    var frames: int
    var seqno: nat
    var last: seq<nat>
    var frameDrops: nat
    var overflows: nat
    var maxQueueLen: int
    ghost var rx: Rx

    /** Concatenation of the data of the first m fragments of the queue. */
    method Gather(m: nat, ghost stream: seq<Piece>, ghost held: seq<nat>) returns (data: seq<Byte>)
      requires Queue(stream, frags, held) && 0 < m <= |held| && forall i :: 0 <= i < m ==> held[i] == held[0] + i
      ensures held[m - 1] < |stream| && data == Payload(stream, held[0], held[m - 1] + 1)
    {
      if m == 1 {
        data := frags[0].data;
        assert Payload(stream, held[0], held[0]) == [];
        return;
      }
      data := [];
      for i := 0 to m
        invariant held[0] + i <= |stream| && data == Payload(stream, held[0], held[0] + i)
      {
        assert held[i] == held[0] + i;
        data := data + frags[i].data;
      }
    }

    /** Drop the new fragment if it is here already, or put it right behind the cursor if it belongs there. */
    method PlaceNew(f: Frag, k: nat, pending: bool, ghost c: Call, ghost w: Walk)
      returns (pending': bool, ghost w': Walk)
      requires WalkOk(c, w) && w.k == k && w.pending == pending && k < |w.held|
      requires Queue(c.stream, frags, w.held) && c.n < |c.stream| && f == FragOf(c.stream, c.n)
      requires frames == |frags| + if pending then 1 else 0
      modifies this`frags, this`frames
      ensures WalkOk(c, w') && Further(c, w') && w' == w.(held := w'.held, pending := pending')
      ensures pending ==> pending' || w.held[k] == c.prev
      ensures w'.k < |w'.held| && w'.held[w'.k] == w.held[w.k] && (pending' ==> pending && w'.held == w.held)
      ensures |w'.held| <= |w.held| + if pending && !pending' then 1 else 0
      ensures Queue(c.stream, frags, w'.held) && frames == |frags| + if pending' then 1 else 0
    {
      hide WalkOk, MpLt, MpLe, Wire, WellFormed, Increasing;
      w', pending' := w, pending;
      PendingBehind(c, w);
      CursorNear(c, w);
      Compare(c.n, w.held[k]);
      if k + 1 < |frags| {
        Compare(c.n, w.held[k + 1]);
      }
      if pending' && frags[k].seqno == f.seqno {
        DuplicateStep(c, w);
        w' := w.(pending := false);
        frames := frames - 1;
        pending' := false;
      }
      if pending' && (k + 1 == |frags| || MpLt(f.seqno, frags[k + 1].seqno)) {
        InsertStep(c, w);
        QueueInsert(c.stream, frags, w.held, k + 1, c.n);
        w' := w.(held := Insert(w.held, k + 1, c.n), pending := false);
        frags := frags[..k + 1] + [f] + frags[k + 1..];
        pending' := false;
      }
      PendingFurther(c, w');
    }

    /** A fragment before the mark that begins no packet: what comes before it is lost. */
    method FreeHead(pending: bool, ghost c: Call, ghost w: Walk) returns (ghost w': Walk)
      requires WalkOk(c, w) && Further(c, w) && !w.started && w.k == 0 && w.held != [] && w.pending == pending
      requires Queue(c.stream, frags, w.held) && frames == |frags| + if pending then 1 else 0
      requires w.held[0] <= w.low && !frags[0].begin && (pending || w.held[0] == c.prev)
      modifies this`frags, this`frames, this`frameDrops
      ensures WalkOk(c, w') && w' == w.(held := w.held[1..], stale := w.stale + {w.held[0]}) && Settled(c, w')
      ensures Queue(c.stream, frags, w'.held) && frames == |frags| + if pending then 1 else 0
    {
      hide WalkOk, WellFormed, Increasing;
      if frags[0].end {
        frameDrops := frameDrops + 1;
      }
      FreeStep(c, w);
      QueueDrop(c.stream, frags, w.held, 1);
      w' := w.(held := w.held[1..], stale := w.stale + {w.held[0]});
      FreeSettled(c, w, w');
      frags := frags[1..];
      frames := frames - 1;
    }

    /**
     * A complete packet, from the head of the queue to the cursor: hand it up if there is a buffer for it, and look for
     * the next.
     */
    method TakePacket(k: nat, pending: bool, alloc: nat -> bool, ghost c: Call, ghost w: Walk)
      returns (data: seq<Byte>, pushed: bool, minseq: nat, start: int, ghost w': Walk)
      requires WalkOk(c, w) && Further(c, w) && w.started && w.k == k < |w.held| && Queue(c.stream, frags, w.held) &&
        frags[k].end
      requires frames == |frags| + if pending then 1 else 0
      modifies this`frags, this`frames, this`seqno
      ensures w' == Reassembled(w, pushed) && WalkOk(c, w') && w'.started == (start != -1) &&
        (start == -1 || start == 0) && Settled(c, w')
      ensures Queue(c.stream, frags, w'.held) && SeqOk(seqno, w'.next) && minseq == Wire(w'.low)
      ensures frames == |frags| + if pending then 1 else 0
      ensures w.held[k] < |c.stream| && data == Payload(c.stream, w.held[0], w.held[k] + 1)
      ensures PushedIfRoom(c.stream, alloc, Run(w.held[0], w.held[k], pushed))
    {
      hide WalkOk, Wire, Payload, WellFormed, Increasing;
      CursorNear(c, w);
      StartedRun(c, w);
      data := Gather(k + 1, c.stream, w.held);
      pushed := k == 0 || alloc(|data|);
      NextWire(w.held[k]);
      minseq := (frags[k].seqno + 1) % MODULUS;
      seqno := minseq;
      frames := frames - (k + 1);
      ReassembleStep(c, w, pushed);
      QueueDrop(c.stream, frags, w.held, k + 1);
      if k + 1 < |frags| {
        Compare(w.held[k] + 1, w.held[k + 1]);
      }
      w' := Reassembled(w, pushed);
      RunSettled(c, w');
      frags := frags[k + 1..];
      start := -1;
      if frags != [] && minseq == frags[0].seqno {
        // an END that no BEGIN follows is counted as an error by the source; no conforming sender causes that
        if !frags[0].begin {
          assert false;
        }
        start := 0;
      }
    }

    /** No packet ends at the cursor: go on if the sequence does, discard below the mark, or give up the run. */
    method MoveOn(k: nat, start: int, minseq: nat, pending: bool, ghost c: Call, ghost w: Walk)
      returns (k': nat, start': int, ghost w': Walk)
      requires WalkOk(c, w) && Further(c, w) && w.k == k < |w.held| && w.started == (start != -1) &&
        (start == -1 || start == 0)
      requires Queue(c.stream, frags, w.held) && minseq == Wire(w.low) && frames == |frags| + if pending then 1 else 0
      requires if w.started then !frags[k].end else w.low < w.held[k]
      modifies this`frags, this`frames, this`frameDrops
      ensures WalkOk(c, w') && w'.k == k' && w'.started == (start' != -1) && (start' == -1 || start' == 0) &&
        Settled(c, w')
      ensures w'.pending == w.pending && w'.next == w.next && w'.low == w.low && w'.runs == w.runs
      ensures Queue(c.stream, frags, w'.held) && frames == |frags| + if pending then 1 else 0
      ensures k' <= |w'.held| && |w'.held| - k' < |w.held| - k
    {
      hide WalkOk, MpLt, Wire, WellFormed, Increasing, Settled;
      CursorNear(c, w);
      Compare(w.held[k], w.low);
      NextWire(w.held[k]);
      if k + 1 < |frags| {
        Compare(w.held[k] + 1, w.held[k + 1]);
      }
      if k + 1 < |frags| && (frags[k].seqno + 1) % MODULUS == frags[k + 1].seqno {
        if start != -1 {
          ContiguousStep(c, w);
        } else {
          PassStep(c, w);
        }
        k', start', w' := k + 1, start, w.(k := k + 1);
        RunSettled(c, w');
      } else if k + 1 < |frags| && MpLt(frags[k].seqno, minseq) {
        frameDrops := frameDrops + 1;
        BreakBelowStep(c, w);
        QueueDrop(c.stream, frags, w.held, k + 1);
        frags := frags[k + 1..];
        frames := frames - (k + 1);
        k', start' := 0, -1;
        w' := w.(held := w.held[k + 1..], stale := w.stale + Elems(w.held[..k + 1]), started := false, k := 0);
        BreakSettled(c, w, w');
      } else {
        if start != -1 {
          BreakAboveStep(c, w);
        } else {
          PassStep(c, w);
        }
        k', start', w' := k + 1, -1, w.(started := false, k := k + 1);
        RunSettled(c, w');
      }
    }

    /** Look for the start of a packet at the cursor, or free what begins none and lies below the mark. */
    method FindStart(k: nat, start: int, minseq: nat, pending: bool, ghost c: Call, ghost w: Walk)
      returns (start': int, freed: bool, ghost w': Walk)
      requires WalkOk(c, w) && Further(c, w) && w.k == k < |w.held| && w.pending == pending
      requires w.started == (start != -1) && (start == -1 || start == 0)
      requires w.started || w.pending || w.held[k] == c.prev
      requires Queue(c.stream, frags, w.held) && minseq == Wire(w.low) && frames == |frags| + if pending then 1 else 0
      modifies this`frags, this`frames, this`frameDrops
      ensures WalkOk(c, w') && w'.started == (start' != -1) && (start' == -1 || start' == 0) &&
        (freed ==> Settled(c, w'))
      ensures w'.k == k && w'.pending == w.pending && w'.next == w.next && w'.low == w.low && w'.runs == w.runs
      ensures Queue(c.stream, frags, w'.held) && frames == |frags| + if pending then 1 else 0
      ensures if freed then k == 0 && |w'.held| < |w.held| && start' == -1 else w'.held == w.held && Further(c, w')
      ensures !freed && start' == -1 ==> w'.low < w'.held[k]
    {
      hide WalkOk, MpLt, MpLe, Wire, WellFormed, Increasing, Further;
      start', freed, w' := start, false, w;
      CursorNear(c, w);
      Compare(w.held[k], w.low);
      if start != -1 {
        // the source repairs a run that a new BEGIN interrupts; no conforming sender causes that
        if start != k && frags[k].begin {
          RunHasNoBegin(c, w);
          assert false;
        }
      } else if MpLe(frags[k].seqno, minseq) {
        LowIsHead(c, w);
        if frags[k].begin {
          StartStep(c, w);
          start', w' := k, w.(started := true);
          StartFurther(c, w');
        } else {
          w' := FreeHead(pending, c, w);
          freed := true;
        }
      }
    }

    /**
     * The main fragment traversing loop. The cursor is an index into the queue, and start one or minus one for none.
     */
    method Traverse(f: Frag, minseq0: nat, pending0: bool, start0: bool, alloc: nat -> bool, ghost c: Call,
                    ghost w0: Walk)
      returns (out: seq<seq<Byte>>, ghost w: Walk)
      requires WalkOk(c, w0) && w0.k == 0 && w0.runs == [] && w0.started == start0 && w0.pending == pending0
      requires Queue(c.stream, frags, w0.held) && c.n < |c.stream| && f == FragOf(c.stream, c.n)
      requires minseq0 == Wire(w0.low) && SeqOk(seqno, w0.next) && frames == |frags| + if pending0 then 1 else 0
      requires Settled(c, w0)
      modifies this`frags, this`frames, this`seqno, this`frameDrops
      ensures WalkOk(c, w) && !w.started && !w.pending && Settled(c, w)
      ensures Queue(c.stream, frags, w.held) && SeqOk(seqno, w.next) && frames == |frags|
      ensures Handed(c.stream, alloc, w.runs, out)
      ensures !pending0 && !start0 ==> w == w0
    {
      hide WalkOk, Wire, Handed, Queue, FragOf, SeqOk, Further, PushedIfRoom, Payload, Settled;
      out, w := [], w0;
      HandedNone(c.stream, alloc);
      var k, start := 0, if start0 then 0 else -1;
      var pending, minseq := pending0, minseq0;
      while start != -1 || pending
        invariant WalkOk(c, w) && w.k == k && w.pending == pending && w.started == (start != -1) &&
          (start == -1 || start == 0)
        invariant Queue(c.stream, frags, w.held) && SeqOk(seqno, w.next) && minseq == Wire(w.low)
        invariant frames == |frags| + if pending then 1 else 0
        invariant Handed(c.stream, alloc, w.runs, out) && Settled(c, w)
        invariant !pending0 && !start0 ==> w == w0
        decreases |w.held| - k + if pending then 2 else 0
      {
        CursorInside(c, w);
        pending, w := PlaceNew(f, k, pending, c, w);
        var freed;
        start, freed, w := FindStart(k, start, minseq, pending, c, w);
        if !freed {
          CursorEnd(c, w, frags);
          if start != -1 && frags[k].end {
            ghost var before := w;
            var data, pushed;
            data, pushed, minseq, start, w := TakePacket(k, pending, alloc, c, w);
            HandedAnother(c.stream, alloc, before.runs, Run(before.held[0], before.held[k], pushed), out, data);
            if pushed {
              out := out + [data];
            }
            k := 0;
          } else {
            k, start, w := MoveOn(k, start, minseq, pending, c, w);
          }
        }
      }
    }

    /** The queue matches the true numbers, and so do the counters and the links. */
    ghost predicate Valid(stream: seq<Piece>)
      reads this
    {
      Sane(stream, rx) && Queue(stream, frags, rx.held) && frames == |frags| <= MAX_QUEUE && SeqOk(seqno, rx.next) &&
      |last| == |shortSeq| && LinksOk(rx.last, last)
    }

    /** isdn_ppp_mp_init for the given links. */
    constructor (shortSeq: seq<bool>)
      requires shortSeq != []
      ensures rx == Rx(-1, [], seq(|shortSeq|, _ => 0)) && this.shortSeq == shortSeq
      ensures forall stream :: WellFormed(stream) ==> Valid(stream)
    {
      this.shortSeq := shortSeq;
      frags, frames, seqno := [], 0, LONG_MAX;
      last := seq(|shortSeq|, _ => 0);
      frameDrops, overflows, maxQueueLen := 0, 0, 0;
      rx := Rx(-1, [], seq(|shortSeq|, _ => 0));
    }

    /** The lowest of the last numbers of all links, but not before what has been processed. */
    method LowMark(newseq: nat, ghost n: nat) returns (minseq: nat, ghost low: int)
      requires LinksOk(rx.last, last) && n in rx.last && newseq == Wire(n)
      requires forall x: int, y: int :: Mark(rx, x) && Mark(rx, y) ==> x - y < HALF
      requires SeqOk(seqno, rx.next) && rx.next >= -1
      ensures low == Highest(rx.next, rx.last) && minseq == Wire(Highest(rx.next, rx.last))
    {
      hide Wire, MpLt, MpLe;
      minseq, low := newseq, n;
      for l := 0 to |last|
        invariant low in rx.last && low >= 0 && minseq == Wire(low)
        invariant forall i :: 0 <= i < l ==> low <= rx.last[i]
      {
        assert Mark(rx, low) && Mark(rx, rx.last[l]);
        Compare(rx.last[l], low);
        if MpLt(last[l], minseq) {
          minseq, low := last[l], rx.last[l];
        }
      }
      LowestIsMin(rx.last, low);
      assert Mark(rx, low) && Mark(rx, rx.next);
      SeqCompare(low, rx.next, seqno);
      if MpLt(minseq, seqno) {
        minseq, low := seqno, rx.next;
      }
    }

    /** A fragment before the first one goes to the head of the queue at once. */
    method Enqueue(f: Frag, ghost stream: seq<Piece>, ghost w: Walk, ghost was: Rx, ghost n: nat,
                   ghost low: int) returns (pending: bool)
      requires Queue(stream, frags, was.held) && n < |stream| && f == FragOf(stream, n) && Sane(stream, was) &&
        Window(was, n)
      requires w == Entry(stream, was, n, low) && frames == |frags| + 1
      modifies this`frags
      ensures pending == w.pending && Queue(stream, frags, w.held) && frames == |frags| + if pending then 1 else 0
    {
      if frags != [] {
        assert Live(was, n, was.held[0]) && Live(was, n, n);
        Compare(n, was.held[0]);
      }
      hide MpLt, Wire, WellFormed, Boundary, Window;
      pending := true;
      if frags == [] || MpLt(f.seqno, frags[0].seqno) {
        QueueInsert(stream, frags, was.held, 0, n);
        assert was.held[..0] + [n] + was.held[0..] == w.held && frags[..0] + [f] + frags[0..] == [f] + frags;
        frags := [f] + frags;
        pending := false;
      }
    }

    /** The queue overflow: fragments are dropped from its head. */
    method Spill(ghost stream: seq<Piece>, ghost held: seq<nat>, ghost spill: nat)
      requires Queue(stream, frags, held) && frames == |frags| == |held| &&
        spill == if |held| > 16 then |held| - 16 else 0
      modifies this`frags, this`frames, this`overflows
      ensures Queue(stream, frags, held[spill..]) && frames == |frags| <= MAX_QUEUE
      ensures overflows == old(overflows) + if spill > 0 then 1 else 0
    {
      if frames > MAX_QUEUE {
        overflows := overflows + 1;
        ghost var was := frags;
        while frames > MAX_QUEUE
          invariant overflows == old(overflows) + 1 && frames == |frags| >= 16 && |frags| <= |was| &&
            frags == was[|was| - |frags|..]
        {
          frags := frags[1..];
          frames := frames - 1;
        }
        QueueDrop(stream, was, held, spill);
      }
    }

    /** A fragment that is not too old: note the link's number, find the mark, queue it, and go through the queue. */
    method Process(link: nat, f: Frag, alloc: nat -> bool, ghost stream: seq<Piece>, ghost n: nat)
      returns (out: seq<seq<Byte>>, ghost e: Effect)
      requires Sane(stream, rx) && Queue(stream, frags, rx.held) && frames == |frags| + 1 <= MAX_QUEUE + 1 &&
        SeqOk(seqno, rx.next)
      requires LinksOk(rx.last, last) && |last| == |shortSeq|
      requires link < |rx.last| && n < |stream| && Window(rx, n) && f == FragOf(stream, n) && rx.next <= n
      modifies this`frags, this`frames, this`seqno, this`last, this`frameDrops, this`overflows, this`rx
      ensures Valid(stream) && Received(stream, old(rx), link, n, rx, e) && Handed(stream, alloc, e.runs, out)
      ensures overflows == old(overflows) + if e.spilled != {} then 1 else 0
      ensures !e.tossed
    {
      hide Wire, MpLt, WalkOk, Received, Handed, Sane, Highest, Window, Queue, Entry, Elems, SeqOk, LinksOk;
      ghost var was := rx;
      NearNext(stream, rx, n);
      LinkMoved(rx.last, last, link, n);
      last := last[link := f.seqno];
      rx := rx.(last := rx.last[link := n]);
      MarksNear(stream, was, link, n);
      var minseq;
      ghost var low;
      minseq, low := LowMark(f.seqno, n);
      EntryShape(stream, was, n, low);
      EntryOk(stream, was, link, n, low);
      ghost var w := Entry(stream, was, n, low);
      var pending := Enqueue(f, stream, w, was, n, low);
      QueueLength(stream, frags, w.held);
      var start := frags[0].begin && frags[0].seqno == seqno;
      EntryStart(stream, was, n, low, frags, seqno, start);
      EntrySettled(stream, was, link, n, low);
      out, w := Traverse(f, minseq, pending, start, alloc, CallOf(stream, was, link, n), w);
      ghost var spill := if |w.held| > 16 then |w.held| - 16 else 0;
      QueueLength(stream, frags, w.held);
      Spill(stream, w.held, spill);
      assert Finished(CallOf(stream, was, link, n), w, spill);
      CallDone(stream, was, link, n, w, spill);
      SpilledAny(w.held, spill);
      rx := rx.(next := w.next, held := w.held[spill..]);
      e := EffectOf(w, spill);
    }

    /**
     * isdn_ppp_mp_receive: fragment n of the stream arrives on a link. A number that a short header carries is within
     * 2048 of the link's last one.
     */
    method Receive(link: nat, skb: seq<Byte>, alloc: nat -> bool, ghost stream: seq<Piece>, ghost n: nat)
      returns (out: seq<seq<Byte>>, ghost e: Effect)
      requires Valid(stream) && link < |last| && n < |stream| && Window(rx, n)
      requires skb == Sent(stream, n, shortSeq[link])
      requires shortSeq[link] ==> rx.last[link] <= n <= rx.last[link] + 0x800
      modifies this
      ensures Valid(stream) && Received(stream, old(rx), link, n, rx, e) && Handed(stream, alloc, e.runs, out)
      ensures overflows == old(overflows) + if e.spilled != {} then 1 else 0
      ensures e.tossed ==> frameDrops == old(frameDrops) + 1
      ensures maxQueueLen == if old(frames) + 1 > old(maxQueueLen) then old(frames) + 1 else old(maxQueueLen)
    {
      hide Parse, Wire, MpLt, Received, Handed, Sane, Window, Queue, Header, SeqOk;
      frames := frames + 1;
      if frames > maxQueueLen {
        maxQueueLen := frames;
      }
      var f := Parse(shortSeq[link], skb, last[link]);
      ParsesBack(stream, n, shortSeq[link], rx.last[link]);
      NearNext(stream, rx, n);
      SeqCompare(n, rx.next, seqno);
      if seqno > 0xff_ffff && f.seqno / HALF % 2 == 1 {
        // a first number in the upper half would be taken as the next one; it is out of the window
        FirstIsLow(n, rx.next, seqno);
        assert false;
      } else if MpLt(f.seqno, seqno) {
        frameDrops := frameDrops + 1;
        frames := frames - 1;
        out, e := [], Effect(true, [], {}, rx.held, {});
        Tossed(stream, rx, link, n, alloc);
        return;
      }
      out, e := Process(link, f, alloc, stream, n);
    }
  }

  /** The numbers that are compared in search of the low-water mark. */
  ghost predicate Mark(rx: Rx, x: int) {
    x == rx.next || (x >= 0 && x in rx.last)
  }

  lemma LowestIsMin(last: seq<nat>, low: nat)
    requires low in last && LinksReached(last, low)
    ensures low == MinLast(last)
  {
    MinLastIs(last);
  }

  lemma EntryShape(stream: seq<Piece>, rx: Rx, n: nat, low: int)
    requires Sane(stream, rx) && n < |stream|
    ensures forall x :: x in rx.held ==> x < |stream|
    ensures var w := Entry(stream, rx, n, low);
      w.next == rx.next && w.k == 0 && w.runs == [] && w.stale == {} && w.low == low && w.held != []
    ensures Entry(stream, rx, n, low).pending || rx.held == [] || n < rx.held[0]
    ensures rx.next != n && (rx.held == [] || n < rx.held[0]) ==>
      !Entry(stream, rx, n, low).pending && !Entry(stream, rx, n, low).started
  {
  }

  lemma ParsesBack(stream: seq<Piece>, n: nat, short: bool, last: nat)
    requires n < |stream| && (short ==> last <= n <= last + 0x800)
    ensures Parse(short, Sent(stream, n, short), Wire(last)) == FragOf(stream, n)
  {
    hide Parse, Header, Wire;
    HeaderRoundTrip(short, stream[n].begin, stream[n].end, n, last, stream[n].data);
  }

  lemma NearNext(stream: seq<Piece>, rx: Rx, n: nat)
    requires Sane(stream, rx) && Window(rx, n)
    ensures -1 <= rx.next && -HALF < n - rx.next < HALF
  {
    assert Live(rx, n, n) && Live(rx, n, rx.next);
  }

  lemma FirstIsLow(n: nat, next: int, seqno: nat)
    requires SeqOk(seqno, next) && seqno > 0xff_ffff && n - next < HALF
    ensures Wire(n) / HALF % 2 == 0
  {
  }

  lemma Tossed(stream: seq<Piece>, rx: Rx, link: nat, n: nat, alloc: nat -> bool)
    requires link < |rx.last| && n < rx.next
    ensures Received(stream, rx, link, n, rx, Effect(true, [], {}, rx.held, {})) && Handed(stream, alloc, [], [])
  {
  }

  lemma MarksNear(stream: seq<Piece>, rx: Rx, link: nat, n: nat)
    requires Sane(stream, rx) && link < |rx.last| && Window(rx, n)
    ensures var rx' := rx.(last := rx.last[link := n]);
      n in rx'.last && forall x: int, y: int :: Mark(rx', x) && Mark(rx', y) ==> x - y < HALF
  {
    var rx' := rx.(last := rx.last[link := n]);
    assert rx'.last[link] == n;
    forall x: int, y: int | Mark(rx', x) && Mark(rx', y)
      ensures x - y < HALF
    {
      assert Live(rx, n, x) && Live(rx, n, y);
    }
  }

  /** The first fragment of the queue is a start exactly if it begins a packet and is the next one. */
  lemma EntryStart(stream: seq<Piece>, rx: Rx, n: nat, low: int, frags: seq<Frag>, seqno: nat, start: bool)
    requires Sane(stream, rx) && Window(rx, n) && n < |stream| && SeqOk(seqno, rx.next)
    requires Queue(stream, frags, Entry(stream, rx, n, low).held)
    requires start == (frags[0].begin && frags[0].seqno == seqno)
    ensures start == Entry(stream, rx, n, low).started
  {
    var x := Entry(stream, rx, n, low).held[0];
    assert Live(rx, n, x) && Live(rx, n, rx.next);
    ComparesTrueNumbers(x, rx.next, Wire(x), seqno);
  }

  lemma QueueLength(stream: seq<Piece>, frags: seq<Frag>, held: seq<nat>)
    requires Queue(stream, frags, held)
    ensures |frags| == |held|
  {
  }

  lemma SpilledAny(held: seq<nat>, spill: nat)
    requires spill <= |held|
    ensures Elems(held[..spill]) != {} <==> spill > 0
  {
    if spill > 0 {
      assert held[..spill][0] in Elems(held[..spill]);
    }
  }

  /** mp->seq compares as the next number does, even before the first packet. */
  lemma SeqCompare(x: nat, next: int, seqno: nat)
    requires SeqOk(seqno, next) && next >= -1 && -HALF < x - next < HALF
    ensures MpLt(Wire(x), seqno) <==> x < next
    ensures next >= 0 ==> seqno == Wire(next)
  {
    ComparesTrueNumbers(x, next, Wire(x), seqno);
  }

  /**
   * A head that the loop ends in front of is new there, or follows on something that was freed with the new fragment
   * queued.
   */
  ghost predicate Settled(c: Call, w: Walk) {
    !w.pending && !w.started && w.k == 0 && w.runs == [] && w.held != [] && w.held[0] <= c.mark ==>
      (c.prev < 0 && c.n != c.next0) || c.prev in w.stale
  }

  lemma EntrySettled(stream: seq<Piece>, rx: Rx, link: nat, n: nat, low: int)
    requires Sane(stream, rx) && link < |rx.last| && n < |stream| && forall x :: x in rx.held ==> x < |stream|
    ensures Settled(CallOf(stream, rx, link, n), Entry(stream, rx, n, low))
  {
    EntryPrev(stream, rx, n, low);
    hide Before;
  }

  lemma RunSettled(c: Call, w: Walk)
    requires w.runs != [] || w.k > 0
    ensures Settled(c, w)
  {
  }

  /** Once the new fragment is in its place, a run that is discarded contains prev. */
  lemma BreakSettled(c: Call, w: Walk, w': Walk)
    requires WalkOk(c, w) && w.started && w.k < |w.held| && w.held[w.k] < |c.stream| && w.held[w.k] < w.low
    requires w'.pending == w.pending && w'.stale == w.stale + Elems(w.held[..w.k + 1])
    ensures Settled(c, w')
  {
    NoRunYet(c, w);
    if !w.pending && c.prev >= 0 {
      RunRange(c.stream, w.held, w.k);
      assert c.prev in Elems(w.held[..w.k + 1]);
    } else if c.prev < 0 {
      assert w.held[w.k] in w.held;
    }
  }

  lemma FreeSettled(c: Call, w: Walk, w': Walk)
    requires w.held != [] && (w.pending || w.held[0] == c.prev)
    requires w'.pending == w.pending && w'.stale == w.stale + {w.held[0]}
    ensures Settled(c, w')
  {
  }

  lemma StartFurther(c: Call, w: Walk)
    requires Further(c, w.(started := false))
    ensures Further(c, w)
  {
  }

  lemma CursorEnd(c: Call, w: Walk, frags: seq<Frag>)
    requires WalkOk(c, w) && w.k < |w.held| && Queue(c.stream, frags, w.held)
    ensures |frags| == |w.held|
  {
  }

  lemma StartedRun(c: Call, w: Walk)
    requires WalkOk(c, w) && w.started
    ensures w.k < |w.held| && forall i :: 0 <= i <= w.k ==> w.held[i] == w.held[0] + i
  {
  }

  lemma PendingBehind(c: Call, w: Walk)
    requires WalkOk(c, w)
    ensures w.pending ==> w.k < |w.held| && w.held[w.k] <= c.n
  {
  }

  lemma CursorInside(c: Call, w: Walk)
    requires WalkOk(c, w) && (w.started || w.pending)
    ensures w.k < |w.held|
  {
  }

  /** A pending fragment belongs further on than the cursor once it does not go right behind it. */
  lemma PendingFurther(c: Call, w: Walk)
    requires WalkOk(c, w) && (w.pending ==> w.k + 1 < |w.held| && w.held[w.k + 1] <= c.n)
    ensures Further(c, w)
  {
  }

  /** A fragment before the mark is at the head of the queue while nothing is started. */
  lemma LowIsHead(c: Call, w: Walk)
    requires WalkOk(c, w) && !w.started && w.k < |w.held| && w.held[w.k] <= w.low
    ensures w.k == 0
  {
  }
}
/** The bundle of a net device: a circular, doubly linked list of its channels (drivers/isdn/isdn_net.h). */
module Ring {

  const MAX_QUEUE_LENGTH := 2

  class NetLocal {
    var next: NetLocal
    var last: NetLocal
    var frameCnt: int

    constructor ()
      ensures next == this && last == this && frameCnt == 0
    {
      next, last, frameCnt := this, this, 0;
    }

    /** isdn_net_lp_busy */
    predicate Busy()
      reads this`frameCnt
    {
      !(frameCnt < MAX_QUEUE_LENGTH)
    }
  }

  /** The links, in the order of next from the first one on; last goes the other way round. */
  ghost predicate IsRing(r: seq<NetLocal>)
    reads r`next, r`last
  {
    r != [] && (forall i, j :: 0 <= i < j < |r| ==> r[i] != r[j]) &&
    (forall i, j :: 0 <= i < j < |r| && j == i + 1 ==> r[i].next == r[j] && r[j].last == r[i]) &&
    r[|r| - 1].next == r[0] && r[0].last == r[|r| - 1]
  }

  /** The ring without one link; a lone link is not taken out. */
  ghost function Without(r: seq<NetLocal>, k: nat): seq<NetLocal>
    requires k < |r|
  {
    if |r| == 1 then r else r[..k] + r[k + 1..]
  }

  ghost function Place(r: seq<NetLocal>, lp: NetLocal): (k: nat)
    requires lp in r
    ensures k < |r| && r[k] == lp
  {
    if r[0] == lp then 0 else 1 + Place(r[1..], lp)
  }

  ghost function BusyLinks(r: seq<NetLocal>): set<NetLocal>
    reads r`frameCnt
  {
    set x | x in r && x.Busy()
  }

  /** The place of the first link that is not busy. */
  ghost function FirstIdle(r: seq<NetLocal>, busy: set<NetLocal>): (k: nat)
    ensures k <= |r| && (k < |r| ==> r[k] !in busy) && forall i :: 0 <= i < k ==> r[i] in busy
  {
    if r == [] || r[0] !in busy then 0 else 1 + FirstIdle(r[1..], busy)
  }

  /** The link that is handed out, if any, and the ring as it is left: from the link after it on. */
  ghost function Pick(r: seq<NetLocal>, busy: set<NetLocal>): (NetLocal?, seq<NetLocal>) {
    var k := FirstIdle(r, busy);
    if k == |r| then (null, r) else (r[k], r[k + 1..] + r[..k + 1])
  }

  /** Where the neighbours of a link point at each other, the ring is closed without it. */
  lemma Closed(r: seq<NetLocal>, k: nat)
    requires |r| > 1 && k < |r| && forall i, j :: 0 <= i < j < |r| ==> r[i] != r[j]
    requires forall i, j :: 0 <= i < j < |r| && j == i + 1 && i != k && j != k ==>
      r[i].next == r[j] && r[j].last == r[i]
    requires 0 < k < |r| - 1 ==> r[k - 1].next == r[k + 1] && r[k + 1].last == r[k - 1]
    requires var t := Without(r, k); t[|t| - 1].next == t[0] && t[0].last == t[|t| - 1]
    ensures IsRing(Without(r, k))
  {
    var t := Without(r, k);
    forall i | 0 <= i < |t|
      ensures t[i] == r[if i < k then i else i + 1]
    {
    }
    forall i, j | 0 <= i < j < |t| && j == i + 1
      ensures t[i].next == t[j] && t[j].last == t[i]
    {
      if j < k {
        assert r[i].next == r[j];
      } else if i >= k {
        assert r[i + 1].next == r[j + 1];
      }
    }
  }

  class NetDev {
    var queue: NetLocal
    var held: set<NetLocal>
    ghost var ring: seq<NetLocal>

    ghost predicate Valid()
      reads this, ring`next, ring`last
    {
      IsRing(ring) && queue == ring[0]
    }

    constructor (lp: NetLocal)
      requires lp.next == lp && lp.last == lp
      ensures Valid() && ring == [lp] && held == {}
    {
      queue, held, ring := lp, {}, [lp];
    }

    /** isdn_net_add_to_bundle */
    method Add(nlp: NetLocal)
      requires Valid() && nlp !in ring
      modifies this`queue, this`ring, queue`last, queue.last`next, nlp`next, nlp`last
      ensures Valid() && ring == [nlp] + old(ring) && queue == nlp
    {
      var lp := queue;
      assert lp.last == ring[|ring| - 1];
      nlp.last := lp.last;
      lp.last.next := nlp;
      lp.last := nlp;
      nlp.next := lp;
      queue := nlp;
      ring := [nlp] + ring;
      assert forall i :: 0 < i < |ring| ==> ring[i] == old(ring)[i - 1];
    }

    /** isdn_net_rm_from_bundle: a link that was taken out before stays out. */
    method Remove(lp: NetLocal)
      requires Valid() && (lp in ring || (lp.next == lp && lp.last == lp))
      modifies this`queue, this`ring, lp.last`next, lp.next`last, lp`next, lp`last
      ensures Valid() && lp.next == lp && lp.last == lp
      ensures lp !in old(ring) ==> ring == old(ring)
      ensures forall k :: 0 <= k < |old(ring)| && old(ring)[k] == lp ==> ring == Without(old(ring), k)
    {
      ghost var r := ring;
      ghost var k := if lp in r then Place(r, lp) else 0;
      ghost var before, after := if k == 0 then |r| - 1 else k - 1, if k == |r| - 1 then 0 else k + 1;
      assert lp in r ==> lp.last == r[before] && lp.next == r[after];
      lp.last.next := lp.next;
      lp.next.last := lp.last;
      if queue == lp {
        queue := lp.next;
      }
      lp.next, lp.last := lp, lp;
      if lp in r && |r| > 1 {
        ring := Without(r, k);
        assert r[before].next == r[after] && r[after].last == r[before];
        Closed(r, k);
      }
    }

    /**
     * isdn_net_get_locked_lp: the first link that is not busy; the next call begins after it. held are the links of
     * which the caller holds the xmit_lock, and waiting for one of these would never end.
     */
    method GetLocked() returns (lp: NetLocal?)
      requires Valid() && forall i :: 0 <= i < |ring| ==> ring[i] !in held
      modifies this
      ensures Valid() && (lp, ring) == Pick(old(ring), BusyLinks(old(ring)))
      ensures held == if lp == null then old(held) else old(held) + {lp}
    {
      ghost var r, busy := ring, BusyLinks(ring);
      hide FirstIdle, IsRing, BusyLinks, Pick;
      ghost var i;
      lp, i := FindIdle(busy);
      if lp == null {
        PickNone(r, busy);
      } else {
        PickAt(r, busy, i);
        MoveOn(i);
      }
    }

    /**
     * A frame is sent over the bundle: the first link with less than two frames outstanding gets it, and is unlocked
     * again; there is none only if all have two.
     */
    method Transmit() returns (lp: NetLocal?)
      requires Valid() && forall i :: 0 <= i < |ring| ==> ring[i] !in held
      modifies this, set x | x in ring :: x`frameCnt
      ensures Valid() && held == old(held) && multiset(ring) == multiset(old(ring))
      ensures lp == null <==> forall x :: x in old(ring) ==> old(x.frameCnt) >= 2
      ensures lp == null ==> forall x :: x in old(ring) ==> x.frameCnt == old(x.frameCnt)
      ensures lp != null ==> lp in old(ring) && old(lp.frameCnt) < 2 && lp.frameCnt == old(lp.frameCnt) + 1
      ensures lp != null ==> forall x :: x in old(ring) && x != lp ==> x.frameCnt == old(x.frameCnt)
    {
      ghost var r, busy := ring, BusyLinks(ring);
      PickIs(r, busy);
      hide Pick;
      lp := GetLocked();
      if lp != null {
        lp.frameCnt := lp.frameCnt + 1;
        held := held - {lp};
      }
    }

    /** Go round the ring from link to link, each locked while it is looked at, until one is not busy. */
    method FindIdle(ghost busy: set<NetLocal>) returns (lp: NetLocal?, ghost i: nat)
      requires Valid() && busy == BusyLinks(ring) && forall i :: 0 <= i < |ring| ==> ring[i] !in held
      modifies this`queue, this`held
      ensures lp == null ==> FirstIdle(ring, busy) >= |ring| && queue == ring[0] && held == old(held)
      ensures lp != null ==> FirstIdle(ring, busy) == i < |ring| && lp == queue == ring[i] && held == old(held) + {lp}
    {
      assert ring != [];
      hide FirstIdle, IsRing, BusyLinks;
      ghost var free := held;
      lp, i := queue, 0;
      held := held + {queue};
      while queue.Busy()
        invariant i < |ring| && queue == ring[i] && lp == ring[0] && i <= FirstIdle(ring, busy) &&
          held == free + {queue} && queue !in free
        decreases |ring| - i
      {
        RingFrom(ring, i);
        BusyAt(ring, i, busy);
        held := held - {queue};
        queue := queue.next;
        if queue == lp {
          return null, i;
        }
        i := i + 1;
        held := held + {queue};
      }
      BusyAt(ring, i, busy);
      lp := queue;
    }

    /** The queue goes on to the link after the i-th. */
    method MoveOn(ghost i: nat)
      requires IsRing(ring) && i < |ring| && queue == ring[i]
      modifies this`queue, this`ring
      ensures Valid() && ring == old(ring[i + 1..] + ring[..i + 1])
    {
      hide IsRing;
      RingFrom(ring, i);
      Rotated(ring, i + 1);
      queue := queue.next;
      ring := ring[i + 1..] + ring[..i + 1];
    }
  }

  /** The link after the i-th. */
  lemma RingFrom(r: seq<NetLocal>, i: nat)
    requires IsRing(r) && i < |r|
    ensures r[i].next == if i + 1 < |r| then r[i + 1] else r[0]
    ensures i + 1 < |r| ==> r[i + 1] != r[0]
  {
    assert i + 1 < |r| ==> r[i].next == r[i + 1];
  }

  lemma BusyAt(r: seq<NetLocal>, i: nat, busy: set<NetLocal>)
    requires i < |r| && i <= FirstIdle(r, busy) && BusyLinks(r) == busy
    ensures if r[i].Busy() then i + 1 <= FirstIdle(r, busy) else FirstIdle(r, busy) == i
  {
    assert r[i] in busy <==> r[i].Busy();
  }

  lemma PickAt(r: seq<NetLocal>, busy: set<NetLocal>, i: nat)
    requires FirstIdle(r, busy) == i < |r|
    ensures Pick(r, busy) == (r[i], r[i + 1..] + r[..i + 1])
  {
  }

  lemma PickNone(r: seq<NetLocal>, busy: set<NetLocal>)
    requires FirstIdle(r, busy) >= |r|
    ensures Pick(r, busy) == (null, r)
  {
  }

  lemma Rotated(r: seq<NetLocal>, k: nat)
    requires IsRing(r) && 0 < k <= |r|
    ensures IsRing(r[k..] + r[..k])
    ensures (r[k..] + r[..k])[0] == r[k - 1].next
  {
    var t := r[k..] + r[..k];
    forall i | 0 <= i < |t|
      ensures t[i] == r[if i < |r| - k then i + k else i - (|r| - k)]
    {
    }
    forall i, j | 0 <= i < j < |t| && j == i + 1
      ensures t[i].next == t[j] && t[j].last == t[i]
    {
      if j < |r| - k {
        assert r[i + k].next == r[j + k];
      } else if i >= |r| - k {
        assert r[i - (|r| - k)].next == r[j - (|r| - k)];
      }
    }
    assert k < |r| ==> r[k - 1].next == r[k];
  }

  // ----- what is handed out -----

  /** No link is handed out exactly if all are busy; otherwise one of the ring that is not busy. */
  lemma PickIs(r: seq<NetLocal>, busy: set<NetLocal>)
    ensures Pick(r, busy).0 == null <==> forall x :: x in r ==> x in busy
    ensures Pick(r, busy).0 != null ==> Pick(r, busy).0 in r && Pick(r, busy).0 !in busy
    ensures multiset(Pick(r, busy).1) == multiset(r)
  {
    var k := FirstIdle(r, busy);
    if k < |r| {
      assert r[k] in r;
      Turned(r, k + 1);
    }
  }

  lemma Turned(r: seq<NetLocal>, k: nat)
    requires k <= |r|
    ensures multiset(r[k..] + r[..k]) == multiset(r)
  {
    assert r == r[..k] + r[k..];
  }

  /** The links that are not busy, in ring order. */
  ghost function Idle(r: seq<NetLocal>, busy: set<NetLocal>): seq<NetLocal> {
    if r == [] then [] else (if r[0] in busy then [] else [r[0]]) + Idle(r[1..], busy)
  }

  /** What n calls in a row hand out. */
  ghost function Picks(r: seq<NetLocal>, busy: set<NetLocal>, n: nat): seq<NetLocal?>
    decreases n
  {
    if n == 0 then []
    else
      var p := Pick(r, busy);
      [p.0] + Picks(p.1, busy, n - 1)
  }

  lemma {:induction false} IdleConcat(a: seq<NetLocal>, b: seq<NetLocal>, busy: set<NetLocal>)
    ensures Idle(a + b, busy) == Idle(a, busy) + Idle(b, busy)
    decreases |a|
  {
    if a == [] {
      assert a + b == b;
    } else {
      assert (a + b)[1..] == a[1..] + b;
      IdleConcat(a[1..], b, busy);
    }
  }

  lemma {:induction false} IdleNone(a: seq<NetLocal>, busy: set<NetLocal>)
    requires forall i :: 0 <= i < |a| ==> a[i] in busy
    ensures Idle(a, busy) == []
  {
    if a != [] {
      IdleNone(a[1..], busy);
    }
  }

  /** A call takes the first idle link, which becomes the last. */
  lemma PickTurns(r: seq<NetLocal>, busy: set<NetLocal>)
    requires Idle(r, busy) != []
    ensures Pick(r, busy).0 == Idle(r, busy)[0] &&
      Idle(Pick(r, busy).1, busy) == Idle(r, busy)[1..] + [Idle(r, busy)[0]]
  {
    var k := FirstIdle(r, busy);
    if k == |r| {
      IdleNone(r, busy);
      assert false;
    }
    var a, x, b := r[..k], r[k], r[k + 1..];
    assert r == a + ([x] + b) && r[..k + 1] == a + [x];
    IdleNone(a, busy);
    assert [x][1..] == [] && Idle([x], busy) == [x];
    IdleConcat([x], b, busy);
    IdleConcat(a, [x] + b, busy);
    IdleConcat(a, [x], busy);
    IdleConcat(b, a + [x], busy);
    assert Idle(r, busy) == [x] + Idle(b, busy);
  }

  /** While the same links are busy, as many calls as there are idle links hand out each of them once, in ring order. */
  lemma EachOnce(r: seq<NetLocal>, busy: set<NetLocal>)
    ensures Picks(r, busy, |Idle(r, busy)|) == Idle(r, busy)
    ensures busy == {} ==> Picks(r, {}, |r|) == r
  {
    AllIdle(r);
    PicksAre(r, busy, |Idle(r, busy)|);
  }

  lemma {:induction false} PicksAre(r: seq<NetLocal>, busy: set<NetLocal>, n: nat)
    requires n <= |Idle(r, busy)|
    ensures Picks(r, busy, n) == Idle(r, busy)[..n]
    decreases n
  {
    if n > 0 {
      PickTurns(r, busy);
      PicksAre(Pick(r, busy).1, busy, n - 1);
      var i := Idle(r, busy);
      assert (i[1..] + [i[0]])[..n - 1] == i[1..][..n - 1] && [i[0]] + i[1..][..n - 1] == i[..n];
    }
  }

  /** With no busy link, k calls on a ring of k go round it once. */
  lemma {:induction false} AllIdle(r: seq<NetLocal>)
    ensures Idle(r, {}) == r
  {
    if r != [] {
      AllIdle(r[1..]);
    }
  }
}

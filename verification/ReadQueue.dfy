/** The receive queue of a channel and its reader, which doubles every DLE (drivers/isdn/isdn_common.c). */
module ReadQueue {
  import opened Bits

  const DLE: Byte := 0x10

  /** A buffer in the queue, with the number of DLEs in it. */
  datatype Skb = Skb(data: seq<Byte>, dleCount: nat)

  /** The bytes with every DLE doubled. */
  function Escape(s: seq<Byte>): (t: seq<Byte>)
    ensures |t| >= |s|
  {
    if s == [] then [] else (if s[0] == DLE then [DLE, DLE] else [s[0]]) + Escape(s[1..])
  }

  function DleCount(s: seq<Byte>): nat {
    if s == [] then 0 else (if s[0] == DLE then 1 else 0) + DleCount(s[1..])
  }

  function Joined(queue: seq<Skb>): seq<Byte> {
    if queue == [] then [] else queue[0].data + Joined(queue[1..])
  }

  /** The second half of a doubled DLE. */
  function Half(dleFlag: bool): seq<Byte> { if dleFlag then [DLE] else [] }

  /** What is still to be read: the rest of a doubled DLE, and the rest of the queue. */
  function Owed(dleFlag: bool, rest: seq<Byte>): seq<Byte> { Half(dleFlag) + Escape(rest) }

  lemma {:induction false} EscapeConcat(a: seq<Byte>, b: seq<Byte>)
    ensures Escape(a + b) == Escape(a) + Escape(b)
    decreases |a|
  {
    if a == [] {
      assert a + b == b;
    } else {
      assert (a + b)[1..] == a[1..] + b;
      EscapeConcat(a[1..], b);
    }
  }

  /** A buffer without a DLE is read as it is. */
  lemma {:induction false} EscapePlain(s: seq<Byte>)
    requires DleCount(s) == 0
    ensures Escape(s) == s && forall k :: 0 <= k <= |s| ==> DleCount(s[k..]) == 0
  {
    if s != [] {
      EscapePlain(s[1..]);
      forall k | 0 <= k <= |s|
        ensures DleCount(s[k..]) == 0
      {
        if k > 0 {
          assert s[k..] == s[1..][k - 1..];
        } else {
          assert s[0..] == s;
        }
      }
    }
  }

  lemma {:induction false} EscapedLength(s: seq<Byte>)
    ensures |Escape(s)| == |s| + DleCount(s)
  {
    if s != [] {
      EscapedLength(s[1..]);
    }
  }

  ghost predicate BufferOk(skb: Skb) { skb.dleCount == DleCount(skb.data) }

  ghost predicate QueueOk(queue: seq<Skb>) { forall i :: 0 <= i < |queue| ==> BufferOk(queue[i]) }

  class Channel {
    var queue: seq<Skb>
    var rcvcount: int
    var dleFlag: bool

    /** Every count is exact: that of each buffer, and that of the bytes still to be read. */
    ghost predicate Valid()
      reads this
    {
      QueueOk(queue) && rcvcount == |Owed(dleFlag, Joined(queue))|
    }

    constructor ()
      ensures Valid() && queue == [] && !dleFlag
    {
      queue, rcvcount, dleFlag := [], 0, false;
    }

    /** A buffer of voice data arrives: its DLEs are counted, and the bytes that reading it will give. */
    method Arrive(data: seq<Byte>)
      requires Valid()
      modifies this
      ensures Valid() && dleFlag == old(dleFlag) && Joined(queue) == old(Joined(queue)) + data
    {
      hide Escape;
      var count: nat := 0;
      var i: nat := 0;
      assert data[0..] == data;
      while i < |data|
        invariant i <= |data| && count + DleCount(data[i..]) == DleCount(data)
      {
        assert data[i..][1..] == data[i + 1..];
        if data[i] == DLE {
          count := count + 1;
        }
        i := i + 1;
      }
      JoinedAppend(queue, Skb(data, count));
      EscapeConcat(Joined(queue), data);
      EscapedLength(data);
      queue := queue + [Skb(data, count)];
      rcvcount := rcvcount + |data| + count;
    }

    /** isdn_readbchan without sleeping: up to len bytes. */
    method Read(len0: nat) returns (out: seq<Byte>)
      requires Valid()
      modifies this
      ensures Valid()
      ensures ReadOk(old(dleFlag), old(Joined(queue)), len0, out, dleFlag, Joined(queue))
    {
      hide Escape, DleCount, BufferOk;
      out := [];
      NoBytes();
      if queue == [] {
        return;
      }
      ghost var owed := Owed(dleFlag, Joined(queue));
      var len: int := len0;
      if len > rcvcount {
        len := rcvcount;
      }
      ghost var most := len;
      while len > 0
        invariant old(Joined(queue)) == [] ==> out == [] && Joined(queue) == []
        invariant Valid() && out + Owed(dleFlag, Joined(queue)) == owed && |out| + len == most <= |owed| && len >= 0
        decreases |queue|, len
      {
        if queue == [] {
          break;
        }
        ghost var rest := Joined(queue[1..]);
        assert Joined(queue) == queue[0].data + rest;
        EscapeConcat(queue[0].data, rest);
        var bytes, skb, flag := Take(queue[0], dleFlag, len);
        EscapeConcat(skb.data, rest);
        Rejoin(out, bytes, Half(flag), Escape(skb.data), Half(dleFlag), Escape(queue[0].data), Escape(rest), owed);
        assert QueueOk(queue[1..]);
        out := out + bytes;
        len := len - |bytes|;
        dleFlag := flag;
        rcvcount := rcvcount - |bytes|;
        if skb.data == [] {
          queue := queue[1..];
          assert [] + rest == rest;
        } else {
          PutBack(queue, skb);
          queue := [skb] + queue[1..];
        }
      }
    }

    /** What one buffer gives to a reader that wants up to len bytes, and what is left of it. */
    static method Take(skb: Skb, dleFlag0: bool, len0: nat) returns (out: seq<Byte>, rest: Skb, dleFlag: bool)
      requires BufferOk(skb) && len0 > 0
      ensures out + Half(dleFlag) + Escape(rest.data) == Half(dleFlag0) + Escape(skb.data)
      ensures |out| <= len0 && (rest.data != [] ==> |out| == len0 && BufferOk(rest))
      ensures skb.data == [] ==> out == [] && rest.data == []
    {
      hide Escape, DleCount;
      if skb.dleCount > 0 || dleFlag0 {
        out, rest, dleFlag := TakeEscaped(skb, dleFlag0, len0);
      } else {
        EscapePlain(skb.data);
        var pull := if |skb.data| > len0 then len0 else |skb.data|;
        EscapePlain(skb.data[pull..]);
        out, rest, dleFlag := skb.data[..pull], Skb(skb.data[pull..], 0), dleFlag0;
        assert skb.data == skb.data[..pull] + skb.data[pull..];
      }
    }

    /** Byte by byte, with a second DLE for every DLE. */
    static method TakeEscaped(skb: Skb, dleFlag0: bool, len0: nat) returns (out: seq<Byte>, rest: Skb, dleFlag: bool)
      requires BufferOk(skb) && len0 > 0
      ensures out + Half(dleFlag) + Escape(rest.data) == Half(dleFlag0) + Escape(skb.data)
      ensures |out| <= len0 && (rest.data != [] ==> |out| == len0 && BufferOk(rest))
      ensures skb.data == [] ==> out == [] && rest.data == []
    {
      hide Escape, DleCount, Half;
      var len, pull, dles: nat := len0, 0, skb.dleCount;
      out, dleFlag := [], dleFlag0;
      assert skb.data[0..] == skb.data && [] + Half(dleFlag) == Half(dleFlag);
      while pull < |skb.data| && len > 0
        invariant 0 <= pull <= |skb.data| && len >= 0 && |out| + len == len0 && dles == DleCount(skb.data[pull..])
        invariant out + Half(dleFlag) + Escape(skb.data[pull..]) == Half(dleFlag0) + Escape(skb.data)
        invariant skb.data == [] ==> out == []
        decreases |skb.data| - pull, dleFlag
      {
        len := len - 1;
        EscapeNext(skb.data, pull);
        NextOut(out, dleFlag, skb.data[pull], Escape(skb.data[pull + 1..]));
        if dleFlag {
          out := out + [DLE];
          dleFlag := false;
        } else {
          out := out + [skb.data[pull]];
          if skb.data[pull] == DLE {
            dleFlag := true;
            dles := dles - 1;
          }
          pull := pull + 1;
        }
      }
      rest := Skb(skb.data[pull..], dles);
    }
  }

  /** What a read of up to len bytes gives, and what it leaves. */
  ghost predicate ReadOk(flag: bool, rest: seq<Byte>, len: nat, out: seq<Byte>, flag': bool, rest': seq<Byte>) {
    var owed := Owed(flag, rest);
    out + Owed(flag', rest') == owed &&
    |out| == if rest == [] then 0
             else if rest' == [] && flag' && len >= |owed| then |owed| - 1
             else if len < |owed| then len else |owed|
  }

  lemma NoBytes()
    ensures Joined([]) == [] && Escape([]) == []
  {
  }

  lemma {:induction false} JoinedAppend(queue: seq<Skb>, skb: Skb)
    ensures Joined(queue + [skb]) == Joined(queue) + skb.data
  {
    if queue == [] {
      assert [] + [skb] == [skb] && [skb][1..] == [];
    } else {
      assert (queue + [skb])[1..] == queue[1..] + [skb];
      JoinedAppend(queue[1..], skb);
    }
  }

  lemma PutBack(queue: seq<Skb>, skb: Skb)
    requires queue != [] && QueueOk(queue) && BufferOk(skb)
    ensures QueueOk([skb] + queue[1..]) && Joined([skb] + queue[1..]) == skb.data + Joined(queue[1..])
  {
    assert ([skb] + queue[1..])[1..] == queue[1..];
  }

  lemma EscapeNext(s: seq<Byte>, k: nat)
    requires k < |s|
    ensures Escape(s[k..]) == (if s[k] == DLE then [DLE, DLE] else [s[k]]) + Escape(s[k + 1..])
    ensures DleCount(s[k..]) == (if s[k] == DLE then 1 else 0) + DleCount(s[k + 1..])
  {
    assert s[k..][1..] == s[k + 1..];
  }

  /** One byte goes out: the second half of a DLE, or the next byte. */
  lemma NextOut(out: seq<Byte>, dleFlag: bool, c: Byte, rest: seq<Byte>)
    ensures var x := (if c == DLE then [DLE, DLE] else [c]) + rest;
      && (dleFlag ==> out + Half(dleFlag) + x == (out + [DLE]) + Half(false) + x)
      && (!dleFlag ==> out + Half(dleFlag) + x == (out + [c]) + Half(c == DLE) + rest)
  {
  }

  lemma Rejoin(out: seq<Byte>, bytes: seq<Byte>, half: seq<Byte>, x: seq<Byte>, half0: seq<Byte>, x0: seq<Byte>,
               rest: seq<Byte>, owed: seq<Byte>)
    requires bytes + half + x == half0 + x0 && out + (half0 + (x0 + rest)) == owed
    ensures (out + bytes) + (half + (x + rest)) == owed
  {
    assert (out + bytes) + (half + (x + rest)) == out + ((bytes + half + x) + rest);
    assert out + (half0 + (x0 + rest)) == out + ((half0 + x0) + rest);
  }

  // ----- any interleaving of arrivals and reads -----

  datatype Event = Arrival(data: seq<Byte>) | Reading(len: nat, out: seq<Byte>)

  /** The rest of a doubled DLE, and what is left in the queue. */
  datatype State = State(dleFlag: bool, rest: seq<Byte>)

  ghost predicate Step(s: State, e: Event, s': State) {
    match e
    case Arrival(data) => s' == State(s.dleFlag, s.rest + data)
    case Reading(len, out) => ReadOk(s.dleFlag, s.rest, len, out, s'.dleFlag, s'.rest)
  }

  ghost predicate Run(events: seq<Event>, states: seq<State>) {
    |states| == |events| + 1 && states[0] == State(false, []) && forall i :: 0 <= i < |events| ==>
      Step(states[i], events[i], states[i + 1])
  }

  function Input(events: seq<Event>): seq<Byte> {
    if events == [] then []
    else
      var e := events[|events| - 1];
      Input(events[..|events| - 1]) + if e.Arrival? then e.data else []
  }

  function Output(events: seq<Event>): seq<Byte> {
    if events == [] then []
    else
      var e := events[|events| - 1];
      Output(events[..|events| - 1]) + if e.Reading? then e.out else []
  }

  /** Whatever is read, and when: what was read and what is owed are the input with every DLE doubled. */
  lemma {:induction false} NothingLost(events: seq<Event>, states: seq<State>)
    requires Run(events, states)
    ensures var s := states[|events|]; Output(events) + Owed(s.dleFlag, s.rest) == Escape(Input(events))
    decreases |events|
  {
    hide Escape;
    if events == [] {
      NoBytes();
    } else {
      var n := |events| - 1;
      var e, s, s' := events[n], states[n], states[n + 1];
      NothingLost(events[..n], states[..n + 1]);
      assert Step(s, e, s');
      var o := Output(events[..n]);
      if e.Arrival? {
        EscapeConcat(s.rest, e.data);
        EscapeConcat(Input(events[..n]), e.data);
        assert o + [] == o && o + (Half(s.dleFlag) + Escape(s.rest) + Escape(e.data))
          == o + (Half(s.dleFlag) + Escape(s.rest)) + Escape(e.data);
        assert Half(s.dleFlag) + (Escape(s.rest) + Escape(e.data)) == Half(s.dleFlag) + Escape(s.rest) + Escape(e.data);
      } else {
        assert Input(events) == Input(events[..n]) + [] == Input(events[..n]);
        assert (o + e.out) + Owed(s'.dleFlag, s'.rest) == o + (e.out + Owed(s'.dleFlag, s'.rest));
      }
    }
  }

  /** The output never runs ahead, and lags by one pending DLE at most when the queue is empty. */
  lemma OutputIsPrefix(events: seq<Event>, states: seq<State>)
    requires Run(events, states)
    ensures Output(events) <= Escape(Input(events))
    ensures var s := states[|events|]; s.rest == [] ==> Escape(Input(events)) == Output(events) + Half(s.dleFlag)
  {
    NothingLost(events, states);
    NoBytes();
    hide Escape;
    var s := states[|events|];
    assert s.rest == [] ==> Owed(s.dleFlag, s.rest) == Half(s.dleFlag);
  }

  /**
   * Two readers of the same bytes see the same, however the bytes were cut into buffers and reads, up to what is still
   * owed.
   */
  lemma SizesDoNotMatter(events: seq<Event>, states: seq<State>, events': seq<Event>, states': seq<State>)
    requires Run(events, states) && Run(events', states') && Input(events) == Input(events')
    ensures |Output(events)| <= |Output(events')| ==> Output(events) <= Output(events')
    ensures states[|events|] == State(false, []) == states'[|events'|] ==> Output(events) == Output(events')
  {
    OutputIsPrefix(events, states);
    OutputIsPrefix(events', states');
    hide Escape;
    var t := Escape(Input(events));
    assert Output(events) == t[..|Output(events)|] && Output(events') == t[..|Output(events')|];
  }

  // ----- what a listener hears -----

  /** Every 0x10 is the first of a pair, of which the last may be cut in half. */
  predicate Doubled(s: seq<Byte>) {
    if s == [] then true
    else if s[0] != 0x10 then Doubled(s[1..])
    else if |s| == 1 then true
    else s[1] == 0x10 && Doubled(s[2..])
  }

  /** A listener takes the first 0x10 of every pair for the byte, and drops the second. */
  function Heard(s: seq<Byte>): seq<Byte> {
    if s == [] then []
    else if s[0] == 0x10 && |s| > 1 then [s[0]] + Heard(s[2..])
    else [s[0]] + Heard(s[1..])
  }

  /** The halves of pairs can never be mistaken for each other. */
  lemma {:induction false} NoOddHalf(a: seq<Byte>, b: seq<Byte>)
    ensures [0x10] + Escape(a) != Escape(b)
    decreases |a| + |b|
  {
    if [0x10] + Escape(a) == Escape(b) {
      assert Escape(b)[0] == 0x10;
      assert Escape(b) == [0x10] + ([0x10] + Escape(b[1..]));
      assert Escape(a) == Escape(b)[1..] == [0x10] + Escape(b[1..]);
      NoOddHalf(b[1..], a);
    }
  }

  lemma {:induction false} EscapeOnce(a: seq<Byte>, b: seq<Byte>)
    requires Escape(a) == Escape(b)
    ensures a == b
  {
    if a != [] && b != [] {
      assert a[0] == Escape(a)[0] == Escape(b)[0] == b[0];
      var n := if a[0] == 0x10 then 2 else 1;
      assert Escape(a[1..]) == Escape(a)[n..] && Escape(b[1..]) == Escape(b)[n..];
      EscapeOnce(a[1..], b[1..]);
    }
  }

  lemma EscapeHead(w: seq<Byte>)
    requires w != []
    ensures Escape(w) == (if w[0] == 0x10 then [0x10, 0x10] else [w[0]]) + Escape(w[1..])
  {
  }

  lemma HeardNext(x: seq<Byte>)
    requires x != []
    ensures x[0] != 0x10 ==> Heard(x) == [x[0]] + Heard(x[1..]) && (Doubled(x) <==> Doubled(x[1..]))
    ensures |x| > 1 && x[0] == 0x10 ==>
      Heard(x) == [x[0]] + Heard(x[2..]) && (Doubled(x) <==> x[1] == 0x10 && Doubled(x[2..]))
    ensures x == [0x10] ==> Heard(x) == [x[0]] && Doubled(x)
  {
    assert Heard([]) == [];
  }

  /** The first of what has been read is the first of w, or the first half of its pair. */
  lemma FirstRead(x: seq<Byte>, owed: seq<Byte>, w: seq<Byte>)
    requires x != [] && x + owed == Escape(w)
    ensures w != [] && w[0] == x[0]
    ensures x[0] != 0x10 ==> x[1..] + owed == Escape(w[1..])
    ensures x == [0x10] ==> owed == [0x10] + Escape(w[1..])
    ensures x[0] == 0x10 && |x| > 1 ==> x[1] == 0x10 && x[2..] + owed == Escape(w[1..])
  {
    assert (x + owed)[0] == x[0];
    EscapeHead(w);
    hide Escape;
    assert Escape(w)[0] == w[0] && (x + owed)[0] == x[0];
    if x[0] != 0x10 {
      assert (x + owed)[1..] == x[1..] + owed && Escape(w)[1..] == Escape(w[1..]);
    } else {
      assert Escape(w)[1] == 0x10 && Escape(w)[2..] == Escape(w[1..]);
      if |x| > 1 {
        assert (x + owed)[1] == x[1] && (x + owed)[2..] == x[2..] + owed;
      } else {
        assert (x + owed)[1..] == owed && Escape(w)[1..] == [0x10] + Escape(w[1..]);
      }
    }
  }

  /** Nothing has been read yet of w. */
  lemma NothingHeard(half: bool, rest: seq<Byte>, w: seq<Byte>)
    requires Owed(half, rest) == Escape(w)
    ensures rest == w && !half
  {
    hide Escape;
    if half {
      NoOddHalf(rest, w);
    } else {
      assert Owed(half, rest) == Escape(rest);
      EscapeOnce(rest, w);
    }
  }

  /** Half a pair has been read of w. */
  lemma HalfHeard(half: bool, rest: seq<Byte>, w: seq<Byte>)
    requires Owed(half, rest) == [0x10] + Escape(w)
    ensures rest == w && half
  {
    hide Escape;
    if half {
      assert Escape(rest) == Owed(half, rest)[1..] == Escape(w);
      EscapeOnce(rest, w);
    } else {
      assert Owed(half, rest) == Escape(rest);
      NoOddHalf(w, rest);
    }
  }

  lemma {:induction false} HeardSoFar(x: seq<Byte>, half: bool, rest: seq<Byte>, w: seq<Byte>)
    requires x + Owed(half, rest) == Escape(w)
    ensures Doubled(x) && Heard(x) + rest == w
    decreases |x|
  {
    if x == [] {
      assert Heard(x) == [] && Doubled(x) && x + Owed(half, rest) == Owed(half, rest);
      NothingHeard(half, rest, w);
    } else {
      HeardNext(x);
      hide Escape, Heard, Doubled, Owed;
      FirstRead(x, Owed(half, rest), w);
      if x[0] != 0x10 {
        HeardSoFar(x[1..], half, rest, w[1..]);
        Glue(Heard(x[1..]), rest, w);
      } else if |x| == 1 {
        HalfHeard(half, rest, w[1..]);
        assert x == [0x10];
        Glue([], rest, w);
      } else {
        HeardSoFar(x[2..], half, rest, w[1..]);
        Glue(Heard(x[2..]), rest, w);
      }
    }
  }

  lemma Glue(h: seq<Byte>, rest: seq<Byte>, w: seq<Byte>)
    requires w != [] && h + rest == w[1..]
    ensures ([w[0]] + h) + rest == w
  {
    assert ([w[0]] + h) + rest == [w[0]] + (h + rest);
  }

  /** At every moment what has been read is made of pairs, and what a listener hears and the queue are the input. */
  lemma ListenerHears(events: seq<Event>, states: seq<State>)
    requires Run(events, states)
    ensures Doubled(Output(events)) && Heard(Output(events)) + states[|events|].rest == Input(events)
  {
    NothingLost(events, states);
    var s := states[|events|];
    HeardSoFar(Output(events), s.dleFlag, s.rest, Input(events));
  }
}

/** Which numbers are dialled, in which order, and when. */
module DialNumbers {
  import opened Dial
  import opened DialRuns
  import opened DialCounts

  /** The numbers that an interface has dialled. */
  function Numbers(log: seq<Sent>, i: nat): seq<string> {
    if log == [] then []
    else
      var s := log[|log| - 1];
      Numbers(log[..|log| - 1], i) + if s.who == i && s.cmd.DialNumber? then [s.cmd.phone] else []
  }

  function NumbersOf(cmds: seq<Cmd>): seq<string> {
    if cmds == [] then []
    else
      var c := cmds[|cmds| - 1];
      NumbersOf(cmds[..|cmds| - 1]) + if c.DialNumber? then [c.phone] else []
  }

  /** The first k numbers when a list is gone through again and again. */
  function RoundAndRound(phones: seq<string>, k: nat): (s: seq<string>)
    requires phones != []
    ensures |s| == k
  {
    seq(k, j requires 0 <= j => phones[j % |phones|])
  }

  // ----- logs -----

  lemma {:induction false} NumbersConcat(a: seq<Sent>, b: seq<Sent>, i: nat)
    ensures Numbers(a + b, i) == Numbers(a, i) + Numbers(b, i)
    decreases |b|
  {
    if b == [] {
      assert a + b == a;
    } else {
      assert (a + b)[..|a + b| - 1] == a + b[..|b| - 1];
      NumbersConcat(a, b[..|b| - 1], i);
    }
  }

  lemma {:induction false} NumbersTagged(j: nat, cmds: seq<Cmd>, i: nat)
    ensures Numbers(Tagged(j, cmds), i) == if j == i then NumbersOf(cmds) else []
    decreases |cmds|
  {
    if cmds != [] {
      assert Tagged(j, cmds)[..|cmds| - 1] == Tagged(j, cmds[..|cmds| - 1]);
      NumbersTagged(j, cmds[..|cmds| - 1], i);
    }
  }

  lemma {:induction false} NumbersOfConcat(a: seq<Cmd>, b: seq<Cmd>)
    ensures NumbersOf(a + b) == NumbersOf(a) + NumbersOf(b)
    decreases |b|
  {
    if b == [] {
      assert a + b == a;
    } else {
      assert (a + b)[..|a + b| - 1] == a + b[..|b| - 1];
      NumbersOfConcat(a, b[..|b| - 1]);
    }
  }

  /** There are as many numbers as DIAL commands. */
  lemma {:induction false} NumbersCount(log: seq<Sent>, i: nat)
    ensures |Numbers(log, i)| == DialsBy(log, i)
  {
    if log != [] {
      NumbersCount(log[..|log| - 1], i);
    }
  }

  /** Hanging up dials nothing. */
  lemma {:induction false} HangupNumbers(ifs: seq<Lp>, j: nat, i: nat)
    requires ListOk(ifs) && j < |ifs|
    ensures Numbers(Hangup(ifs, j).1, i) == []
    decreases j
  {
    var lp := ifs[j];
    var s := (ifs, []);
    if lp.connected && lp.cfg.slave >= 0 && ifs[lp.cfg.slave].connected {
      s := Hangup(ifs, lp.cfg.slave);
      HangupNumbers(ifs, lp.cfg.slave, i);
    }
    OneHangup(j, i);
    NumbersConcat(s.1, if lp.connected then [Sent(j, HangUp)] else [], i);
  }

  lemma OneHangup(j: nat, i: nat)
    ensures Numbers([Sent(j, HangUp)], i) == [] && Numbers([], i) == []
  {
    assert [Sent(j, HangUp)][..0] == [];
  }

  // ----- one interface -----

  /** The interface has dialled k numbers of its list: it is at the number that comes next, in its round. */
  predicate OnList(lp: Lp, k: nat) {
    var n := |lp.cfg.phones|;
    lp.dialstate in {0, 1, 3, 4, 5, 6, 11, 12} && (lp.dialstate in {1, 11} ==> k == 0) &&
    (Outgoing(lp.dialstate) ==> n > 0 && lp.dial == k % n && lp.dialretry == k / n)
  }

  lemma NextPlace(k: nat, n: nat)
    requires n > 0
    ensures if k % n + 1 < n then (k + 1) % n == k % n + 1 && (k + 1) / n == k / n
      else (k + 1) % n == 0 && (k + 1) / n == k / n + 1
  {
    var q, r := k / n, k % n;
    assert k == n * q + r;
    if r + 1 < n {
      Quotient(k + 1, n, q, r + 1);
    } else {
      assert n * (q + 1) == n * q + n;
      Quotient(k + 1, n, q + 1, 0);
    }
  }

  lemma Quotient(m: nat, n: nat, q: nat, r: nat)
    requires m == n * q + r && r < n
    ensures m / n == q && m % n == r
  {
    var a, b := m / n, m % n;
    assert m == n * a + b;
    if a > q {
      assert n * a - n * q == n * (a - q);
      TimesAtLeast(n, a - q);
    } else if a < q {
      assert n * q - n * a == n * (q - a);
      TimesAtLeast(n, q - a);
    }
  }

  lemma TimesAtLeast(n: nat, k: nat)
    requires k > 0
    ensures n * k >= n
  {
  }

  /** What a tick dials is the next number of the list, if anything. */
  ghost predicate NextOnList(lp: Lp, o: Outcome, k: nat) {
    OnList(if o.done then o.lp.(dialstate := 0, connected := false) else o.lp, k + |NumbersOf(o.cmds)|) &&
    (NumbersOf(o.cmds) == [] || (lp.cfg.phones != [] && NumbersOf(o.cmds) == [lp.cfg.phones[k % |lp.cfg.phones|]]))
  }

  lemma SomeNumbers(phone: string)
    ensures NumbersOf([]) == [] && NumbersOf([SetL2, SetL3]) == [] && NumbersOf([ClearEaz, SetEaz]) == []
    ensures NumbersOf([AcceptB]) == [] && NumbersOf([HangUp]) == []
    ensures NumbersOf([SetL2, SetL3] + [DialNumber(phone)]) == [phone]
  {
    assert [SetL2, SetL3][..1] == [SetL2] && [SetL2][..0] == [] && [ClearEaz, SetEaz][..1] == [ClearEaz];
    assert [ClearEaz][..0] == [] && [AcceptB][..0] == [] && [HangUp][..0] == [];
    NumbersOfConcat([SetL2, SetL3], [DialNumber(phone)]);
    assert [DialNumber(phone)][..0] == [];
  }

  lemma DialOneOnList(lp: Lp, env: Env, k: nat)
    requires LpOk(lp) && lp.dialstate == 3 && OnList(lp, k)
    ensures NextOnList(lp, DialOne(lp, env), k)
  {
    hide Leased, NumbersOf;
    SomeNumbers(lp.cfg.phones[lp.dial]);
    NextPlace(k, |lp.cfg.phones|);
  }

  lemma TickOnList(lp: Lp, env: Env, k: nat)
    requires LpOk(lp) && OnList(lp, k)
    ensures NextOnList(lp, Tick(lp, env), k)
  {
    hide Leased, NumbersOf, DialOne;
    SomeNumbers("");
    if lp.dialstate == 1 {
      if lp.cfg.phones != [] {
        var p := Start(lp, env).(dialretry := 0, dialstate := 3);
        FirstPlace(|lp.cfg.phones|);
        DialOneOnList(p, env, 0);
        NumbersOfConcat([ClearEaz, SetEaz], DialOne(p, env).cmds);
        assert [] + NumbersOf(DialOne(p, env).cmds) == NumbersOf(DialOne(p, env).cmds);
      }
    } else if lp.dialstate == 3 {
      DialOneOnList(lp, env, k);
    }
  }

  lemma FirstPlace(n: nat)
    requires n > 0
    ensures 0 % n == 0 && 0 / n == 0
  {
  }

  lemma StatusOnList(lp: Lp, e: Status, k: nat)
    requires OnList(lp, k)
    ensures OnList(OnStatus(lp, e), k) && OnStatus(lp, e).cfg == lp.cfg
  {
  }

  // ----- all interfaces -----

  /** The interface has moved on, and what it dialled meanwhile is what comes next on its list. */
  ghost predicate MovedOn(a: Lp, b: Lp, dialled: seq<string>, k: nat) {
    b.cfg == a.cfg && OnList(b, k + |dialled|) &&
    (dialled == [] || (a.cfg.phones != [] && dialled == [a.cfg.phones[k % |a.cfg.phones|]]))
  }

  lemma TickAtNumbers(ifs: seq<Lp>, env: Env, j: nat, i: nat, k: nat)
    requires ListOk(ifs) && j < |ifs| && AllOk(ifs) && i < |ifs| && OnList(ifs[i], k)
    ensures var r := TickAt(ifs, env, j);
      MovedOn(ifs[i], r.0[i], Numbers(r.1, i), k) && (j != i ==> Numbers(r.1, i) == [])
  {
    hide LpOk, Tick, Numbers, NumbersOf, Progress, DialsBy, Hangup, OnList;
    var o := Tick(ifs[j], env);
    var ifs' := ifs[j := o.lp];
    KeepsConfig(ifs[j], env);
    TickAtConfigs(ifs, env, j);
    NumbersTagged(j, o.cmds, i);
    if j == i {
      TickOnList(ifs[i], env, k);
    } else {
      TickAtProgress(ifs, env, j, i);
      AtRestOnList(TickAt(ifs, env, j).0[i], k);
    }
    if o.done {
      HangupNumbers(ifs', j, i);
      NumbersConcat(Tagged(j, o.cmds), Hangup(ifs', j).1, i);
      HangupResult(ifs', j);
    }
  }

  lemma AtRestOnList(lp: Lp, k: nat)
    ensures lp.dialstate == 0 ==> OnList(lp, k)
  {
  }

  lemma HangupResult(ifs: seq<Lp>, i: nat)
    requires ListOk(ifs) && i < |ifs|
    ensures Hangup(ifs, i).0[i] == ifs[i].(dialstate := 0, connected := false)
  {
    HangupProgress(ifs, i, 0, i);
  }

  lemma {:induction false} TickFirstNumbers(ifs: seq<Lp>, env: Env, n: nat, i: nat, k: nat)
    requires ListOk(ifs) && n <= |ifs| && AllOk(ifs) && i < |ifs| && OnList(ifs[i], k)
    ensures var r := TickFirst(ifs, env, n);
      MovedOn(ifs[i], r.0[i], Numbers(r.1, i), k) && (n <= i ==> Numbers(r.1, i) == [])
  {
    hide LpOk, TickAt, Numbers, OnList, DialsBy, Progress;
    if n == 0 {
      OneHangup(0, i);
    } else {
      var r := TickFirst(ifs, env, n - 1);
      TickFirstNumbers(ifs, env, n - 1, i, k);
      forall j | 0 <= j < |ifs|
        ensures LpOk(r.0[j])
      {
        TickFirstProgress(ifs, env, n - 1, j);
        ProgressOk(ifs[j], r.0[j], DialsBy(r.1, j), j < n - 1, env.timeout10);
      }
      TickAtNumbers(r.0, env, n - 1, i, k + |Numbers(r.1, i)|);
      NumbersConcat(r.1, TickAt(r.0, env, n - 1).1, i);
    }
  }

  // ----- runs -----

  /**
   * What has been dialled so far is the list, gone through again and again, and the interface is at its place in it.
   */
  ghost predicate InOrderSoFar(a: Lp, b: Lp, dialled: seq<string>) {
    b.cfg == a.cfg && OnList(b, |dialled|) &&
    (dialled == [] || (a.cfg.phones != [] && dialled == RoundAndRound(a.cfg.phones, |dialled|)))
  }

  lemma OneMoreNumber(a: Lp, b: Lp, c: Lp, dialled: seq<string>, more: seq<string>)
    requires InOrderSoFar(a, b, dialled) && MovedOn(b, c, more, |dialled|)
    ensures InOrderSoFar(a, c, dialled + more)
  {
    hide OnList;
    if more == [] {
      assert dialled + more == dialled;
    }
  }

  lemma {:induction false} AlwaysInOrder(states: seq<Net>, events: seq<Event>, t10: nat, t: nat, i: nat)
    requires Behaviour(states, events, t10) && t < |states| && i < |states[0].ifs|
    requires states[0].ifs[i].dialstate in {0, 1, 11}
    ensures |states[t].ifs| == |states[0].ifs|
    ensures InOrderSoFar(states[0].ifs[i], states[t].ifs[i], Numbers(states[t].log, i))
    decreases t
  {
    hide LpOk, Numbers, Requested, TickFirst, OnStatus, OnList, MovedOn, InOrderSoFar;
    SameLength(states, events, t10, t);
    if t == 0 {
      OneHangup(0, i);
      NothingDialled(states[0].ifs[i]);
    } else {
      AlwaysInOrder(states, events, t10, t - 1, i);
      AlwaysOk(states, events, t10, t - 1);
      var s, e, s' := states[t - 1], events[t - 1], states[t];
      assert Step(s, e, s');
      var a, b, c, dialled := states[0].ifs[i], s.ifs[i], s'.ifs[i], Numbers(s.log, i);
      PlaceInOrder(a, b, dialled);
      if e.TimerTick? {
        TickFirstNumbers(s.ifs, e.env, |s.ifs|, i, |dialled|);
        var sent := TickFirst(s.ifs, e.env, |s.ifs|).1;
        NumbersConcat(s.log, sent, i);
        OneMoreNumber(a, b, c, dialled, Numbers(sent, i));
      } else {
        StatusOnList(s.ifs[i], e.status, |dialled|);
        StatusMovesOn(b, c, e.status, |dialled|);
        OneMoreNumber(a, b, c, dialled, []);
        assert dialled + [] == dialled;
      }
    }
  }

  lemma NothingDialled(lp: Lp)
    requires lp.dialstate in {0, 1, 11}
    ensures InOrderSoFar(lp, lp, [])
  {
  }

  lemma PlaceInOrder(a: Lp, b: Lp, dialled: seq<string>)
    requires InOrderSoFar(a, b, dialled)
    ensures OnList(b, |dialled|)
  {
  }

  lemma StatusMovesOn(b: Lp, c: Lp, e: Status, k: nat)
    requires OnList(b, k) && (c == b || c == OnStatus(b, e))
    ensures MovedOn(b, c, [], k)
  {
    StatusOnList(b, e, k);
  }

  /**
   * In any run the numbers that a call request dials are its list in order, again and again: the j-th is number j
   * modulo the length of the list, whatever messages come in between.
   */
  lemma DialledInOrder(states: seq<Net>, events: seq<Event>, t10: nat, t: nat, i: nat, j: nat)
    requires Behaviour(states, events, t10) && t < |states| && i < |states[0].ifs|
    requires states[0].ifs[i].dialstate == 1 && j < |Numbers(states[t].log, i)|
    ensures var phones := states[0].ifs[i].cfg.phones;
      phones != [] && Numbers(states[t].log, i)[j] == phones[j % |phones|]
  {
    hide Behaviour, Numbers, OnList;
    AlwaysInOrder(states, events, t10, t, i);
  }

  /**
   * A call request that nobody answers dials just the list, dialmax + 1 times round, less the last number of the last
   * round.
   */
  lemma DialsTheList(states: seq<Net>, events: seq<Event>, t10: nat, t: nat, i: nat)
    requires Behaviour(states, events, t10) && t < |states| && NoMaster(states[0].ifs, i)
    requires Unlimited(states[0].ifs[i].cfg) && states[0].ifs[i].dialstate == 1 && LpOk(states[0].ifs[i])
    requires forall k :: 0 <= k < |events| ==> Calm(events[k], i)
    requires TicksIn(events[..t]) >= Ticks(states[0].ifs[i], t10)
    ensures var cfg := states[0].ifs[i].cfg;
      |cfg.phones| * (cfg.dialmax + 1) > 0 &&
      Numbers(states[t].log, i) == RoundAndRound(cfg.phones, |cfg.phones| * (cfg.dialmax + 1) - 1)
  {
    hide Behaviour, Numbers, OnList, Ticks, TicksIn, Calm, DialsBy;
    DialsExactly(states, events, t10, t, i);
    NumbersCount(states[t].log, i);
    AlwaysInOrder(states, events, t10, t, i);
    var cfg := states[0].ifs[i].cfg;
    TimesAtLeast(|cfg.phones|, cfg.dialmax + 1);
  }
}

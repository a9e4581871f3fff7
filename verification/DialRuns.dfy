/** Dialling comes to an end, whatever the interleaving of timer ticks and status messages (drivers/isdn/isdn_net.c). */
module DialRuns {
  import opened Dial

  /** k * c */
  function Times(k: nat, c: nat): nat { if k == 0 then 0 else c + Times(k - 1, c) }

  lemma {:induction false} TimesIs(k: nat, c: nat)
    ensures Times(k, c) == k * c
  {
    if k > 0 {
      TimesIs(k - 1, c);
    }
  }

  // ----- what an interface may still do -----

  /** In these states a number was or will be dialled, and dial points at the next one. */
  predicate Outgoing(state: nat) { 2 <= state <= 6 || state == 12 }

  ghost predicate LpOk(lp: Lp) {
    lp.dialstate <= 12 &&
    (Outgoing(lp.dialstate) ==> 0 <= lp.dial < |lp.cfg.phones| && lp.dialretry <= lp.cfg.dialmax) &&
    forall k :: 0 <= k < |lp.cfg.phones| ==> !Leased(lp.cfg.phones[k])
  }

  /** The numbers up to the end of the last round: all rounds that are left, and the rest of this one. */
  function Left(lp: Lp): (k: nat)
    requires 0 <= lp.dial < |lp.cfg.phones| && lp.dialretry <= lp.cfg.dialmax
    ensures k > 0
  {
    Times(lp.cfg.dialmax - lp.dialretry, |lp.cfg.phones|) + |lp.cfg.phones| - lp.dial
  }

  function AllNumbers(cfg: Config): nat { Times(cfg.dialmax, |cfg.phones|) + |cfg.phones| }

  /** How many DIAL commands can still come: the number at which the last round would end is not dialled any more. */
  ghost function Dials(lp: Lp): nat
    requires LpOk(lp)
  {
    if lp.dialstate in {1, 2, 11} then (if lp.cfg.phones == [] then 0 else AllNumbers(lp.cfg) - 1)
    else if Outgoing(lp.dialstate) then Left(lp) - 1
    else 0
  }

  /** Ticks until a timer is over its limit. */
  function Over(limit: int, timer: nat): nat { if timer > limit then 1 else limit - timer + 2 }

  /** The most ticks between two numbers: dial, wait for the callback, for the D channel, for the B channel. */
  function Attempt(cfg: Config, t10: nat): nat { 1 + Over(cfg.cbdelay, 0) + Over(t10, 0) + 1 + Over(t10, 0) }

  /** Ticks in state 3 with k numbers left. */
  function Rest(cfg: Config, t10: nat, k: nat): nat { if k == 0 then 1 else Times(k - 1, Attempt(cfg, t10)) + 1 }

  /** A bound on the ticks until the interface is at rest. */
  ghost function Ticks(lp: Lp, t10: nat): nat
    requires LpOk(lp)
  {
    var w := Over(t10, 0);
    if lp.dialstate == 0 then 0
    else if lp.dialstate in {1, 2} then Rest(lp.cfg, t10, AllNumbers(lp.cfg))
    else if lp.dialstate == 11 then Over(lp.cfg.cbdelay, lp.dtimer) + Rest(lp.cfg, t10, AllNumbers(lp.cfg))
    else if lp.dialstate == 3 then Rest(lp.cfg, t10, Left(lp))
    else if lp.dialstate == 4 then Over(t10, lp.dtimer) + 1 + w + Rest(lp.cfg, t10, Left(lp))
    else if lp.dialstate == 5 then 1 + w + Rest(lp.cfg, t10, Left(lp))
    else if lp.dialstate == 6 then Over(t10, lp.dtimer) + Rest(lp.cfg, t10, Left(lp))
    else if lp.dialstate == 12 then Over(lp.cfg.cbdelay, lp.dtimer) + w + 1 + w + Rest(lp.cfg, t10, Left(lp))
    else if lp.dialstate == 7 then 1 + w + 1 + w
    else if lp.dialstate == 8 then Over(t10, lp.dtimer) + 1 + w
    else if lp.dialstate == 9 then 1 + w
    else Over(t10, lp.dtimer)
  }

  function DialCount(cmds: seq<Cmd>): nat {
    if cmds == [] then 0 else DialCount(cmds[..|cmds| - 1]) + if cmds[|cmds| - 1].DialNumber? then 1 else 0
  }

  /** One number is tried: there is one less left, or none and the interface hangs up. */
  lemma AdvanceLeft(lp: Lp)
    requires LpOk(lp) && lp.dialstate == 3
    ensures var next := Advance(lp);
      if next.dialretry > next.cfg.dialmax then Left(lp) == 1
      else 0 <= next.dial < |next.cfg.phones| && Left(next) == Left(lp) - 1
  {
    var n := |lp.cfg.phones|;
    if lp.dial + 1 == n && lp.dialretry < lp.cfg.dialmax {
      assert Times(lp.cfg.dialmax - lp.dialretry, n) == n + Times(lp.cfg.dialmax - lp.dialretry - 1, n);
    }
  }

  lemma RestStep(cfg: Config, t10: nat, k: nat)
    requires k > 0
    ensures Rest(cfg, t10, k + 1) == Attempt(cfg, t10) + Rest(cfg, t10, k) && Rest(cfg, t10, k) >= 1
  {
  }

  /** State 3: hang up without a DIAL, or send one DIAL and have less left in every respect. */
  lemma DialOneProgress(lp: Lp, env: Env, t10: nat)
    requires LpOk(lp) && lp.dialstate == 3
    ensures var o := DialOne(lp, env);
      if o.done then DialCount(o.cmds) == 0
      else
        LpOk(o.lp) && o.anymore && DialCount(o.cmds) == 1 && Dials(o.lp) == Left(lp) - 2 &&
        Ticks(o.lp, t10) < Rest(lp.cfg, t10, Left(lp))
  {
    hide Leased, Times, Left;
    var o := DialOne(lp, env);
    Counts(lp.cfg.phones[lp.dial]);
    if !o.done {
      AdvanceLeft(lp);
      var next := Advance(lp);
      LeftSame(next, o.lp);
      RestStep(lp.cfg, t10, Left(next));
    }
  }

  lemma LeftSame(a: Lp, b: Lp)
    requires a.cfg == b.cfg && a.dial == b.dial && a.dialretry == b.dialretry && 0 <= a.dial < |a.cfg.phones| &&
      a.dialretry <= a.cfg.dialmax
    ensures Left(a) == Left(b)
  {
  }

  lemma Counts(phone: string)
    ensures DialCount([]) == 0 && DialCount([SetL2, SetL3]) == 0 && DialCount([SetL2, SetL3] + [DialNumber(phone)]) == 1
    ensures DialCount([AcceptB]) == 0 && DialCount([HangUp]) == 0
  {
    assert [SetL2, SetL3][..1] == [SetL2] && [SetL2][..0] == [];
    var s := [SetL2, SetL3] + [DialNumber(phone)];
    assert s[..2] == [SetL2, SetL3];
    assert [AcceptB][..0] == [] && [HangUp][..0] == [];
  }

  /**
   * A tick of an interface that is not at rest hangs up, or brings it nearer to rest and keeps the timer; every DIAL is
   * one less to come.
   */
  lemma TickProgress(lp: Lp, env: Env)
    requires LpOk(lp) && lp.dialstate != 0
    ensures var o := Tick(lp, env);
      && DialCount(o.cmds) <= Dials(lp) && Ticks(lp, env.timeout10) >= 1
      && (!o.done ==>
        LpOk(o.lp) && o.anymore && Dials(o.lp) + DialCount(o.cmds) <= Dials(lp) &&
        Ticks(o.lp, env.timeout10) < Ticks(lp, env.timeout10))
  {
    hide Leased, Times, Left, DialOne, DialCount;
    if lp.dialstate in {1, 2} {
      if lp.cfg.phones != [] {
        var p := (if lp.dialstate == 1 then Start(lp, env) else lp).(dialretry := 0, dialstate := 3);
        PreparedProgress(lp, p, env);
      } else {
        Counts("");
      }
    } else if lp.dialstate == 3 {
      DialOneProgress(lp, env, env.timeout10);
    } else {
      LaterProgress(lp, env);
    }
  }

  lemma PreparedProgress(lp: Lp, p: Lp, env: Env)
    requires LpOk(lp) && lp.dialstate in {1, 2} && lp.cfg.phones != [] && p.cfg == lp.cfg &&
      0 <= p.dial < |p.cfg.phones|
    requires p.dialretry == 0 && p.dialstate == 3
    ensures var o := DialOne(p, env);
      var cmds := [ClearEaz, SetEaz] + o.cmds;
      && DialCount(cmds) <= Dials(lp)
      && (!o.done ==>
        LpOk(o.lp) && o.anymore && Dials(o.lp) + DialCount(cmds) <= Dials(lp) &&
        Ticks(o.lp, env.timeout10) < Ticks(lp, env.timeout10))
  {
    hide Leased, Times, DialOne, DialCount;
    var o := DialOne(p, env);
    DialOneProgress(p, env, env.timeout10);
    CountConcat([ClearEaz, SetEaz], o.cmds);
    CountNone();
    assert Left(p) <= AllNumbers(lp.cfg);
    RestGrows(lp.cfg, env.timeout10, Left(p), AllNumbers(lp.cfg));
  }

  lemma {:induction false} RestGrows(cfg: Config, t10: nat, j: nat, k: nat)
    requires j <= k
    ensures Rest(cfg, t10, j) <= Rest(cfg, t10, k)
    decreases k
  {
    if j < k {
      RestGrows(cfg, t10, j, k - 1);
      if k > 1 {
        RestStep(cfg, t10, k - 1);
      }
    }
  }

  lemma CountNone()
    ensures DialCount([ClearEaz, SetEaz]) == 0
  {
    assert [ClearEaz, SetEaz][..1] == [ClearEaz] && [ClearEaz][..0] == [];
  }

  lemma {:induction false} CountConcat(a: seq<Cmd>, b: seq<Cmd>)
    ensures DialCount(a + b) == DialCount(a) + DialCount(b)
    decreases |b|
  {
    if b == [] {
      assert a + b == a;
    } else {
      assert (a + b)[..|a + b| - 1] == a + b[..|b| - 1];
      CountConcat(a, b[..|b| - 1]);
    }
  }

  /** The waiting states. */
  lemma LaterProgress(lp: Lp, env: Env)
    requires LpOk(lp) && lp.dialstate >= 4
    ensures var o := Later(lp, env);
      && DialCount(o.cmds) == 0 && Ticks(lp, env.timeout10) >= 1
      && (!o.done ==>
        LpOk(o.lp) && o.anymore && Dials(o.lp) <= Dials(lp) &&
        Ticks(o.lp, env.timeout10) < Ticks(lp, env.timeout10))
  {
    hide Leased, Times, Rest, AllNumbers, DialCount;
    var o := Later(lp, env);
    Counts("");
    if Outgoing(lp.dialstate) {
      LeftSame(lp, o.lp);
    }
    RestPositive(lp.cfg, env.timeout10);
    hide Left;
  }

  lemma RestPositive(cfg: Config, t10: nat)
    ensures forall k: nat :: Rest(cfg, t10, k) >= 1
  {
  }

  /** A status message brings no interface further from rest, and lets none dial more. */
  lemma StatusProgress(lp: Lp, e: Status, t10: nat)
    requires LpOk(lp)
    ensures var r := OnStatus(lp, e);
      LpOk(r) && Dials(r) <= Dials(lp) && Ticks(r, t10) <= Ticks(lp, t10) && (lp.dialstate == 0 ==> r.dialstate == 0)
  {
    hide Leased, Times, Rest, AllNumbers;
    var r := OnStatus(lp, e);
    if Outgoing(lp.dialstate) {
      LeftSame(lp, r);
    }
    hide Left;
  }

  // ----- all interfaces -----

  ghost predicate AllOk(ifs: seq<Lp>) { forall i :: 0 <= i < |ifs| ==> LpOk(ifs[i]) }

  function DialsBy(log: seq<Sent>, i: nat): nat {
    if log == [] then 0
    else
      var s := log[|log| - 1];
      DialsBy(log[..|log| - 1], i) + if s.who == i && s.cmd.DialNumber? then 1 else 0
  }

  lemma {:induction false} DialsByConcat(a: seq<Sent>, b: seq<Sent>, i: nat)
    ensures DialsBy(a + b, i) == DialsBy(a, i) + DialsBy(b, i)
    decreases |b|
  {
    if b == [] {
      assert a + b == a;
    } else {
      assert (a + b)[..|a + b| - 1] == a + b[..|b| - 1];
      DialsByConcat(a, b[..|b| - 1], i);
    }
  }

  lemma {:induction false} DialsByTagged(i: nat, cmds: seq<Cmd>, j: nat)
    ensures DialsBy(Tagged(i, cmds), j) == if j == i then DialCount(cmds) else 0
    decreases |cmds|
  {
    if cmds != [] {
      assert Tagged(i, cmds)[..|cmds| - 1] == Tagged(i, cmds[..|cmds| - 1]);
      DialsByTagged(i, cmds[..|cmds| - 1], j);
    }
  }

  /** Hanging up brings an interface and slaves of it to rest, and dials no number. */
  lemma {:induction false} HangupProgress(ifs: seq<Lp>, i: nat, t10: nat, j: nat)
    requires ListOk(ifs) && i < |ifs| && j < |ifs| && (j < i ==> LpOk(ifs[j]))
    ensures var r := Hangup(ifs, i);
      && DialsBy(r.1, j) == 0 && r.0[i] == ifs[i].(dialstate := 0, connected := false) && (j > i ==> r.0[j] == ifs[j])
      && (j < i ==> Progress(ifs[j], r.0[j], 0, false, t10) && (r.0[j] == ifs[j] || r.0[j].dialstate == 0))
    decreases i
  {
    hide LpOk, Progress, DialsBy;
    var lp := ifs[i];
    var s := (ifs, []);
    if lp.connected && lp.cfg.slave >= 0 && ifs[lp.cfg.slave].connected {
      var k := lp.cfg.slave;
      s := Hangup(ifs, k);
      HangupProgress(ifs, k, t10, j);
      HangupProgress(ifs, k, t10, i);
      if j == k {
        AtRest(ifs[j], t10);
      } else if k < j < i {
        NoProgress(ifs[j], t10);
      }
    } else if j < i {
      NoProgress(ifs[j], t10);
    }
    NoDials(i, j);
    DialsByConcat(s.1, if lp.connected then [Sent(i, HangUp)] else [], j);
  }

  lemma AtRest(lp: Lp, t10: nat)
    requires LpOk(lp)
    ensures Progress(lp, lp.(dialstate := 0, connected := false), 0, false, t10)
  {
    hide Times, Leased;
  }

  lemma NoProgress(lp: Lp, t10: nat)
    requires LpOk(lp)
    ensures Progress(lp, lp, 0, false, t10)
  {
  }

  lemma NoDials(i: nat, j: nat)
    ensures DialsBy([Sent(i, HangUp)], j) == 0 && DialsBy([], j) == 0
  {
    assert [Sent(i, HangUp)][..0] == [];
  }

  /**
   * So many DIALs were sent, and the interface is not further from rest, but nearer if it was not at rest and this was
   * its tick.
   */
  ghost predicate Progress(a: Lp, b: Lp, dialled: nat, ticked: bool, t10: nat) {
    LpOk(a) && LpOk(b) && Dials(b) + dialled <= Dials(a) && Ticks(b, t10) <= Ticks(a, t10) &&
    (a.dialstate == 0 ==> b.dialstate == 0) &&
    (ticked && a.dialstate != 0 ==> Ticks(b, t10) < Ticks(a, t10))
  }

  lemma ProgressTrans(a: Lp, b: Lp, c: Lp, m: nat, n: nat, x: bool, y: bool, t10: nat)
    requires Progress(a, b, m, x, t10) && Progress(b, c, n, y, t10)
    ensures Progress(a, c, m + n, x || (y && b.dialstate != 0), t10)
  {
  }

  /** A tick of one interface; if it hangs up, it is at rest then. */
  lemma TickOne(lp: Lp, env: Env)
    requires LpOk(lp)
    ensures var o := Tick(lp, env);
      var r := if o.done then o.lp.(dialstate := 0, connected := false) else o.lp;
      Progress(lp, r, DialCount(o.cmds), true, env.timeout10) && (r.dialstate != 0 ==> o.anymore)
  {
    var o := Tick(lp, env);
    KeepsConfig(lp, env);
    if lp.dialstate != 0 {
      TickProgress(lp, env);
      hide Tick, Leased, DialCount;
      var t := o.lp.(dialstate := 0, connected := false);
      assert LpOk(t) && Dials(t) == 0 && Ticks(t, env.timeout10) == 0;
    } else {
      Counts("");
    }
  }

  lemma TickAtProgress(ifs: seq<Lp>, env: Env, i: nat, j: nat)
    requires ListOk(ifs) && i < |ifs| && AllOk(ifs) && j < |ifs|
    ensures var r := TickAt(ifs, env, i);
      && Progress(ifs[j], r.0[j], DialsBy(r.1, j), i == j, env.timeout10)
      && (r.0[i].dialstate != 0 ==> r.2) && (i != j ==> r.0[j] == ifs[j] || r.0[j].dialstate == 0)
  {
    hide LpOk, Tick, DialsBy, Progress;
    var o := Tick(ifs[i], env);
    var ifs' := ifs[i := o.lp];
    KeepsConfig(ifs[i], env);
    DialsByTagged(i, o.cmds, j);
    TickOne(ifs[i], env);
    if j != i {
      NoProgress(ifs[j], env.timeout10);
    }
    if o.done {
      HangupProgress(ifs', i, env.timeout10, j);
      DialsByConcat(Tagged(i, o.cmds), Hangup(ifs', i).1, j);
    }
  }

  /** The first n interfaces: those have come nearer to rest, and the timer is kept if one of them is not at rest. */
  lemma {:induction false} TickFirstProgress(ifs: seq<Lp>, env: Env, n: nat, j: nat)
    requires ListOk(ifs) && n <= |ifs| && AllOk(ifs) && j < |ifs|
    ensures var r := TickFirst(ifs, env, n);
      Progress(ifs[j], r.0[j], DialsBy(r.1, j), j < n, env.timeout10) && (j < n && r.0[j].dialstate != 0 ==> r.2)
  {
    hide LpOk, TickAt, DialsBy, Progress;
    if n == 0 {
      NoDials(0, j);
      NoProgress(ifs[j], env.timeout10);
    } else {
      var r := TickFirst(ifs, env, n - 1);
      forall k | 0 <= k < |ifs|
        ensures LpOk(r.0[k])
      {
        TickFirstProgress(ifs, env, n - 1, k);
        ProgressOk(ifs[k], r.0[k], DialsBy(r.1, k), k < n - 1, env.timeout10);
      }
      TickFirstProgress(ifs, env, n - 1, j);
      TickAtProgress(r.0, env, n - 1, j);
      var t := TickAt(r.0, env, n - 1);
      DialsByConcat(r.1, t.1, j);
      ProgressTrans(ifs[j], r.0[j], t.0[j], DialsBy(r.1, j), DialsBy(t.1, j), j < n - 1, n - 1 == j, env.timeout10);
      if j == n - 1 && r.0[j].dialstate == 0 {
        ProgressOk(r.0[j], t.0[j], DialsBy(t.1, j), true, env.timeout10);
        RestIsLess(ifs[j], t.0[j], DialsBy(r.1 + t.1, j), env.timeout10);
      }
    }
  }

  lemma ProgressOk(a: Lp, b: Lp, dialled: nat, ticked: bool, t10: nat)
    requires Progress(a, b, dialled, ticked, t10)
    ensures LpOk(b) && (a.dialstate == 0 ==> b.dialstate == 0)
  {
  }

  lemma RestIsLess(a: Lp, b: Lp, dialled: nat, t10: nat)
    requires Progress(a, b, dialled, false, t10) && b.dialstate == 0
    ensures Progress(a, b, dialled, true, t10)
  {
  }

  // ----- runs: timer ticks and status messages in any order, and no new call -----

  /** The state of a dialler: the interfaces, whether the dial timer is requested, and the commands sent. */
  datatype Net = Net(ifs: seq<Lp>, timer: bool, log: seq<Sent>)

  datatype Event = TimerTick(env: Env) | Message(i: nat, status: Status)

  /** The dial timer runs only while it is requested. */
  ghost predicate Step(s: Net, e: Event, s': Net) {
    ListOk(s.ifs) &&
    match e
    case TimerTick(env) =>
      var r := TickFirst(s.ifs, env, |s.ifs|);
      s.timer && s' == Net(r.0, r.2, s.log + r.1)
    case Message(i, status) =>
      i < |s.ifs| && s' == s.(ifs := s.ifs[i := OnStatus(s.ifs[i], status)])
  }

  /** The timeout of ten seconds is a constant number of ticks; all else may differ from tick to tick. */
  ghost predicate Behaviour(states: seq<Net>, events: seq<Event>, t10: nat) {
    |states| == |events| + 1 && AllOk(states[0].ifs) && states[0].log == [] && Requested(states[0]) &&
    (forall t :: 0 <= t < |events| ==> Step(states[t], events[t], states[t + 1])) &&
    forall t :: 0 <= t < |events| && events[t].TimerTick? ==> events[t].env.timeout10 == t10
  }

  /** The dial timer is requested while an interface is not at rest. */
  ghost predicate Requested(s: Net) {
    (exists i :: 0 <= i < |s.ifs| && s.ifs[i].dialstate != 0) ==> s.timer
  }

  function TicksIn(events: seq<Event>): nat {
    if events == [] then 0 else TicksIn(events[..|events| - 1]) + if events[|events| - 1].TimerTick? then 1 else 0
  }

  /**
   * How far an interface has come after some events: what it dialled is gone from what it may dial, and every tick
   * counts.
   */
  ghost predicate After(a: Lp, b: Lp, dialled: nat, ticks: nat, t10: nat) {
    LpOk(a) && LpOk(b) && Dials(b) + dialled <= Dials(a) &&
    (b.dialstate != 0 ==> Ticks(b, t10) + ticks <= Ticks(a, t10))
  }

  lemma AfterProgress(a: Lp, b: Lp, c: Lp, dialled: nat, ticks: nat, more: nat, ticked: bool, t10: nat)
    requires After(a, b, dialled, ticks, t10) && Progress(b, c, more, ticked, t10)
    ensures After(a, c, dialled + more, ticks + if ticked then 1 else 0, t10)
  {
  }

  lemma StatusIsProgress(lp: Lp, e: Status, t10: nat)
    requires LpOk(lp)
    ensures Progress(lp, OnStatus(lp, e), 0, false, t10)
  {
    StatusProgress(lp, e, t10);
    hide OnStatus, LpOk;
  }

  lemma {:induction false} Always(states: seq<Net>, events: seq<Event>, t10: nat, t: nat, i: nat)
    requires Behaviour(states, events, t10) && t < |states| && i < |states[0].ifs|
    ensures |states[t].ifs| == |states[0].ifs|
    ensures After(states[0].ifs[i], states[t].ifs[i], DialsBy(states[t].log, i), TicksIn(events[..t]), t10)
    decreases t, 0
  {
    hide LpOk, After, DialsBy, Requested, Progress, OnStatus, TickFirst;
    SameLength(states, events, t10, t);
    if t == 0 {
      NoDials(0, i);
      AfterNothing(states[0].ifs[i], t10);
    } else {
      Always(states, events, t10, t - 1, i);
      AlwaysOk(states, events, t10, t - 1);
      var s, e, s' := states[t - 1], events[t - 1], states[t];
      assert Step(s, e, s');
      assert events[..t][..t - 1] == events[..t - 1];
      var a, b, c := states[0].ifs[i], s.ifs[i], s'.ifs[i];
      if e.TimerTick? {
        TickFirstProgress(s.ifs, e.env, |s.ifs|, i);
        var sent := TickFirst(s.ifs, e.env, |s.ifs|).1;
        DialsByConcat(s.log, sent, i);
        AfterProgress(a, b, c, DialsBy(s.log, i), TicksIn(events[..t - 1]), DialsBy(sent, i), true, t10);
      } else {
        if e.i == i {
          StatusIsProgress(b, e.status, t10);
        } else {
          NoProgress(b, t10);
        }
        AfterProgress(a, b, c, DialsBy(s.log, i), TicksIn(events[..t - 1]), 0, false, t10);
      }
    }
  }

  lemma AfterNothing(a: Lp, t10: nat)
    requires LpOk(a)
    ensures After(a, a, 0, 0, t10)
  {
  }

  lemma AfterOk(a: Lp, b: Lp, dialled: nat, ticks: nat, t10: nat)
    requires After(a, b, dialled, ticks, t10)
    ensures LpOk(b)
  {
  }

  lemma {:induction false} AlwaysOk(states: seq<Net>, events: seq<Event>, t10: nat, t: nat)
    requires Behaviour(states, events, t10) && t < |states|
    ensures |states[t].ifs| == |states[0].ifs| && AllOk(states[t].ifs)
    decreases t, 1
  {
    hide LpOk, After, Requested, Step;
    SameLength(states, events, t10, t);
    forall i | 0 <= i < |states[t].ifs|
      ensures LpOk(states[t].ifs[i])
    {
      Always(states, events, t10, t, i);
      AfterOk(states[0].ifs[i], states[t].ifs[i], DialsBy(states[t].log, i), TicksIn(events[..t]), t10);
    }
  }

  lemma {:induction false} SameLength(states: seq<Net>, events: seq<Event>, t10: nat, t: nat)
    requires Behaviour(states, events, t10) && t < |states|
    ensures |states[t].ifs| == |states[0].ifs|
    decreases t
  {
    hide AllOk, Requested, TickFirst, OnStatus;
    if t > 0 {
      SameLength(states, events, t10, t - 1);
      assert Step(states[t - 1], events[t - 1], states[t]);
    }
  }

  // ----- what this means -----

  /**
   * An interface is at rest once the timer has ticked as often as its start allows, whatever messages came in between.
   */
  lemma DiallingEnds(states: seq<Net>, events: seq<Event>, t10: nat, t: nat, i: nat)
    requires Behaviour(states, events, t10) && t < |states| && i < |states[0].ifs| && LpOk(states[0].ifs[i])
    requires TicksIn(events[..t]) >= Ticks(states[0].ifs[i], t10)
    ensures |states[t].ifs| == |states[0].ifs| && states[t].ifs[i].dialstate == 0
  {
    hide AllOk, DialsBy, Requested, Step, Dials;
    Always(states, events, t10, t, i);
    TicksPositive(states[t].ifs[i], t10);
    hide LpOk, Ticks;
  }

  lemma TicksPositive(lp: Lp, t10: nat)
    ensures LpOk(lp) && lp.dialstate != 0 ==> Ticks(lp, t10) > 0
  {
    if LpOk(lp) && lp.dialstate != 0 {
      RestPositive(lp.cfg, t10);
    }
  }

  /** A call request for n numbers is dialled at most n times dialmax + 1 times, less one. */
  lemma DialsAreBounded(states: seq<Net>, events: seq<Event>, t10: nat, t: nat, i: nat)
    requires Behaviour(states, events, t10) && t < |states| && i < |states[0].ifs| && states[0].ifs[i].dialstate == 1
    ensures var cfg := states[0].ifs[i].cfg;
      DialsBy(states[t].log, i) <= if cfg.phones == [] then 0 else |cfg.phones| * (cfg.dialmax + 1) - 1
  {
    Always(states, events, t10, t, i);
    var cfg := states[0].ifs[i].cfg;
    TimesIs(cfg.dialmax, |cfg.phones|);
    hide Behaviour, DialsBy, Ticks;
  }

  /** The dial timer is requested as long as an interface is not at rest, so the ticks do come. */
  lemma {:induction false} TimerStays(states: seq<Net>, events: seq<Event>, t10: nat, t: nat)
    requires Behaviour(states, events, t10) && t < |states|
    ensures Requested(states[t])
    decreases t
  {
    if t > 0 {
      TimerStays(states, events, t10, t - 1);
      AlwaysOk(states, events, t10, t - 1);
      var s, e, s' := states[t - 1], events[t - 1], states[t];
      assert Step(s, e, s');
      hide LpOk, TickFirst, OnStatus, Behaviour;
      if e.TimerTick? {
        forall i | 0 <= i < |s'.ifs| && s'.ifs[i].dialstate != 0
          ensures s'.timer
        {
          TickFirstProgress(s.ifs, e.env, |s.ifs|, i);
        }
      } else {
        StatusProgress(s.ifs[e.i], e.status, t10);
        assert forall i :: 0 <= i < |s'.ifs| && i != e.i ==> s'.ifs[i] == s.ifs[i];
      }
    }
  }
}

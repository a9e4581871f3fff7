/** How often an interface dials when nobody answers and nothing else interferes. */
module DialCounts {
  import opened Dial
  import opened DialRuns

  /** The states of an interface that gets no answer. */
  predicate Unanswered(state: nat) { state in {0, 1, 3, 4, 12} }

  /** Nothing stops the interface but its own count of retries: it may dial, and has no limit of time. */
  predicate Unlimited(cfg: Config) { cfg.phones != [] && !cfg.dialOff && cfg.dialtimeout == 0 }

  /** An interface that gets no answer has as many numbers less to dial as it has dialled. */
  ghost predicate Exact(a: Lp, b: Lp, dialled: nat) {
    LpOk(a) && LpOk(b) && b.cfg == a.cfg && Unlimited(a.cfg) && Unanswered(b.dialstate) &&
    Dials(b) + dialled == Dials(a)
  }

  /** The interface is not the slave of another one, which would hang it up with itself. */
  predicate NoMaster(ifs: seq<Lp>, i: nat) {
    i < |ifs| && forall k :: 0 <= k < |ifs| ==> ifs[k].cfg.slave != i
  }

  predicate SameConfigs(a: seq<Lp>, b: seq<Lp>) {
    |a| == |b| && forall k :: 0 <= k < |a| ==> b[k].cfg == a[k].cfg
  }

  /** Nobody answers and nobody stops the dialling. */
  predicate Calm(e: Event, i: nat) {
    match e
    case TimerTick(env) => !env.stopped
    case Message(k, _) => k != i
  }

  // ----- one interface -----

  /** An interface after its tick; if it hangs up, it is at rest. */
  function Ticked(lp: Lp, env: Env): Lp {
    var o := Tick(lp, env);
    if o.done then o.lp.(dialstate := 0, connected := false) else o.lp
  }

  lemma DialOneExact(lp: Lp, env: Env)
    requires LpOk(lp) && lp.dialstate == 3 && Unlimited(lp.cfg) && !env.stopped
    ensures var o := DialOne(lp, env);
      if o.done then Left(lp) == 1 && DialCount(o.cmds) == 0
      else Exact(lp, o.lp, DialCount(o.cmds)) && DialCount(o.cmds) == 1
  {
    hide Leased, Left;
    var o := DialOne(lp, env);
    Counts(lp.cfg.phones[lp.dial]);
    AdvanceLeft(lp);
    if !o.done {
      LeftSame(Advance(lp), o.lp);
    }
  }

  lemma TickExact(lp: Lp, env: Env)
    requires LpOk(lp) && Unlimited(lp.cfg) && Unanswered(lp.dialstate) && !env.stopped
    ensures Exact(lp, Ticked(lp, env), DialCount(Tick(lp, env).cmds))
  {
    hide Leased, DialOne, DialCount, Left;
    var o := Tick(lp, env);
    KeepsConfig(lp, env);
    Counts("");
    if lp.dialstate == 1 {
      var p := Start(lp, env).(dialretry := 0, dialstate := 3);
      assert Left(p) == AllNumbers(lp.cfg) by {
        FirstOfAll(p);
      }
      DialOneExact(p, env);
      CountConcat([ClearEaz, SetEaz], DialOne(p, env).cmds);
      CountNone();
    } else if lp.dialstate == 3 {
      DialOneExact(lp, env);
    } else if lp.dialstate != 0 {
      LeftSame(lp, o.lp);
    }
  }

  lemma FirstOfAll(lp: Lp)
    requires lp.dial == 0 && lp.dialretry == 0 && lp.cfg.phones != []
    ensures Left(lp) == AllNumbers(lp.cfg)
  {
  }

  lemma ExactTrans(a: Lp, b: Lp, c: Lp, m: nat, n: nat)
    requires Exact(a, b, m) && Exact(b, c, n)
    ensures Exact(a, c, m + n)
  {
  }

  // ----- all interfaces -----

  lemma {:induction false} HangupConfigs(ifs: seq<Lp>, i: nat)
    requires ListOk(ifs) && i < |ifs|
    ensures SameConfigs(ifs, Hangup(ifs, i).0)
    decreases i
  {
    var lp := ifs[i];
    if lp.connected && lp.cfg.slave >= 0 && ifs[lp.cfg.slave].connected {
      HangupConfigs(ifs, lp.cfg.slave);
    }
  }

  lemma {:induction false} HangupSpares(ifs: seq<Lp>, k: nat, i: nat)
    requires ListOk(ifs) && k < |ifs| && NoMaster(ifs, i) && i != k
    ensures Hangup(ifs, k).0[i] == ifs[i]
    decreases k
  {
    var lp := ifs[k];
    if lp.connected && lp.cfg.slave >= 0 && ifs[lp.cfg.slave].connected {
      HangupSpares(ifs, lp.cfg.slave, i);
    }
  }

  lemma TickAtConfigs(ifs: seq<Lp>, env: Env, k: nat)
    requires ListOk(ifs) && k < |ifs|
    ensures SameConfigs(ifs, TickAt(ifs, env, k).0)
  {
    hide Tick, Hangup;
    KeepsConfig(ifs[k], env);
    var ifs' := ifs[k := Tick(ifs[k], env).lp];
    HangupConfigs(ifs', k);
  }

  /** The tick of one interface does what Ticked says to it, and nothing to one that is not a slave. */
  lemma TickAtExact(ifs: seq<Lp>, env: Env, k: nat, i: nat)
    requires ListOk(ifs) && k < |ifs| && AllOk(ifs) && NoMaster(ifs, i)
    ensures var r := TickAt(ifs, env, k);
      && r.0[i] == (if k == i then Ticked(ifs[i], env) else ifs[i])
      && DialsBy(r.1, i) == if k == i then DialCount(Tick(ifs[i], env).cmds) else 0
  {
    hide LpOk, Tick, DialsBy, Progress, Hangup;
    var o := Tick(ifs[k], env);
    var ifs' := ifs[k := o.lp];
    KeepsConfig(ifs[k], env);
    DialsByTagged(k, o.cmds, i);
    if o.done {
      HangupProgress(ifs', k, 0, i);
      DialsByConcat(Tagged(k, o.cmds), Hangup(ifs', k).1, i);
      if k != i {
        HangupSpares(ifs', k, i);
      }
    }
  }

  lemma {:induction false} TickFirstExact(ifs: seq<Lp>, env: Env, n: nat, i: nat)
    requires ListOk(ifs) && n <= |ifs| && AllOk(ifs) && NoMaster(ifs, i)
    ensures var r := TickFirst(ifs, env, n);
      && SameConfigs(ifs, r.0)
      && r.0[i] == (if i < n then Ticked(ifs[i], env) else ifs[i])
      && DialsBy(r.1, i) == if i < n then DialCount(Tick(ifs[i], env).cmds) else 0
  {
    hide LpOk, TickAt, DialsBy, Progress, Ticked;
    if n == 0 {
      NoDials(0, i);
    } else {
      var r := TickFirst(ifs, env, n - 1);
      TickFirstExact(ifs, env, n - 1, i);
      forall k | 0 <= k < |ifs|
        ensures LpOk(r.0[k])
      {
        TickFirstProgress(ifs, env, n - 1, k);
        ProgressOk(ifs[k], r.0[k], DialsBy(r.1, k), k < n - 1, env.timeout10);
      }
      TickAtExact(r.0, env, n - 1, i);
      TickAtConfigs(r.0, env, n - 1);
      DialsByConcat(r.1, TickAt(r.0, env, n - 1).1, i);
    }
  }

  // ----- runs -----

  lemma {:induction false} AlwaysExact(states: seq<Net>, events: seq<Event>, t10: nat, t: nat, i: nat)
    requires Behaviour(states, events, t10) && t < |states| && NoMaster(states[0].ifs, i)
    requires Unlimited(states[0].ifs[i].cfg) && Unanswered(states[0].ifs[i].dialstate)
    requires forall k :: 0 <= k < |events| ==> Calm(events[k], i)
    ensures SameConfigs(states[0].ifs, states[t].ifs)
    ensures Exact(states[0].ifs[i], states[t].ifs[i], DialsBy(states[t].log, i))
    decreases t
  {
    hide LpOk, Dials, DialsBy, Requested, TickFirst, OnStatus, Ticked, Unlimited, Tick, DialCount;
    if t == 0 {
      NoDials(0, i);
      assert Exact(states[0].ifs[i], states[0].ifs[i], 0);
    } else {
      AlwaysExact(states, events, t10, t - 1, i);
      AlwaysOk(states, events, t10, t - 1);
      var s, e, s' := states[t - 1], events[t - 1], states[t];
      assert Step(s, e, s') && Calm(e, i);
      if e.TimerTick? {
        TickFirstExact(s.ifs, e.env, |s.ifs|, i);
        TickExact(s.ifs[i], e.env);
        var sent := TickFirst(s.ifs, e.env, |s.ifs|).1;
        DialsByConcat(s.log, sent, i);
        ExactTrans(states[0].ifs[i], s.ifs[i], s'.ifs[i], DialsBy(s.log, i), DialsBy(sent, i));
      } else {
        StatusKeepsConfig(s.ifs[e.i], e.status);
      }
    }
  }

  lemma StatusKeepsConfig(lp: Lp, e: Status)
    ensures OnStatus(lp, e).cfg == lp.cfg
  {
  }

  /**
   * A call request that nobody answers dials every number dialmax + 1 times, but for the last number of the last round:
   * no more, and no less.
   */
  lemma DialsExactly(states: seq<Net>, events: seq<Event>, t10: nat, t: nat, i: nat)
    requires Behaviour(states, events, t10) && t < |states| && NoMaster(states[0].ifs, i)
    requires Unlimited(states[0].ifs[i].cfg) && states[0].ifs[i].dialstate == 1 && LpOk(states[0].ifs[i])
    requires forall k :: 0 <= k < |events| ==> Calm(events[k], i)
    requires TicksIn(events[..t]) >= Ticks(states[0].ifs[i], t10)
    ensures var cfg := states[0].ifs[i].cfg; DialsBy(states[t].log, i) == |cfg.phones| * (cfg.dialmax + 1) - 1
  {
    hide Behaviour, DialsBy, Ticks, TicksIn, Calm;
    AlwaysExact(states, events, t10, t, i);
    DiallingEnds(states, events, t10, t, i);
    var cfg := states[0].ifs[i].cfg;
    TimesIs(cfg.dialmax, |cfg.phones|);
  }
}

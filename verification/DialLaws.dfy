/**
 * What single ticks, messages and hangups of the dialler do, told from outside: when it dials, how long it waits, who
 * hangs up.
 */
module DialLaws {
  import opened Dial
  import opened DialNumbers

  // ----- when a number is dialled -----

  /**
   * In state 3 the current number is dialled if and only if dialling is allowed, the number is not a leased line, its
   * time is not over, and it is not the last number of the last round.
   */
  lemma DialsIff(lp: Lp, env: Env)
    requires lp.dialstate == 3 && 0 <= lp.dial < |lp.cfg.phones|
    ensures var o, phone := Tick(lp, env), lp.cfg.phones[lp.dial];
      NumbersOf(o.cmds) ==
        (if !env.stopped && !lp.cfg.dialOff && !("LEASED" <= phone) &&
            (lp.cfg.dialtimeout <= 0 || env.now <= lp.dialstarted + lp.cfg.dialtimeout) &&
            (lp.dial + 1 < |lp.cfg.phones| || lp.dialretry + 1 <= lp.cfg.dialmax)
         then [phone] else [])
  {
    hide NumbersOf;
    SomeNumbers(lp.cfg.phones[lp.dial]);
  }

  /**
   * When the time for dialling is over, the interface hangs up, and will not dial again until its time of waiting is
   * over.
   */
  lemma TimeIsOver(lp: Lp, env: Env)
    requires lp.dialstate == 3 && 0 <= lp.dial < |lp.cfg.phones| && !env.stopped && !lp.cfg.dialOff
    requires !("LEASED" <= lp.cfg.phones[lp.dial]) && 0 < lp.cfg.dialtimeout &&
      lp.dialstarted + lp.cfg.dialtimeout < env.now
    ensures var o := Tick(lp, env); o.done && o.lp.dialwaitTimer == env.now + lp.cfg.dialwait && o.lp.dialstarted == 0
  {
  }

  /** When all numbers have been tried as often as allowed, it hangs up as well, and waits if no time was set. */
  lemma TriesAreOver(lp: Lp, env: Env)
    requires lp.dialstate == 3 && 0 <= lp.dial == |lp.cfg.phones| - 1 && lp.cfg.dialmax <= lp.dialretry
    requires !env.stopped && !lp.cfg.dialOff && !("LEASED" <= lp.cfg.phones[lp.dial]) && lp.cfg.dialtimeout == 0
    ensures var o := Tick(lp, env); o.done && o.lp.dialwaitTimer == env.now + lp.cfg.dialwait && o.lp.dialstarted == 0
  {
  }

  /** After dialling an interface waits for an answer, or for the callback if it has asked for one. */
  lemma AfterDialling(lp: Lp, env: Env)
    requires lp.dialstate == 3 && NumbersOf(Tick(lp, env).cmds) != []
    ensures var next := Tick(lp, env).lp;
      next.dtimer == 0 && next.dialstate == if lp.cfg.cbout && lp.cfg.cbdelay != 0 then 12 else 4
  {
    hide NumbersOf;
    SomeNumbers("");
  }

  /** The time for dialling begins with the call request, unless an earlier one is still within its times. */
  lemma TimeBegins(lp: Lp, env: Env)
    requires lp.dialstate == 1 && lp.cfg.phones != [] && 0 < lp.cfg.dialtimeout && 0 <= lp.cfg.dialwait
    requires !env.stopped && !lp.cfg.dialOff && 0 < |lp.cfg.phones[0]| && lp.cfg.phones[0][0] != 'L' &&
      (1 < |lp.cfg.phones| || 0 < lp.cfg.dialmax)
    ensures var next := Tick(lp, env).lp;
      (lp.dialstarted == 0 ==> next.dialwaitTimer == 0) &&
      next.dialstarted == if lp.dialstarted == 0 ||
        lp.dialstarted + lp.cfg.dialtimeout + lp.cfg.dialwait < env.now then env.now
                 else if lp.dialstarted + lp.cfg.dialtimeout < env.now then 0 else lp.dialstarted
  {
  }

  // ----- how long it waits -----

  /** An interface after some ticks, one after the other. */
  function Ticking(lp: Lp, envs: seq<Env>): Lp {
    if envs == [] then lp else Tick(Ticking(lp, envs[..|envs| - 1]), envs[|envs| - 1]).lp
  }

  /** How many ticks of its own an interface waits in a state, and where it goes then; the answer does not come. */
  function Patience(lp: Lp, t10: nat): nat {
    if lp.dialstate in {11, 12} && lp.cfg.cbdelay >= 0 then lp.cfg.cbdelay else t10
  }

  function AtLast(lp: Lp): Lp {
    if lp.dialstate in {4, 6} then lp.(dialstate := 3)
    else if lp.dialstate == 11 then lp.(dialstate := 1)
    else lp.(dialstate := 4, dtimer := 0)
  }

  /**
   * Waiting for an answer, for the B channel, or for a callback takes exactly two ticks more than the limit says; then
   * the next number is tried, the call is begun, or the line is hung up to wait for the callback.
   */
  lemma {:induction false} WaitsExactly(lp: Lp, envs: seq<Env>, t10: nat)
    requires lp.dialstate in {4, 6, 11, 12} && lp.dtimer == 0 && (lp.dialstate in {11, 12} ==> lp.cfg.cbdelay >= 0)
    requires (forall e :: e in envs ==> e.timeout10 == t10) && |envs| <= Patience(lp, t10) + 2
    ensures Ticking(lp, envs) ==
      if |envs| < Patience(lp, t10) + 2 then lp.(dtimer := |envs|) else AtLast(lp.(dtimer := |envs|))
    decreases |envs|
  {
    if envs != [] {
      var n := |envs| - 1;
      WaitsExactly(lp, envs[..n], t10);
      assert envs[n] in envs;
      OneWait(Ticking(lp, envs[..n]), envs[n]);
      hide Tick;
    }
  }

  lemma OneWait(lp: Lp, env: Env)
    ensures lp.dialstate in {4, 6, 11, 12} && (lp.dialstate in {11, 12} ==> lp.cfg.cbdelay >= 0) ==>
      Tick(lp, env).lp == (var later := lp.(dtimer := lp.dtimer + 1);
        if lp.dtimer > Patience(lp, env.timeout10) then AtLast(later) else later)
  {
  }

  /** A callback that was asked for: the line is hung up after that time, and not before. */
  lemma {:induction false} CallbackHangsUp(lp: Lp, envs: seq<Env>, t10: nat)
    requires lp.dialstate == 12 && lp.dtimer == 0 && forall e :: e in envs ==> e.timeout10 == t10
    requires lp.cfg.cbdelay >= 0 && 0 < |envs| <= lp.cfg.cbdelay + 2
    ensures var n := |envs| - 1;
      Tick(Ticking(lp, envs[..n]), envs[n]).cmds == if |envs| == lp.cfg.cbdelay + 2 then [HangUp] else []
  {
    var n := |envs| - 1;
    WaitsExactly(lp, envs[..n], t10);
    CallbackTick(Ticking(lp, envs[..n]), envs[n]);
    hide Tick;
  }

  lemma CallbackTick(lp: Lp, env: Env)
    ensures lp.dialstate == 12 ==> Tick(lp, env).cmds == if lp.dtimer > lp.cfg.cbdelay then [HangUp] else []
  {
  }

  /** An incoming call that does not come about is hung up after just as long. */
  lemma {:induction false} IncomingWaits(lp: Lp, envs: seq<Env>, t10: nat)
    requires lp.dialstate in {8, 10} && lp.dtimer == 0
    requires (forall e :: e in envs ==> e.timeout10 == t10) && 0 < |envs| <= t10 + 2
    ensures var n := |envs| - 1;
      Tick(Ticking(lp, envs[..n]), envs[n]).done <==> |envs| == t10 + 2
    ensures Ticking(lp, envs) == lp.(dtimer := |envs|)
    decreases |envs|
  {
    var n := |envs| - 1;
    assert envs[n] in envs;
    IncomingTick(Ticking(lp, envs[..n]), envs[n]);
    hide Tick;
    if n > 0 {
      IncomingWaits(lp, envs[..n], t10);
    }
  }

  lemma IncomingTick(lp: Lp, env: Env)
    ensures lp.dialstate in {8, 10} ==>
      Tick(lp, env).lp == lp.(dtimer := lp.dtimer + 1) && (Tick(lp, env).done <==> lp.dtimer > env.timeout10)
  {
  }

  // ----- calls that come about -----

  /** A call that is answered: one tick to ask for the B channel, and the interface is at rest, connected. */
  lemma AnsweredCall(lp: Lp, env: Env)
    requires lp.dialstate in {4, 12}
    ensures var o := Tick(OnStatus(lp, DConn), env);
      var end := OnStatus(o.lp, BConn);
      o.cmds == [AcceptB] && !o.done && end == lp.(dialstate := 0, dtimer := 0, dialstarted := 0, dialwaitTimer := 0)
  {
  }

  /** A call that comes in: one tick to set up the line, one to ask for the B channel. */
  lemma IncomingCall(lp: Lp, first: Env, second: Env)
    requires lp.dialstate == 7 && lp.dtimer <= first.timeout15
    ensures var o := Tick(lp, first);
      var p := Tick(OnStatus(o.lp, DConn), second);
      var end := OnStatus(p.lp, BConn);
      o.cmds == [SetL2, SetL3] && p.cmds == [AcceptB] && !o.done && !p.done &&
      end == lp.(dialstate := 0, dtimer := 0, dialstarted := 0, dialwaitTimer := 0)
  {
  }

  /** Which messages bring an interface on, from which states to which; all others leave it as it is. */
  lemma MessagesMove(lp: Lp)
    requires lp.dialstate <= 12
    ensures var next: seq<nat> := [0, 1, 2, 3, 5, 5, 6, 8, 9, 9, 10, 11, 5];
      OnStatus(lp, DConn) == lp.(dialstate := next[lp.dialstate])
    ensures OnStatus(lp, BConn) == if lp.dialstate in {5, 6, 7, 8, 9, 10, 12}
      then lp.(dialstate := 0, dialstarted := 0, dialwaitTimer := 0) else lp
    ensures OnStatus(lp, NoDChannel) == lp.(dialstate := if lp.dialstate == 4 then 3 else lp.dialstate)
    ensures OnStatus(lp, DHup) == lp.(connected := lp.connected && lp.dialstate != 0)
  {
  }

  // ----- hanging up -----

  /** An interface and the connected slaves that it hangs up first. */
  function Chain(ifs: seq<Lp>, i: nat): (c: seq<nat>)
    requires ListOk(ifs) && i < |ifs|
    ensures forall k :: 0 <= k < |c| ==> c[k] < |ifs|
    decreases i
  {
    var slave := ifs[i].cfg.slave;
    if ifs[i].connected && slave >= 0 && ifs[slave].connected then Chain(ifs, slave) + [i] else [i]
  }

  /** The hangups of the connected ones, in that order. */
  function HangUps(ifs: seq<Lp>, c: seq<nat>): seq<Sent>
    requires forall k :: 0 <= k < |c| ==> c[k] < |ifs|
  {
    if c == [] then []
    else
      var k := c[|c| - 1];
      HangUps(ifs, c[..|c| - 1]) + if ifs[k].connected then [Sent(k, HangUp)] else []
  }

  /** All of these are at rest and not connected any more, all others as before. */
  predicate HungUp(ifs: seq<Lp>, ifs': seq<Lp>, c: seq<nat>) {
    |ifs'| == |ifs| &&
    forall k :: 0 <= k < |ifs| ==> ifs'[k] == if k in c then ifs[k].(dialstate := 0, connected := false) else ifs[k]
  }

  lemma {:induction false} ChainBelow(ifs: seq<Lp>, i: nat)
    requires ListOk(ifs) && i < |ifs|
    ensures i in Chain(ifs, i) && forall k :: k in Chain(ifs, i) ==> k <= i
    decreases i
  {
    var slave := ifs[i].cfg.slave;
    if ifs[i].connected && slave >= 0 && ifs[slave].connected {
      ChainBelow(ifs, slave);
    }
  }

  /** Hanging up takes the connected slaves along, each before its master, and touches no other interface. */
  lemma {:induction false} HangupTakesSlaves(ifs: seq<Lp>, i: nat)
    requires ListOk(ifs) && i < |ifs|
    ensures HungUp(ifs, Hangup(ifs, i).0, Chain(ifs, i)) && Hangup(ifs, i).1 == HangUps(ifs, Chain(ifs, i))
    decreases i
  {
    var slave := ifs[i].cfg.slave;
    var c := Chain(ifs, i);
    if ifs[i].connected && slave >= 0 && ifs[slave].connected {
      HangupTakesSlaves(ifs, slave);
      ChainBelow(ifs, slave);
      assert c[..|c| - 1] == Chain(ifs, slave);
    } else {
      assert c[..0] == [];
    }
  }
}

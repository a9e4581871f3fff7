/** The dialling state machine of the net interfaces (drivers/isdn/isdn_net.c). */
module Dial {

  /** How an interface is set up. slave is the place of the next interface of the bundle, or minus one. */
  datatype Config = Config(phones: seq<string>, dialmax: nat, dialtimeout: int, dialwait: int, cbdelay: int,
                           cbout: bool, dialOff: bool, slave: int)

  /** What the dialler keeps of an interface; dial is the place of the next number to be dialled, or minus one. */
  datatype Lp = Lp(cfg: Config, dialstate: nat, dtimer: nat, dialretry: nat, dial: int, dialstarted: int,
                   dialwaitTimer: int, connected: bool)

  /** Commands to the card. */
  datatype Cmd = ClearEaz | SetEaz | SetL2 | SetL3 | DialNumber(phone: string) | AcceptB | HangUp

  /** What the timer and the administrator decide: the time, the stop flag, and two timeouts in ticks. */
  datatype Env = Env(now: int, stopped: bool, timeout10: nat, timeout15: nat)

  predicate Leased(phone: string) { "LEASED" <= phone }

  // ----- one interface -----

  /** What one tick makes of an interface; done means that isdn_net_hangup was called for it. */
  datatype Outcome = Outcome(lp: Lp, cmds: seq<Cmd>, anymore: bool, done: bool)

  /** State 1: the first number, and the start of the dial timeout. */
  function Start(lp: Lp, env: Env): Lp {
    var lp' := lp.(dial := 0);
    if lp.cfg.dialtimeout > 0 &&
      (lp.dialstarted == 0 || env.now > lp.dialstarted + lp.cfg.dialtimeout + lp.cfg.dialwait)
    then lp'.(dialstarted := env.now, dialwaitTimer := 0)
    else lp'
  }

  predicate TimedOut(lp: Lp, env: Env) { lp.cfg.dialtimeout > 0 && env.now > lp.dialstarted + lp.cfg.dialtimeout }

  /** The next number, or the first one again and one retry more. */
  function Advance(lp: Lp): Lp {
    if lp.dial + 1 < |lp.cfg.phones| then lp.(dial := lp.dial + 1) else lp.(dial := 0, dialretry := lp.dialretry + 1)
  }

  function Waiting(lp: Lp): nat { if lp.cfg.cbdelay != 0 && lp.cfg.cbout then 12 else 4 }

  /** State 3: dial the current number. */
  function DialOne(lp: Lp, env: Env): (o: Outcome) {
    var setup := [SetL2, SetL3];
    if env.stopped || lp.cfg.dialOff then Outcome(lp, [], false, true)
    else if !(0 <= lp.dial < |lp.cfg.phones|) then Outcome(lp, setup, false, true)
    else if Leased(lp.cfg.phones[lp.dial]) then Outcome(lp.(dialstate := Waiting(lp)), setup, true, false)
    else if TimedOut(lp, env) then Outcome(lp.(dialwaitTimer := env.now + lp.cfg.dialwait, dialstarted := 0), setup,
      false, true)
    else
      var next := Advance(lp);
      if lp.dial + 1 == |lp.cfg.phones| && next.dialretry > next.cfg.dialmax then
        Outcome(if lp.cfg.dialtimeout == 0 then next.(dialwaitTimer := env.now + lp.cfg.dialwait, dialstarted := 0)
          else next, setup, false, true)
      else Outcome(next.(dtimer := 0, dialstate := Waiting(lp)), setup + [DialNumber(lp.cfg.phones[lp.dial])], true,
        false)
  }

  function Tick(lp: Lp, env: Env): (o: Outcome) {
    if lp.dialstate == 0 then Outcome(lp, [], false, false)
    else if lp.dialstate == 1 then
      if lp.cfg.phones == [] then Outcome(lp.(dial := -1), [], false, true) else Prepare(Start(lp, env), env)
    else if lp.dialstate == 2 then Prepare(lp, env)
    else if lp.dialstate == 3 then DialOne(lp, env)
    else Later(lp, env)
  }

  /** The states that wait, for an answer or for a while. */
  function Later(lp: Lp, env: Env): (o: Outcome) {
    var later := lp.(dtimer := lp.dtimer + 1);
    match lp.dialstate
    case 4 => Outcome(if lp.dtimer > env.timeout10 then later.(dialstate := 3) else later, [], true, false)
    case 5 => Outcome(lp.(dtimer := 0, dialstate := 6), [AcceptB], true, false)
    case 6 => Outcome(if lp.dtimer > env.timeout10 then later.(dialstate := 3) else later, [], true, false)
    case 7 =>
      if lp.dtimer > env.timeout15 then Outcome(later, [SetL2, SetL3], false, true)
      else Outcome(later.(dialstate := 8), [SetL2, SetL3], true, false)
    case 9 => Outcome(lp.(dtimer := 0, dialstate := 10), [AcceptB], true, false)
    case 8 => Outcome(later, [], lp.dtimer <= env.timeout10, lp.dtimer > env.timeout10)
    case 10 => Outcome(later, [], lp.dtimer <= env.timeout10, lp.dtimer > env.timeout10)
    case 11 => Outcome(if lp.dtimer > lp.cfg.cbdelay then later.(dialstate := 1) else later, [], true, false)
    case 12 =>
      if lp.dtimer > lp.cfg.cbdelay then Outcome(lp.(dtimer := 0, dialstate := 4), [HangUp], true, false)
      else Outcome(later, [], true, false)
    case _ => Outcome(lp, [], false, false)
  }

  /** State 2: the numbers are to be tried dialmax times more; then state 3 follows at once. */
  function Prepare(lp: Lp, env: Env): (o: Outcome) {
    var o := DialOne(lp.(dialretry := 0, dialstate := 3), env);
    Outcome(o.lp, [ClearEaz, SetEaz] + o.cmds, true, o.done)
  }

  // ----- all interfaces -----

  /** A slave comes before its master in the list, for it was made later. */
  predicate ListOk(ifs: seq<Lp>) { forall i :: 0 <= i < |ifs| ==> -1 <= ifs[i].cfg.slave < i }

  /** A command, and the interface it is for. */
  datatype Sent = Sent(who: nat, cmd: Cmd)

  function Tagged(i: nat, cmds: seq<Cmd>): (t: seq<Sent>)
    ensures |t| == |cmds| && forall k :: 0 <= k < |t| ==> t[k] == Sent(i, cmds[k])
  {
    seq(|cmds|, k requires 0 <= k < |cmds| => Sent(i, cmds[k]))
  }

  /** isdn_net_hangup: a connected interface hangs up its connected slave first; the channel is released in any case. */
  function Hangup(ifs: seq<Lp>, i: nat): (r: (seq<Lp>, seq<Sent>))
    requires ListOk(ifs) && i < |ifs|
    ensures |r.0| == |ifs| && ListOk(r.0)
    decreases i
  {
    var lp := ifs[i];
    var s := if lp.connected && lp.cfg.slave >= 0 &&
      ifs[lp.cfg.slave].connected then Hangup(ifs, lp.cfg.slave) else (ifs, []);
    (s.0[i := s.0[i].(dialstate := 0, connected := false)], s.1 + if lp.connected then [Sent(i, HangUp)] else [])
  }

  /** One tick of the interface at place i: the interfaces, the commands, and whether the timer is still needed. */
  function TickAt(ifs: seq<Lp>, env: Env, i: nat): (r: (seq<Lp>, seq<Sent>, bool))
    requires ListOk(ifs) && i < |ifs|
    ensures |r.0| == |ifs| && ListOk(r.0)
  {
    var o := Tick(ifs[i], env);
    KeepsConfig(ifs[i], env);
    var ifs' := ifs[i := o.lp];
    if o.done then
      var h := Hangup(ifs', i);
      (h.0, Tagged(i, o.cmds) + h.1, o.anymore)
    else (ifs', Tagged(i, o.cmds), o.anymore)
  }

  lemma KeepsConfig(lp: Lp, env: Env)
    ensures Tick(lp, env).lp.cfg == lp.cfg
  {
    hide Leased;
  }

  /** The first n interfaces, one after the other. */
  function TickFirst(ifs: seq<Lp>, env: Env, n: nat): (r: (seq<Lp>, seq<Sent>, bool))
    requires ListOk(ifs) && n <= |ifs|
    ensures |r.0| == |ifs| && ListOk(r.0)
  {
    if n == 0 then (ifs, [], false)
    else
      var r := TickFirst(ifs, env, n - 1);
      var t := TickAt(r.0, env, n - 1);
      (t.0, r.1 + t.1, r.2 || t.2)
  }

  // ----- status messages -----

  datatype Status = DConn | DHup | BConn | NoDChannel | Other

  function OnStatus(lp: Lp, e: Status): Lp {
    match e
    case DConn => if lp.dialstate in {4, 7, 8} then lp.(dialstate := lp.dialstate + 1)
      else if lp.dialstate == 12 then lp.(dialstate := 5) else lp
    case DHup => if lp.dialstate == 0 && lp.connected then lp.(connected := false) else lp
    case BConn =>
      if 5 <= lp.dialstate <= 12 && lp.dialstate != 11 then lp.(dialstate := 0, dialstarted := 0, dialwaitTimer := 0)
      else lp
    case NoDChannel => if lp.dialstate == 4 then lp.(dialstate := 3) else lp
    case Other => lp
  }

  // ----- the dialler -----

  class Dialler {
    var ifs: seq<Lp>
    var timer: bool
    ghost var log: seq<Sent>

    ghost predicate Valid()
      reads this
    {
      ListOk(ifs)
    }

    constructor (ifs: seq<Lp>)
      requires ListOk(ifs)
      ensures Valid() && this.ifs == ifs && timer && log == []
    {
      this.ifs, timer, log := ifs, true, [];
    }

    /** isdn_net_dial, which the timer calls. */
    method NetDial(env: Env)
      requires Valid()
      modifies this
      ensures Valid() && (ifs, log, timer) == (TickFirst(old(ifs), env, |old(ifs)|).0,
                                               old(log) + TickFirst(old(ifs), env, |old(ifs)|).1,
                                               TickFirst(old(ifs), env, |old(ifs)|).2)
    {
      hide TickAt;
      var anymore := false;
      assert log + [] == log;
      for i := 0 to |ifs|
        invariant Valid() && |ifs| == |old(ifs)| && ifs == TickFirst(old(ifs), env, i).0
        invariant log == old(log) + TickFirst(old(ifs), env, i).1 && anymore == TickFirst(old(ifs), env, i).2
      {
        var more := TickInterface(i, env);
        anymore := anymore || more;
      }
      timer := anymore;
    }

    method TickInterface(i: nat, env: Env) returns (more: bool)
      requires Valid() && i < |ifs|
      modifies this`ifs, this`log
      ensures Valid() && ifs == TickAt(old(ifs), env, i).0 && log == old(log) + TickAt(old(ifs), env, i).1 &&
        more == TickAt(old(ifs), env, i).2
    {
      hide Tick, Hangup;
      KeepsConfig(ifs[i], env);
      ghost var sent := log;
      var done;
      more, done := DialInterface(i, env);
      ghost var cmds := Tagged(i, Tick(old(ifs)[i], env).cmds);
      if done {
        NetHangup(i);
        assert (sent + cmds) + Hangup(old(ifs)[i := Tick(old(ifs)[i], env).lp], i).1
          == sent + (cmds + Hangup(old(ifs)[i := Tick(old(ifs)[i], env).lp], i).1);
      }
    }

    /** One interface: the switch over its state, where state 1 goes on to 2, and 2 to 3, at once. */
    method DialInterface(i: nat, env: Env) returns (anymore: bool, done: bool)
      requires i < |ifs|
      modifies this`ifs, this`log
      ensures var o := Tick(old(ifs)[i], env);
        ifs == old(ifs)[i := o.lp] && log == old(log) + Tagged(i, o.cmds) && anymore == o.anymore && done == o.done
    {
      hide DialOne, Later, Leased;
      var lp := ifs[i];
      var cmds := [];
      anymore, done := false, false;
      if lp.dialstate == 1 {
        lp := lp.(dial := if lp.cfg.phones == [] then -1 else 0);
        if lp.cfg.phones == [] {
          done := true;
        } else {
          anymore := true;
          if lp.cfg.dialtimeout > 0 &&
            (lp.dialstarted == 0 || env.now > lp.dialstarted + lp.cfg.dialtimeout + lp.cfg.dialwait) {
            lp := lp.(dialstarted := env.now, dialwaitTimer := 0);
          }
          lp := lp.(dialstate := 2);
        }
      }
      if !done && lp.dialstate == 2 {
        cmds := cmds + [ClearEaz, SetEaz];
        lp := lp.(dialretry := 0, dialstate := 3);
        anymore := true;
      }
      var dialling := !done && lp.dialstate == 3;
      if dialling {
        var more, setup;
        lp, more, done, setup := Dial3(lp, env);
        cmds := cmds + setup;
        anymore := anymore || more;
      } else if !done && lp.dialstate != 0 {
        var more, setup;
        lp, more, done, setup := Wait(lp, env);
        cmds, anymore := setup, more;
      }
      ifs := ifs[i := lp];
      log := log + Tagged(i, cmds);
    }

    /** State 3. */
    method Dial3(lp0: Lp, env: Env) returns (lp: Lp, anymore: bool, done: bool, cmds: seq<Cmd>)
      requires lp0.dialstate == 3
      ensures DialOne(lp0, env) == Outcome(lp, cmds, anymore, done)
    {
      lp, anymore, done, cmds := lp0, false, false, [];
      if env.stopped || lp.cfg.dialOff {
        return lp, false, true, cmds;
      }
      cmds := [SetL2, SetL3];
      if lp.dial < 0 || lp.dial >= |lp.cfg.phones| {
        return lp, false, true, cmds;
      }
      if !Leased(lp.cfg.phones[lp.dial]) {
        if lp.cfg.dialtimeout > 0 && env.now > lp.dialstarted + lp.cfg.dialtimeout {
          return lp.(dialwaitTimer := env.now + lp.cfg.dialwait, dialstarted := 0), false, true, cmds;
        }
        var phone := lp.cfg.phones[lp.dial];
        if lp.dial + 1 < |lp.cfg.phones| {
          lp := lp.(dial := lp.dial + 1);
        } else {
          lp := lp.(dial := 0, dialretry := lp.dialretry + 1);
          if lp.dialretry > lp.cfg.dialmax {
            if lp.cfg.dialtimeout == 0 {
              lp := lp.(dialwaitTimer := env.now + lp.cfg.dialwait, dialstarted := 0);
            }
            return lp, false, true, cmds;
          }
        }
        lp := lp.(dtimer := 0);
        cmds := cmds + [DialNumber(phone)];
      }
      anymore := true;
      lp := lp.(dialstate := if lp.cfg.cbdelay != 0 && lp.cfg.cbout then 12 else 4);
    }

    method Wait(lp0: Lp, env: Env) returns (lp: Lp, anymore: bool, done: bool, cmds: seq<Cmd>)
      requires lp0.dialstate >= 4
      ensures Later(lp0, env) == Outcome(lp, cmds, anymore, done)
    {
      lp, anymore, done, cmds := lp0, false, false, [];
      var timer := lp.dtimer;
      if lp.dialstate == 4 || lp.dialstate == 6 {
        lp := lp.(dtimer := timer + 1);
        if timer > env.timeout10 {
          lp := lp.(dialstate := 3);
        }
        anymore := true;
      } else if lp.dialstate == 5 || lp.dialstate == 9 {
        cmds := [AcceptB];
        lp := lp.(dtimer := 0, dialstate := lp.dialstate + 1);
        anymore := true;
      } else if lp.dialstate == 7 {
        cmds := [SetL2, SetL3];
        lp := lp.(dtimer := timer + 1);
        if timer > env.timeout15 {
          done := true;
        } else {
          anymore := true;
          lp := lp.(dialstate := 8);
        }
      } else if lp.dialstate == 8 || lp.dialstate == 10 {
        lp := lp.(dtimer := timer + 1);
        if timer > env.timeout10 {
          done := true;
        } else {
          anymore := true;
        }
      } else if lp.dialstate == 11 {
        lp := lp.(dtimer := timer + 1);
        if timer > lp.cfg.cbdelay {
          lp := lp.(dialstate := 1);
        }
        anymore := true;
      } else if lp.dialstate == 12 {
        lp := lp.(dtimer := timer + 1);
        if timer > lp.cfg.cbdelay {
          lp := lp.(dtimer := 0, dialstate := 4);
          cmds := [HangUp];
        }
        anymore := true;
      }
    }

    /** isdn_net_hangup */
    method NetHangup(i: nat)
      requires Valid() && i < |ifs|
      modifies this`ifs, this`log
      ensures Valid() && ifs == Hangup(old(ifs), i).0 && log == old(log) + Hangup(old(ifs), i).1
      decreases i
    {
      if ifs[i].connected {
        var slave := ifs[i].cfg.slave;
        if slave >= 0 && ifs[slave].connected {
          NetHangup(slave);
        }
        log := log + [Sent(i, HangUp)];
      }
      ifs := ifs[i := ifs[i].(dialstate := 0, connected := false)];
    }

    /** isdn_net_stat_callback, for the states it changes. */
    method StatCallback(i: nat, e: Status)
      requires Valid() && i < |ifs|
      modifies this`ifs
      ensures Valid() && ifs == old(ifs)[i := OnStatus(old(ifs)[i], e)]
    {
      var lp := ifs[i];
      match e {
        case DConn =>
          if lp.dialstate == 4 || lp.dialstate == 7 || lp.dialstate == 8 {
            lp := lp.(dialstate := lp.dialstate + 1);
          } else if lp.dialstate == 12 {
            lp := lp.(dialstate := 5);
          }
        case DHup =>
          if lp.dialstate == 0 && lp.connected {
            lp := lp.(dialstate := 0, connected := false);
          }
        case BConn =>
          if lp.dialstate in {5, 6, 7, 8, 9, 10, 12} {
            lp := lp.(dialstate := 0, dialstarted := 0, dialwaitTimer := 0);
          }
        case NoDChannel =>
          if lp.dialstate == 4 {
            lp := lp.(dialstate := lp.dialstate - 1);
          }
        case Other =>
      }
      ifs := ifs[i := lp];
    }
  }
}

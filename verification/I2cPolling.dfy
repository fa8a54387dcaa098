/**
  The polling master transfer: attempts repeated until one runs to its end or the retries are spent.
 */
module I2cPolling {
  import opened I2cBus
  import opened I2cSetup

  function Order(cfg: MasterSetup): seq<Action>
    requires cfg.Ready()
    reads cfg.txData
  {
    Script(cfg.address, cfg.Tx(), cfg.Rx())
  }

  lemma {:induction false} FlattenSnoc(attempts: seq<seq<Event>>, last: seq<Event>)
    ensures Flatten(attempts + [last]) == Flatten(attempts) + last
  {
    if attempts == [] {
      assert Flatten([last]) == last + Flatten([]);
    } else {
      FlattenSnoc(attempts[1..], last);
      assert (attempts + [last])[1..] == attempts[1..] + [last];
      assert attempts[0] + (Flatten(attempts[1..]) + last) == (attempts[0] + Flatten(attempts[1..])) + last;
    }
  }

  // The status a transfer that gave up reports: the code of its last failure.
  function LastStatus(failed: seq<seq<Event>>): Status {
    if failed == [] || failed[|failed| - 1] == [] then NO_STATUS
    else
      var attempt := failed[|failed| - 1];
      var e := attempt[|attempt| - 1];
      Status(e.code, false, Acknowledged(e.action), false)
  }

  predicate AllBroken(failed: seq<seq<Event>>, script: seq<Action>) {
    forall i :: 0 <= i < |failed| ==> Broken(failed[i], script)
  }

  function Flatten(attempts: seq<seq<Event>>): seq<Event> {
    if attempts == [] then [] else attempts[0] + Flatten(attempts[1..])
  }

  // Failures the driver flags as a missing acknowledgement.
  predicate Acknowledged(action: Action) { action.Address? || action.Send? }

  // One event onto an attempt that has followed the script so far.
  ghost function Extended(events: seq<Event>, port: Port): seq<Event>
    requires |port.trace| > 0
    reads port
  {
    events + [port.trace[|port.trace| - 1]]
  }

  // lpc17xx_i2c.c:800-812,851-866 : a START condition, first or repeated.
  method Begin(port: Port, ghost script: seq<Action>, ghost before: seq<Event>, ghost begun: seq<Event>)
    returns (ok: bool, code: Byte, ghost events: seq<Event>)
    requires port.trace == before + begun && Along(begun, script) && |begun| < |script| && script[|begun|] == Start
    modifies port
    ensures port.trace == before + events && |events| == |begun| + 1 && code == port.stat
    ensures events[|begun|].code == code && events[|begun|].action == Start
    ensures ok <==> code == START || code == RESTART
    ensures if ok then Along(events, script) && Collected(events) == Collected(begun) else Broken(events, script)
  {
    hide Along, Broken, Collected;
    code := port.StartCondition();
    AlongOneMore(begun, script, port.trace[|port.trace| - 1]);
    Snoc(begun, port.trace[|port.trace| - 1]);
    events := Extended(begun, port);
    ok := !(code != START && code != RESTART);
  }

  // lpc17xx_i2c.c:815-848 : SLA+W and the bytes.
  method WriteBytes(port: Port, cfg: MasterSetup, ghost tx: seq<Byte>, ghost script: seq<Action>,
      ghost before: seq<Event>, ghost begun: seq<Event>)
    returns (ok: bool, code: Byte, ghost events: seq<Event>)
    requires cfg.Ready() && tx == cfg.Tx() != [] && cfg.txCount == 0 && port.stat in {START, RESTART}
    requires script == Script(cfg.address, tx, cfg.Rx())
    requires port.trace == before + begun && |begun| == 1 && Along(begun, script) && Collected(begun) == []
    modifies port, cfg`txCount
    ensures port.trace == before + events && events != [] && code == port.stat
    ensures if ok then |events| == WriteEnd(tx) && Along(events, script) && Collected(events) == []
        else Broken(events, script)
    ensures !ok ==> events[|events| - 1].code == code && Acknowledged(events[|events| - 1].action)
  {
    hide Script, Collected, Broken, Along;
    ScriptWrites(cfg.address, tx, cfg.Rx());
    code := port.SendByte(Write(cfg.address));
    AlongOneMore(begun, script, port.trace[|port.trace| - 1]);
    Snoc(begun, port.trace[|port.trace| - 1]);
    events := Extended(begun, port);
    if code != SLAW_ACK {
      return false, code, events;
    }
    while cfg.txCount < cfg.txLength
      invariant cfg.txCount <= cfg.txLength && port.stat in {SLAW_ACK, TX_ACK} && code == port.stat
      invariant port.trace == before + events && |events| == 2 + cfg.txCount
      invariant Along(events, script) && Collected(events) == []
    {
      assert script[2 + cfg.txCount] == Send(tx[cfg.txCount]);
      code := port.SendByte(cfg.txData[cfg.txCount]);
      AlongOneMore(events, script, port.trace[|port.trace| - 1]);
      Snoc(events, port.trace[|port.trace| - 1]);
      events := Extended(events, port);
      if code != TX_ACK {
        return false, code, events;
      }
      cfg.txCount := cfg.txCount + 1;
    }
    ok := true;
  }

  // lpc17xx_i2c.c:892-920 : one byte read, acknowledged unless it is the last.
  method ReadByte(port: Port, ack: bool, ghost script: seq<Action>, ghost before: seq<Event>, ghost begun: seq<Event>)
    returns (ok: bool, tmp: Byte, code: Byte, ghost events: seq<Event>)
    requires port.stat in {SLAR_ACK, RX_ACK} && !port.sta
    requires port.trace == before + begun && Along(begun, script) && |begun| < |script|
        && script[|begun|] == Receive(ack)
    modifies port
    ensures port.trace == before + events && |events| == |begun| + 1 && code == port.stat && !port.sta
    ensures ok <==> code == if ack then RX_ACK else RX_NACK
    ensures if ok then Along(events, script) && Collected(events) == Collected(begun) + [tmp]
        else Broken(events, script)
    ensures events[|events| - 1].action == Receive(ack) && events[|events| - 1].code == code
  {
    hide Along, Broken, Collected;
    tmp, code := port.GetByte(ack);
    AlongOneMore(begun, script, port.trace[|port.trace| - 1]);
    Snoc(begun, port.trace[|port.trace| - 1]);
    events := Extended(begun, port);
    ok := code == if ack then RX_ACK else RX_NACK;
  }

  // lpc17xx_i2c.c:869-922 : SLA+R and the reads.
  method ReadBytes(port: Port, cfg: MasterSetup, ghost tx: seq<Byte>, ghost script: seq<Action>,
      ghost before: seq<Event>, ghost begun: seq<Event>)
    returns (ok: bool, code: Byte, noAck: bool, ghost events: seq<Event>)
    requires cfg.Ready() && cfg.Rx() != 0 && cfg.rxCount == 0 && port.stat in {START, RESTART}
    requires script == Script(cfg.address, tx, cfg.rxLength)
    requires port.trace == before + begun && |begun| == ReadAt(tx, cfg.rxLength) && Along(begun, script)
    requires Collected(begun) == []
    modifies port, cfg`rxCount, cfg.rxData
    ensures port.trace == before + events && events != [] && code == port.stat
    ensures if ok then Passed(events, script) else Broken(events, script)
    ensures !ok ==> events[|events| - 1].code == code && noAck == Acknowledged(events[|events| - 1].action)
    ensures ok ==> cfg.rxCount == cfg.rxLength && cfg.rxData[..cfg.rxLength] == Collected(events)
    ensures cfg.rxData[cfg.rxLength..] == old(cfg.rxData[cfg.rxLength..])
  {
    hide Script, Collected, Broken, Along;
    ghost var r, rest := |begun|, cfg.rxData[cfg.rxLength..];
    ScriptReads(cfg.address, tx, cfg.rxLength);
    code := port.SendByte(Read(cfg.address));
    AlongOneMore(begun, script, port.trace[|port.trace| - 1]);
    Snoc(begun, port.trace[|port.trace| - 1]);
    events := Extended(begun, port);
    if code != SLAR_ACK {
      return false, code, true, events;
    }
    while cfg.rxCount < cfg.rxLength
      invariant cfg.rxCount <= cfg.rxLength && code == port.stat && !port.sta
      invariant port.stat in {SLAR_ACK, RX_ACK} || cfg.rxCount == cfg.rxLength
      invariant port.trace == before + events && |events| == r + 1 + cfg.rxCount && Along(events, script)
      invariant cfg.rxData[..cfg.rxCount] == Collected(events)
      invariant cfg.rxData[cfg.rxLength..] == rest
    {
      ghost var so := Collected(events);
      var tmp;
      ok, tmp, code, events := ReadByte(port, cfg.rxCount < cfg.rxLength - 1, script, before, events);
      if !ok {
        return false, code, false, events;
      }
      cfg.rxData[cfg.rxCount] := tmp;
      assert cfg.rxData[..cfg.rxCount] == so;
      cfg.rxCount := cfg.rxCount + 1;
    }
    ok, noAck := true, false;
  }

  // lpc17xx_i2c.c:791-922 : one pass from the label retry to STOP or to a failure.
  method Attempt(port: Port, cfg: MasterSetup, ghost tx: seq<Byte>, ghost script: seq<Action>)
    returns (ok: bool, code: Byte, noAck: bool, ghost events: seq<Event>)
    requires cfg.Ready() && tx == cfg.Tx() && script == Order(cfg)
    modifies port, cfg`txCount, cfg`rxCount, if cfg.rxData == null then {} else {cfg.rxData}
    ensures port.trace == old(port.trace) + events && events != []
    ensures if ok then Passed(events, script) else Broken(events, script)
    ensures !ok ==> events[|events| - 1].code == code && noAck == Acknowledged(events[|events| - 1].action)
    ensures ok ==> cfg.rxCount == cfg.Rx() && Collected(events) == if cfg.rxData == null then []
        else cfg.rxData[..cfg.rxLength]
    ensures cfg.rxData != null ==> cfg.rxData[cfg.rxLength..] == old(cfg.rxData[cfg.rxLength..])
  {
    hide Script, Collected, Broken, Along;
    ghost var before := port.trace;
    ScriptWrites(cfg.address, tx, cfg.Rx());
    ScriptReads(cfg.address, tx, cfg.Rx());
    AlongStart(script);
    cfg.txCount, cfg.rxCount := 0, 0;
    ok, code, events := Begin(port, script, before, []);
    if !ok {
      return false, code, false, events;
    }
    if cfg.txLength != 0 && cfg.txData != null {
      ok, code, events := WriteBytes(port, cfg, tx, script, before, events);
      if !ok {
        return false, code, true, events;
      }
    }
    if cfg.txLength != 0 && cfg.txData != null && cfg.rxLength != 0 && cfg.rxData != null {
      ok, code, events := Begin(port, script, before, events);
      if !ok {
        return false, code, false, events;
      }
    }
    if cfg.rxLength != 0 && cfg.rxData != null {
      ok, code, noAck, events := ReadBytes(port, cfg, tx, script, before, events);
      return;
    }
    ok, noAck := true, false;
  }

  // lpc17xx_i2c.c:771-932 with Opt == I2C_TRANSFER_POLLING.
  method MasterTransferData(port: Port, cfg: MasterSetup)
      returns (ok: bool, ghost failed: seq<seq<Event>>, ghost last: seq<Event>)
    requires cfg.Ready() && cfg.retransmissionsMax < 0xFFFF_FFFF
    modifies port, cfg, if cfg.rxData == null then {} else {cfg.rxData}
    ensures port.trace == old(port.trace) + Flatten(failed) + last + [STOPPED]
    ensures Aimed(Flatten(failed) + last, cfg.address)
    ensures AllBroken(failed, Order(cfg)) && cfg.retransmissionsCount == |failed|
    ensures if ok then Passed(last, Order(cfg)) else last == []
    ensures ok ==> |failed| <= cfg.retransmissionsMax && cfg.status == NO_STATUS
    ensures ok ==> cfg.rxCount == cfg.Rx() && Collected(last) == if cfg.rxData == null then []
        else cfg.rxData[..cfg.rxLength]
    ensures ok ==> Delivered(last) == cfg.Tx() && |Collected(last)| == cfg.Rx() && Failures(last) == 0
    ensures !ok ==> |failed| == cfg.retransmissionsMax + 1 && cfg.status == LastStatus(failed)
    ensures cfg.rxData != null ==> cfg.rxData[cfg.rxLength..] == old(cfg.rxData[cfg.rxLength..])
  {
    hide Script, Collected, Delivered, Failures, Broken, Along, Passed, Aimed;
    ghost var tx, script, before := cfg.Tx(), Order(cfg), port.trace;
    cfg.txCount, cfg.rxCount, cfg.status := 0, 0, NO_STATUS;
    cfg.retransmissionsCount := 0;
    failed, last := [], [];
    while true
      invariant cfg.retransmissionsCount == |failed| <= cfg.retransmissionsMax
      invariant port.trace == before + Flatten(failed) && AllBroken(failed, script)
      invariant cfg.status == NO_STATUS && last == []
      invariant tx == cfg.Tx()
      invariant cfg.rxData != null ==> cfg.rxData[cfg.rxLength..] == old(cfg.rxData[cfg.rxLength..])
      decreases cfg.retransmissionsMax - cfg.retransmissionsCount
    {
      var code, noAck;
      ghost var events;
      ok, code, noAck, events := Attempt(port, cfg, tx, script);
      if ok {
        last := events;
        TransferAimed(cfg.address, tx, cfg.Rx(), failed, last);
        FullAttemptTransfers(cfg.address, tx, cfg.Rx(), last);
        port.StopCondition();
        return;
      }
      FlattenSnoc(failed, events);
      failed := failed + [events];
      cfg.retransmissionsCount := cfg.retransmissionsCount + 1;
      if cfg.retransmissionsCount > cfg.retransmissionsMax {
        cfg.status := Status(code, false, noAck, false);
        TransferAimed(cfg.address, tx, cfg.Rx(), failed, last);
        port.StopCondition();
        return;
      }
    }
  }

  // A transfer that gave up reports the code of its very last event, flagged as a missing acknowledgement
  // when that was an address or a byte sent.
  lemma GivenUpStatus(failed: seq<seq<Event>>, script: seq<Action>)
    requires failed != [] && AllBroken(failed, script)
    ensures Flatten(failed) != []
    ensures var e := Flatten(failed)[|Flatten(failed)| - 1];
            && LastStatus(failed).code == e.code && !LastStatus(failed).arbitration && !LastStatus(failed).done
            && (LastStatus(failed).noAck <==> e.action.Address? || e.action.Send?)
            && !Expected(e.action, e.code)
  {
    var n := |failed| - 1;
    assert failed == failed[..n] + [failed[n]];
    FlattenSnoc(failed[..n], failed[n]);
    assert Broken(failed[n], script);
    hide Flatten, Broken, Expected;
  }

  // ---------- a trace tells its attempts ----------

  // A broken attempt does not go on where it broke.
  lemma NotLonger(a: seq<Event>, arest: seq<Event>, b: seq<Event>, brest: seq<Event>, script: seq<Action>)
    requires Broken(a, script) && Broken(b, script) && a + arest == b + brest
    ensures |a| <= |b|
  {
    var k := |b| - 1;
    assert (a + arest)[k] == (b + brest)[k] == b[k];
  }

  // Two readings of one trace agree on the first broken attempt.
  lemma HeadsMeet(a: seq<Event>, arest: seq<Event>, b: seq<Event>, brest: seq<Event>, script: seq<Action>)
    requires Broken(a, script) && Broken(b, script) && a + arest == b + brest
    ensures a == b && arest == brest
  {
    NotLonger(a, arest, b, brest, script);
    NotLonger(b, brest, a, arest, script);
    assert a == (a + arest)[..|a|] && b == (b + brest)[..|b|];
    assert arest == (a + arest)[|a|..] && brest == (b + brest)[|b|..];
  }

  // An attempt that ran to its end did not break on the way.
  lemma FullIsNotBroken(a: seq<Event>, b: seq<Event>, brest: seq<Event>, script: seq<Action>)
    requires Broken(b, script) && a == b + brest
    ensures !Passed(a, script)
  {}

  /**
    What went over the bus decides how many attempts there were, where each one broke and what the
    last one did: the trace cuts into attempts in one way only.
   */
  lemma {:induction false} OneReading(f: seq<seq<Event>>, a: seq<Event>, g: seq<seq<Event>>, b: seq<Event>,
      script: seq<Action>)
    requires AllBroken(f, script) && AllBroken(g, script)
    requires Passed(a, script) && Passed(b, script)
    requires Flatten(f) + a == Flatten(g) + b
    ensures f == g && a == b
  {
    hide Broken, Passed, Flatten;
    if f != [] { FlattenSplit(f, a); }
    if g != [] { FlattenSplit(g, b); }
    if f == [] && g == [] {
      FlattenEmpty(a);
      FlattenEmpty(b);
    } else if f == [] {
      FlattenEmpty(a);
      FullIsNotBroken(a, g[0], Flatten(g[1..]) + b, script);
    } else if g == [] {
      FlattenEmpty(b);
      FullIsNotBroken(b, f[0], Flatten(f[1..]) + a, script);
    } else {
      HeadsMeet(f[0], Flatten(f[1..]) + a, g[0], Flatten(g[1..]) + b, script);
      OneReading(f[1..], a, g[1..], b, script);
      assert f == [f[0]] + f[1..] && g == [g[0]] + g[1..];
    }
  }

  /** The same for a transfer that gave up. */
  lemma {:induction false} OneFailedReading(f: seq<seq<Event>>, g: seq<seq<Event>>, script: seq<Action>)
    requires AllBroken(f, script) && AllBroken(g, script) && Flatten(f) == Flatten(g)
    ensures f == g
  {
    if f != [] { BrokenNotEmpty(f, script); }
    if g != [] { BrokenNotEmpty(g, script); }
    if f != [] && g != [] {
      HeadsMeet(f[0], Flatten(f[1..]), g[0], Flatten(g[1..]), script);
      OneFailedReading(f[1..], g[1..], script);
      assert f == [f[0]] + f[1..] && g == [g[0]] + g[1..];
    }
  }

  lemma BrokenNotEmpty(f: seq<seq<Event>>, script: seq<Action>)
    requires f != [] && AllBroken(f, script)
    ensures Flatten(f) != [] && Broken(f[0], script) && Flatten(f) == f[0] + Flatten(f[1..])
  {}

  lemma FlattenSplit(f: seq<seq<Event>>, a: seq<Event>)
    requires f != []
    ensures Flatten(f) + a == f[0] + (Flatten(f[1..]) + a)
  {}

  lemma FlattenEmpty(a: seq<Event>)
    ensures Flatten([]) + a == a
  {}

  // ---------- what a full attempt achieves ----------

  // Bytes sent, and bytes read, once n actions of the script have succeeded.
  function SentBy(n: nat, tx: seq<Byte>): (k: nat)
    ensures k <= |tx|
  {
    if n <= 2 then 0 else if n - 2 <= |tx| then n - 2 else |tx|
  }

  function ReadBy(n: nat, tx: seq<Byte>, rx: nat): nat {
    if n <= ReadAt(tx, rx) + 1 then 0 else n - ReadAt(tx, rx) - 1
  }

  // The script sends where it writes and reads where it reads.
  lemma ActionAt(a: Address7, tx: seq<Byte>, rx: nat, n: nat)
    requires n < |Script(a, tx, rx)|
    ensures var action := Script(a, tx, rx)[n];
            && (action.Send? <==> 2 <= n < 2 + |tx|)
            && (action.Send? ==> action.octet == tx[n - 2])
            && (action == Address(Write(a)) ==> n == 1)
            && (action.Address? ==> action == Address(Write(a)) || action == Address(Read(a)))
            && (action.Receive? <==> rx != 0 && n > ReadAt(tx, rx))
  {
    ScriptWrites(a, tx, rx);
    ScriptReads(a, tx, rx);
    hide Script;
    if 2 <= n < 2 + |tx| {
      assert Script(a, tx, rx)[2 + (n - 2)] == Send(tx[n - 2]);
    }
  }

  lemma SendsOneMore(tx: seq<Byte>, before: seq<Event>, e: Event)
    requires Expected(e.action, e.code)
    requires e.action.Send? <==> 2 <= |before| < 2 + |tx|
    requires e.action.Send? ==> e.action.octet == tx[|before| - 2]
    requires e.action.Address? && e.code == SLAW_ACK ==> |before| == 1
    requires Delivered(before) == tx[..SentBy(|before|, tx)]
    ensures Delivered(before + [e]) == tx[..SentBy(|before| + 1, tx)]
  {
    hide Delivered, Collected, Failures, Expected;
    var n := |before|;
    Snoc(before, e);
    if e.action.Send? {
      assert tx[..n - 1] == tx[..n - 2] + [tx[n - 2]];
    } else if n == 1 {
      assert tx[..0] == [];
    } else {
      assert SentBy(n + 1, tx) == SentBy(n, tx);
    }
  }

  lemma LastAlong(events: seq<Event>, script: seq<Action>)
    requires Along(events, script) && events != []
    ensures var n := |events| - 1;
            && events == events[..n] + [events[n]] && n < |script|
            && Along(events[..n], script) && events[n].action == script[n] && Expected(events[n].action, events[n].code)
  {}

  lemma {:induction false} AttemptSends(a: Address7, tx: seq<Byte>, rx: nat, events: seq<Event>)
    requires Along(events, Script(a, tx, rx))
    ensures Delivered(events) == tx[..SentBy(|events|, tx)]
  {
    if events != [] {
      hide Script, Along, Delivered, SentBy;
      var n := |events| - 1;
      var before, e := events[..n], events[n];
      LastAlong(events, Script(a, tx, rx));
      AttemptSends(a, tx, rx, before);
      SendsOnScript(a, tx, rx, before, e);
    }
  }

  lemma SendsOnScript(a: Address7, tx: seq<Byte>, rx: nat, before: seq<Event>, e: Event)
    requires |before| < |Script(a, tx, rx)| && e.action == Script(a, tx, rx)[|before|] && Expected(e.action, e.code)
    requires Delivered(before) == tx[..SentBy(|before|, tx)]
    ensures Delivered(before + [e]) == tx[..SentBy(|before| + 1, tx)]
  {
    hide Script, Delivered, SentBy, ReadAt, Writes, Write, Read;
    ActionAt(a, tx, rx, |before|);
    SendsOneMore(tx, before, e);
  }

  lemma {:induction false} AttemptReads(a: Address7, tx: seq<Byte>, rx: nat, events: seq<Event>)
    requires Along(events, Script(a, tx, rx))
    ensures |Collected(events)| == ReadBy(|events|, tx, rx)
  {
    if events != [] {
      hide Script, Along, Collected, ReadBy;
      var n := |events| - 1;
      var before, e := events[..n], events[n];
      LastAlong(events, Script(a, tx, rx));
      AttemptReads(a, tx, rx, before);
      ReadsOnScript(a, tx, rx, before, e);
    }
  }

  lemma ReadsOnScript(a: Address7, tx: seq<Byte>, rx: nat, before: seq<Event>, e: Event)
    requires |before| < |Script(a, tx, rx)| && e.action == Script(a, tx, rx)[|before|] && Expected(e.action, e.code)
    requires |Collected(before)| == ReadBy(|before|, tx, rx)
    ensures |Collected(before + [e])| == ReadBy(|before| + 1, tx, rx)
  {
    ScriptReads(a, tx, rx);
    ActionAt(a, tx, rx, |before|);
    Snoc(before, e);
    hide Script, Collected, Delivered, Failures, ReadAt, Expected, Writes, Write, Read;
  }

  // The actions of the script, in the order of the script, the last one ended in any way.
  predicate Follows(events: seq<Event>, script: seq<Action>) {
    |events| <= |script| && forall i :: 0 <= i < |events| ==> events[i].action == script[i]
  }

  // The address octet in force after n actions of the script.
  function AddressedBy(n: nat, a: Address7, tx: seq<Byte>, rx: nat): int {
    if n <= 1 then -1
    else if tx != [] && n <= WriteEnd(tx) then 2 * a
    else if n <= ReadAt(tx, rx) then -1
    else 2 * a + 1
  }

  lemma AimedOnScript(a: Address7, tx: seq<Byte>, rx: nat, before: seq<Event>, e: Event)
    requires |before| < |Script(a, tx, rx)| && e.action == Script(a, tx, rx)[|before|]
    requires Aimed(before, a) && Addressed(before) == AddressedBy(|before|, a, tx, rx)
    ensures Aimed(before + [e], a) && Addressed(before + [e]) == AddressedBy(|before| + 1, a, tx, rx)
  {
    ScriptWrites(a, tx, rx);
    ScriptReads(a, tx, rx);
    AimedOneMore(before, e, a);
    hide Script, Aimed, Addressed;
    var n := |before|;
    if 2 <= n < WriteEnd(tx) && tx != [] {
      assert Script(a, tx, rx)[2 + (n - 2)] == Send(tx[n - 2]);
    }
  }

  lemma LastFollows(events: seq<Event>, script: seq<Action>)
    requires Follows(events, script) && events != []
    ensures var n := |events| - 1;
            && events == events[..n] + [events[n]] && n < |script|
            && Follows(events[..n], script) && events[n].action == script[n]
  {}

  /** Every attempt, whether it ran to its end or broke, addresses the slave asked for. */
  lemma {:induction false} AttemptAimed(a: Address7, tx: seq<Byte>, rx: nat, events: seq<Event>)
    requires Follows(events, Script(a, tx, rx))
    ensures Aimed(events, a) && Addressed(events) == AddressedBy(|events|, a, tx, rx)
  {
    if events != [] {
      hide Script, Follows, Aimed, Addressed, AddressedBy;
      var n := |events| - 1;
      LastFollows(events, Script(a, tx, rx));
      AttemptAimed(a, tx, rx, events[..n]);
      AimedOnScript(a, tx, rx, events[..n], events[n]);
    }
  }

  lemma BrokenFollows(events: seq<Event>, script: seq<Action>)
    ensures Broken(events, script) || Passed(events, script) ==> Follows(events, script)
  {
    if Broken(events, script) {
      assert forall i :: 0 <= i < |events| - 1 ==> events[..|events| - 1][i] == events[i];
    }
  }

  /** So does everything a transfer puts on the bus. */
  lemma {:induction false} TransferAimed(a: Address7, tx: seq<Byte>, rx: nat, failed: seq<seq<Event>>, last: seq<Event>)
    requires AllBroken(failed, Script(a, tx, rx)) && (last == [] || Passed(last, Script(a, tx, rx)))
    ensures Aimed(Flatten(failed) + last, a)
  {
    hide Script, Aimed, Broken, Passed, Follows;
    if failed == [] {
      assert Flatten(failed) + last == last;
      if last == [] {
        AimedNothing(a);
      } else {
        BrokenFollows(last, Script(a, tx, rx));
        AttemptAimed(a, tx, rx, last);
      }
    } else {
      TransferAimed(a, tx, rx, failed[1..], last);
      FlattenSplit(failed, last);
      BrokenFollows(failed[0], Script(a, tx, rx));
      AttemptAimed(a, tx, rx, failed[0]);
      AimedConcat(failed[0], Flatten(failed[1..]) + last, a);
    }
  }

  lemma AimedNothing(a: Address7)
    ensures Aimed([], a)
  {}

  /**
    A full attempt puts exactly the bytes to send on the bus, acknowledged, and reads as many as asked, to
    and from the slave asked for.
   */
  lemma FullAttemptTransfers(a: Address7, tx: seq<Byte>, rx: nat, events: seq<Event>)
    requires Passed(events, Script(a, tx, rx))
    ensures Delivered(events) == tx && |Collected(events)| == rx && Failures(events) == 0 && Aimed(events, a)
  {
    BrokenFollows(events, Script(a, tx, rx));
    AttemptAimed(a, tx, rx, events);
    hide Aimed;
    ScriptReads(a, tx, rx);
    AttemptSends(a, tx, rx, events);
    AttemptReads(a, tx, rx, events);
    NoFailures(events, Script(a, tx, rx));
  }

  lemma {:induction false} NoFailures(events: seq<Event>, script: seq<Action>)
    requires Along(events, script)
    ensures Failures(events) == 0
  {
    if events != [] {
      NoFailures(events[..|events| - 1], script);
    }
  }
}

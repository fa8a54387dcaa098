/**
  The polling slave transfer: the loop over the SI flag, its time-out and what it stores and answers.
 */
module I2cSlave {
  import opened I2cBus
  import opened I2cSetup

  const GENCALL_ACK: Byte := 0x70
  const OWN_ACK: Byte := 0x60
  const DATA_ACK: Byte := 0x80
  const DATA_NACK: Byte := 0x88
  const GENCALL_DATA_ACK: Byte := 0x90
  const GENCALL_DATA_NACK: Byte := 0x98
  const STOP_OR_RESTART: Byte := 0xA0
  const READ_ACK: Byte := 0xA8
  const SENT_ACK: Byte := 0xB8
  const SENT_NACK: Byte := 0xC0

  const TIME_OUT := 0x10000

  // One look at the SI flag; when it is set, the status code and what I2DAT holds.
  datatype Poll = Quiet | Ready(code: Byte, data: Byte)

  datatype Result = Success | Error | Polling

  predicate Brings(p: Poll) { p.Ready? && p.code in {DATA_ACK, GENCALL_DATA_ACK} }

  predicate Asks(p: Poll) { p.Ready? && p.code in {READ_ACK, SENT_ACK} }

  predicate ArmsTimer(p: Poll) { p.Ready? && p.code in {STOP_OR_RESTART, SENT_NACK} }

  predicate Handled(code: Byte) {
    code in {NO_INF, OWN_ACK, GENCALL_ACK, DATA_ACK, GENCALL_DATA_ACK, DATA_NACK, GENCALL_DATA_NACK,
             STOP_OR_RESTART, READ_ACK, SENT_ACK, SENT_NACK}
  }

  // The bytes the master wrote, in order.
  function Brought(polls: seq<Poll>): seq<Byte> {
    if polls == [] then []
    else
      var p := polls[|polls| - 1];
      Brought(polls[..|polls| - 1]) + if Brings(p) then [p.data] else []
  }

  // What the master reads: the bytes to send, and after them whatever I2DAT held.
  function Answered(polls: seq<Poll>, tx: seq<Byte>): seq<Byte> {
    if polls == [] then []
    else
      var p := polls[|polls| - 1];
      var before := Answered(polls[..|polls| - 1], tx);
      if !Asks(p) then before
      else before + [if |before| < |tx| then tx[|before|] else p.data]
  }

  // The loop gives up at poll i: a code it does not know.
  predicate FailsAt(polls: seq<Poll>, i: nat)
    requires i < |polls|
  {
    polls[i].Ready? && !Handled(polls[i].code)
  }

  // The loop ends well at poll i: it armed the timer and then saw nothing TIME_OUT + 2 times.
  predicate StopsAt(polls: seq<Poll>, i: nat)
    requires i < |polls|
  {
    && i >= TIME_OUT + 2 && ArmsTimer(polls[i - TIME_OUT - 2])
    && forall k :: i - TIME_OUT - 2 < k <= i ==> polls[k].Quiet?
  }

  predicate EndsAt(polls: seq<Poll>, i: nat)
    requires i < |polls|
  {
    FailsAt(polls, i) || StopsAt(polls, i)
  }

  // The codes of the slave modes, and what the loop makes of each.
  lemma CodesMean(code: Byte, data: Byte)
    ensures Brings(Ready(code, data)) <==> code == 0x80 || code == 0x90
    ensures Asks(Ready(code, data)) <==> code == 0xA8 || code == 0xB8
    ensures ArmsTimer(Ready(code, data)) <==> code == 0xA0 || code == 0xC0
    ensures FailsAt([Ready(code, data)], 0) <==>
              code !in {0x60, 0x70, 0x80, 0x88, 0x90, 0x98, 0xA0, 0xA8, 0xB8, 0xC0, 0xF8}
  {}

  /** After a STOP, or the last byte read, the loop ends at the 65538th quiet look at the flag. */
  lemma QuietEnds(polls: seq<Poll>, i: nat)
    requires i < |polls| && polls[0].Ready? && Handled(polls[0].code)
    requires forall k :: 0 < k < |polls| ==> polls[k].Quiet?
    ensures EndsAt(polls, i) <==> i == 65538 && (polls[0].code == 0xA0 || polls[0].code == 0xC0)
  {
    if i > TIME_OUT + 2 {
      assert polls[i - TIME_OUT - 2].Quiet?;
    }
  }

  /** Each byte the master writes comes, in Brought, behind those written before it. */
  lemma {:induction false} BroughtInOrder(polls: seq<Poll>, k: nat)
    requires k < |polls| && Brings(polls[k])
    ensures Brought(polls[..k]) + [polls[k].data] <= Brought(polls)
  {
    var n := |polls| - 1;
    if k < n {
      BroughtInOrder(polls[..n], k);
      assert polls[..n][..k] == polls[..k];
    }
  }

  lemma OneMorePoll(polls: seq<Poll>, p: Poll, tx: seq<Byte>)
    ensures Brought(polls + [p]) == Brought(polls) + if Brings(p) then [p.data] else []
    ensures var before := Answered(polls, tx);
            Answered(polls + [p], tx) == if !Asks(p) then before
                else before + [if |before| < |tx| then tx[|before|] else p.data]
  {
    assert (polls + [p])[..|polls|] == polls;
  }

  class Setup {
    const txData: array?<Byte>
    const txLength: nat
    const rxData: array?<Byte>
    const rxLength: nat
    var txCount: nat
    var rxCount: nat
    var status: Status

    constructor (txData: array?<Byte>, txLength: nat, rxData: array?<Byte>, rxLength: nat)
      requires txData == null || txLength <= txData.Length
      requires rxData == null || (rxLength <= rxData.Length && rxData != txData)
      ensures Ready()
    {
      this.txData, this.txLength, this.rxData, this.rxLength := txData, txLength, rxData, rxLength;
    }

    predicate Ready() {
      && (txData != null ==> txLength <= txData.Length)
      && (rxData != null ==> rxLength <= rxData.Length && rxData != txData)
    }

    function Tx(): seq<Byte>
      requires Ready()
      reads txData
    {
      if txData == null then [] else txData[..txLength]
    }

    function Room(): nat { if rxData == null then 0 else rxLength }

    function Received(): seq<Byte>
      requires Ready() && rxCount <= Room()
      reads this`rxCount, rxData
    {
      if rxData == null then [] else rxData[..rxCount]
    }

    // lpc17xx_i2c.c:1048-1052
    method Keep(data: Byte)
      requires Ready() && rxCount <= Room()
      modifies this`rxCount, rxData
      ensures rxCount <= Room()
      ensures Received() == if |old(Received())| < Room() then old(Received()) + [data] else old(Received())
    {
      if rxCount < rxLength && rxData != null {
        ghost var so := Received();
        rxData[rxCount] := data;
        rxCount := rxCount + 1;
        assert Received() == so + [data];
      }
    }

    // lpc17xx_i2c.c:1091-1095 : the byte left in I2DAT for the master.
    method Reply(held: Byte) returns (dat: Byte)
      requires Ready() && txCount <= |Tx()|
      modifies this`txCount
      ensures txCount == if old(txCount) < |Tx()| then old(txCount) + 1 else |Tx()|
      ensures dat == if old(txCount) < |Tx()| then Tx()[old(txCount)] else held
    {
      dat := held;
      if txCount < txLength && txData != null {
        dat := txData[txCount];
        txCount := txCount + 1;
      }
    }
  }

  function Take(s: seq<Byte>, n: nat): seq<Byte> { if |s| <= n then s else s[..n] }

  // Where the loop stands after k polls: the last one with SI set, or -1.
  predicate Standing(polls: seq<Poll>, k: nat, last: int, timeEn: bool, timeout: nat) {
    && k <= |polls| && -1 <= last < k
    && (forall j :: last < j < k ==> polls[j].Quiet?)
    && (last >= 0 ==> polls[last].Ready?)
    && (timeEn <==> last >= 0 && ArmsTimer(polls[last]))
    && (timeEn ==> timeout == k - last - 1 <= TIME_OUT + 1)
  }

  // One more poll: when it ends the loop, and where the loop stands otherwise.
  lemma StandingNext(polls: seq<Poll>, k: nat, last: int, timeEn: bool, timeout: nat)
    requires Standing(polls, k, last, timeEn, timeout) && k < |polls|
    ensures polls[k].Quiet? ==> !Brings(polls[k]) && !Asks(polls[k])
    ensures polls[k].Ready? ==>
              && (FailsAt(polls, k) <==> !Handled(polls[k].code)) && (EndsAt(polls, k) <==> FailsAt(polls, k))
              && Standing(polls, k + 1, k, ArmsTimer(polls[k]), if ArmsTimer(polls[k]) then 0 else timeout)
    ensures polls[k].Quiet? && timeEn && timeout > TIME_OUT ==> StopsAt(polls, k) && 0 <= last == k - TIME_OUT - 2
    ensures polls[k].Quiet? && !(timeEn && timeout > TIME_OUT) ==>
              !EndsAt(polls, k) && Standing(polls, k + 1, last, timeEn, if timeEn then timeout + 1 else timeout)
  {
    if StopsAt(polls, k) {
      assert last == k - TIME_OUT - 2;
    }
  }

  // What the transfer holds after these polls.
  predicate Told(cfg: Setup, seen: seq<Poll>, tx: seq<Byte>, replies: seq<Byte>)
    requires cfg.Ready()
    reads cfg`rxCount, cfg`txCount, cfg.txData, cfg.rxData
  {
    && cfg.rxCount <= cfg.Room() && cfg.Received() == Take(Brought(seen), cfg.Room())
    && cfg.Tx() == tx && cfg.txCount == (if |replies| < |tx| then |replies| else |tx|) && replies == Answered(seen, tx)
  }

  // Polls that neither bring nor ask for a byte change nothing.
  lemma ToldIdle(cfg: Setup, seen: seq<Poll>, p: Poll, tx: seq<Byte>, replies: seq<Byte>)
    requires cfg.Ready() && Told(cfg, seen, tx, replies) && !Brings(p) && !Asks(p)
    ensures Told(cfg, seen + [p], tx, replies)
  {
    OneMorePoll(seen, p, tx);
  }

  // lpc17xx_i2c.c:1020-1114 : one poll that found SI set and a code the loop knows.
  method Serve(port: Port, cfg: Setup, code: Byte, data: Byte, ghost seen: seq<Poll>, ghost tx: seq<Byte>,
      ghost replies: seq<Byte>)
    returns (timeEn: bool, ghost answered: seq<Byte>)
    requires cfg.Ready() && Told(cfg, seen, tx, replies) && Handled(code)
    modifies port`aa, port`dat, cfg`rxCount, cfg`txCount, cfg.rxData
    ensures timeEn == ArmsTimer(Ready(code, data)) && (old(port.aa) ==> port.aa)
    ensures Told(cfg, seen + [Ready(code, data)], tx, answered)
  {
    OneMorePoll(seen, Ready(code, data), tx);
    hide Brought, Answered;
    timeEn, answered := false, replies;
    match code {
      case DATA_ACK | GENCALL_DATA_ACK =>
        cfg.Keep(data);
        port.aa := true;
      case DATA_NACK | GENCALL_DATA_NACK =>
      case STOP_OR_RESTART =>
        timeEn := true;
      case SENT_NACK =>
        port.aa := true;
        timeEn := true;
      case READ_ACK | SENT_ACK =>
        port.dat := cfg.Reply(data);
        answered := answered + [port.dat];
        port.aa := true;
      case _ =>
        port.aa := true;
    }
  }

  // lpc17xx_i2c.c:1016-1119 : SI is set; a code the loop does not know is an error.
  method ReadyPoll(port: Port, cfg: Setup, code: Byte, data: Byte, ghost seen: seq<Poll>, ghost tx: seq<Byte>,
      ghost replies: seq<Byte>)
    returns (timeEn: bool, result: Result, ghost answered: seq<Byte>)
    requires cfg.Ready() && Told(cfg, seen, tx, replies)
    modifies port`aa, port`dat, cfg`rxCount, cfg`txCount, cfg`status, cfg.rxData
    ensures timeEn == ArmsTimer(Ready(code, data)) && (old(port.aa) ==> port.aa)
    ensures Told(cfg, seen + [Ready(code, data)], tx, answered)
    ensures if Handled(code) then result == Polling
        else result == Error && cfg.status == Status(code, false, false, false)
  {
    hide Told;
    if Handled(code) {
      timeEn, answered := Serve(port, cfg, code, data, seen, tx, replies);
      result := Polling;
    } else {
      ToldIdle(cfg, seen, Ready(code, data), tx, replies);
      cfg.status := Status(code, false, false, false);
      timeEn, result, answered := false, Error, replies;
    }
  }

  // lpc17xx_i2c.c:1120-1125 : SI is not set; an armed timer may run out.
  method QuietPoll(cfg: Setup, timeEn: bool, timeout: nat, code: Byte) returns (next: nat, result: Result)
    modifies cfg`status
    ensures next == if timeEn then timeout + 1 else timeout
    ensures if timeEn && timeout > TIME_OUT then result == Success && cfg.status == Status(code, false, false, true)
            else result == Polling && cfg.status == old(cfg.status)
  {
    next, result := timeout, Polling;
    if timeEn {
      next := timeout + 1;
      if timeout > TIME_OUT {
        cfg.status := Status(code, false, false, true);
        result := Success;
      }
    }
  }

  // lpc17xx_i2c.c:1016-1125 : one look at the SI flag.
  method OnePoll(port: Port, cfg: Setup, p: Poll, armed: bool, timeout: nat, last: Byte,
                 ghost seen: seq<Poll>, ghost tx: seq<Byte>, ghost replies: seq<Byte>)
    returns (timeEn: bool, next: nat, code: Byte, result: Result, ghost answered: seq<Byte>)
    requires cfg.Ready() && Told(cfg, seen, tx, replies) && port.aa
    modifies port`aa, port`dat, cfg`rxCount, cfg`txCount, cfg`status, cfg.rxData
    ensures Told(cfg, seen + [p], tx, answered) && port.aa
    ensures p.Ready? ==> timeEn == ArmsTimer(p) && next == (if timeEn then 0 else timeout) && code == p.code
    ensures p.Ready? ==> if Handled(code) then result == Polling
        else result == Error && cfg.status == Status(code, false, false, false)
    ensures p.Quiet? ==> timeEn == armed && next == (if timeEn then timeout + 1 else timeout) && code == last
    ensures p.Quiet? ==> if armed && timeout > TIME_OUT
        then result == Success && cfg.status == Status(code, false, false, true) else result == Polling
  {
    hide Told, Handled;
    if p.Ready? {
      code := p.code;
      timeEn, result, answered := ReadyPoll(port, cfg, code, p.data, seen, tx, replies);
      next := if timeEn then 0 else timeout;
    } else {
      timeEn, code, answered := armed, last, replies;
      ToldIdle(cfg, seen, p, tx, replies);
      next, result := QuietPoll(cfg, armed, timeout, code);
    }
  }

  // lpc17xx_i2c.c:983-1142 with Opt == I2C_TRANSFER_POLLING, on as many polls as there are.
  method SlaveTransferData(port: Port, cfg: Setup, polls: seq<Poll>)
      returns (result: Result, used: nat, ghost replies: seq<Byte>)
    requires cfg.Ready()
    modifies port`aa, port`dat, cfg, cfg.rxData
    ensures port.aa <==> result == Polling
    ensures used <= |polls|
    ensures result == Polling ==> used == |polls| && forall i :: 0 <= i < |polls| ==> !EndsAt(polls, i)
    ensures result != Polling ==> used > 0 && forall i :: 0 <= i < used - 1 ==> !EndsAt(polls, i)
    ensures result == Error ==>
              FailsAt(polls, used - 1) && cfg.status == Status(polls[used - 1].code, false, false, false)
    ensures result == Success ==>
              StopsAt(polls, used - 1) && cfg.status == Status(polls[used - TIME_OUT - 3].code, false, false, true)
    ensures Told(cfg, polls[..used], old(cfg.Tx()), replies)
  {
    assert Standing(polls, 0, -1, false, 0);
    ghost var tx := cfg.Tx();
    cfg.txCount, cfg.rxCount, cfg.status := 0, 0, NO_STATUS;
    port.aa := true;
    var timeEn, timeout, codeStatus: Byte := false, 0, 0;
    ghost var last := -1;
    result, used, replies := Polling, 0, [];
    assert Told(cfg, polls[..0], tx, []);
    hide Standing, StopsAt, FailsAt, EndsAt, Handled, Told, ArmsTimer, Brings, Asks;
    while used < |polls|
      invariant Standing(polls, used, last, timeEn, timeout)
      invariant last >= 0 ==> codeStatus == polls[last].code
      invariant forall i :: 0 <= i < used ==> !EndsAt(polls, i)
      invariant Told(cfg, polls[..used], tx, replies) && result == Polling && port.aa
    {
      StandingNext(polls, used, last, timeEn, timeout);
      assert polls[..used + 1] == polls[..used] + [polls[used]];
      last := if polls[used].Ready? then used else last;
      timeEn, timeout, codeStatus, result, replies :=
        OnePoll(port, cfg, polls[used], timeEn, timeout, codeStatus, polls[..used], tx, replies);
      if result != Polling {
        port.aa := false;
        return result, used + 1, replies;
      }
      used := used + 1;
    }
  }

  /**
    The master reads the bytes to send in order, and past their end each time the byte I2DAT was left
    with, which the driver does not overwrite with an idle character.
   */
  lemma {:induction false} AnswersInOrder(polls: seq<Poll>, tx: seq<Byte>, i: nat)
    requires i < |Answered(polls, tx)|
    ensures i < |tx| ==> Answered(polls, tx)[i] == tx[i]
    ensures |tx| <= i ==> exists k :: 0 <= k < |polls| && Asks(polls[k]) && Answered(polls, tx)[i] == polls[k].data
                                      && |Answered(polls[..k], tx)| == i
  {
    var n := |polls| - 1;
    if i < |Answered(polls[..n], tx)| {
      AnswersInOrder(polls[..n], tx, i);
      if |tx| <= i {
        var k :| 0 <= k < n && Asks(polls[..n][k]) && Answered(polls[..n], tx)[i] == polls[..n][k].data
                 && |Answered(polls[..n][..k], tx)| == i;
        assert polls[..n][..k] == polls[..k];
      }
    }
  }

  const IDLE_CHAR: Byte := 0xFF

  /** One byte to send, three asked for: the last two answers are stale, not the idle character. */
  lemma StaleAnswers(stale: Byte)
    requires stale != IDLE_CHAR
    ensures var polls := [Ready(READ_ACK, stale), Ready(SENT_ACK, stale), Ready(SENT_ACK, stale)];
            Answered(polls, [1]) == [1, stale, stale]
  {
    var a, b := Ready(READ_ACK, stale), Ready(SENT_ACK, stale);
    OneMorePoll([], a, [1]);
    OneMorePoll([a], b, [1]);
    OneMorePoll([a, b], b, [1]);
    assert [] + [a] == [a] && [a] + [b] == [a, b] && [a, b] + [b] == [a, b, b];
  }
}

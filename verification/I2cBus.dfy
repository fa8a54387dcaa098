/**
  The I2C controller as its driver sees it: control bits, a data register and a status code, and a
  bus that answers each action with any code it likes.
 */
module I2cBus {
  type Byte = x: nat | x < 256
  type Address7 = x: nat | x < 128

  const START: Byte := 0x08
  const RESTART: Byte := 0x10
  const SLAW_ACK: Byte := 0x18
  const SLAW_NACK: Byte := 0x20
  const TX_ACK: Byte := 0x28
  const TX_NACK: Byte := 0x30
  const ARB_LOST: Byte := 0x38
  const SLAR_ACK: Byte := 0x40
  const SLAR_NACK: Byte := 0x48
  const RX_ACK: Byte := 0x50
  const RX_NACK: Byte := 0x58
  const NO_INF: Byte := 0xF8

  // What the controller does on the bus once the driver clears SI.
  datatype Action = Start | Address(octet: Byte) | Send(octet: Byte) | Receive(ack: bool) | Idle | Stop

  // An action, the status code it ended with and what I2DAT then held.
  datatype Event = Event(action: Action, code: Byte, data: Byte)

  const STOPPED := Event(Stop, NO_INF, 0)

  // The low bit of an address octet tells the direction.
  predicate Writes(octet: Byte) { octet % 2 == 0 }

  function Write(a: Address7): (octet: Byte)
    ensures Writes(octet)
  {
    2 * a
  }

  function Read(a: Address7): (octet: Byte)
    ensures !Writes(octet)
  {
    2 * a + 1
  }

  // The action the registers ask for: a START bit wins, otherwise the last code decides.
  function Pending(sta: bool, aa: bool, dat: Byte, stat: Byte): Action {
    if sta then Start
    else if stat in {START, RESTART} then Address(dat)
    else if stat in {SLAW_ACK, SLAW_NACK, TX_ACK, TX_NACK} then Send(dat)
    else if stat in {SLAR_ACK, RX_ACK} then Receive(aa)
    else Idle
  }

  // The action ended as the master wished.
  predicate Expected(action: Action, code: Byte) {
    match action
    case Start => code == START || code == RESTART
    case Address(octet) => code == if Writes(octet) then SLAW_ACK else SLAR_ACK
    case Send(_) => code == TX_ACK
    case Receive(ack) => code == if ack then RX_ACK else RX_NACK
    case Idle => false
    case Stop => code == NO_INF
  }

  predicate MasterCode(code: Byte) {
    START <= code <= RX_NACK && code % 8 == 0
  }

  // The codes a bus within the protocol may answer with: success, a refusal of that very action,
  // lost arbitration, or any code outside the master's own (bus error, addressed as a slave).
  predicate Conforms(action: Action, code: Byte) {
    && code != NO_INF
    && (|| Expected(action, code)
        || code == ARB_LOST
        || !MasterCode(code)
        || (action.Address? && code == if Writes(action.octet) then SLAW_NACK else SLAR_NACK)
        || (action.Send? && code == TX_NACK))
  }

  // ---------- what a transfer should look like on the bus ----------

  function Sends(tx: seq<Byte>): (s: seq<Action>)
    ensures |s| == |tx|
  {
    seq(|tx|, i requires 0 <= i < |tx| => Send(tx[i]))
  }

  function Reads(n: nat): (s: seq<Action>)
    ensures |s| == n
  {
    seq(n, i => Receive(i < n - 1))
  }

  function WritePart(a: Address7, tx: seq<Byte>): (s: seq<Action>)
  {
    if tx == [] then [] else [Address(Write(a))] + Sends(tx)
  }

  function ReadPart(a: Address7, rx: nat): (s: seq<Action>)
  {
    if rx == 0 then [] else [Address(Read(a))] + Reads(rx)
  }

  // START, SLA+W and the bytes, repeated START, SLA+R and the reads; absent phases omitted.
  function Script(a: Address7, tx: seq<Byte>, rx: nat): (s: seq<Action>)
  {
    [Start] + WritePart(a, tx) + (if tx != [] && rx != 0 then [Start] else []) + ReadPart(a, rx)
  }

  // The events follow the script, all of them successful.
  predicate Along(events: seq<Event>, script: seq<Action>) {
    && |events| <= |script|
    && forall i :: 0 <= i < |events| ==> events[i].action == script[i] && Expected(script[i], events[i].code)
  }

  predicate Passed(events: seq<Event>, script: seq<Action>) {
    Along(events, script) && |events| == |script|
  }

  // The events follow the script until the last of them fails.
  predicate Broken(events: seq<Event>, script: seq<Action>) {
    && 0 < |events| <= |script|
    && Along(events[..|events| - 1], script)
    && events[|events| - 1].action == script[|events| - 1]
    && !Expected(script[|events| - 1], events[|events| - 1].code)
  }

  // The bytes read, in order.
  function Collected(events: seq<Event>): seq<Byte> {
    if events == [] then []
    else
      var e := events[|events| - 1];
      var before := Collected(events[..|events| - 1]);
      if e.action.Receive? && Expected(e.action, e.code) then before + [e.data] else before
  }

  // The bytes acknowledged since the slave last accepted a write.
  function Delivered(events: seq<Event>): seq<Byte> {
    if events == [] then []
    else
      var e := events[|events| - 1];
      var before := Delivered(events[..|events| - 1]);
      if !Expected(e.action, e.code) then before
      else if e.action.Address? && e.code == SLAW_ACK then []
      else if e.action.Send? then before + [e.action.octet]
      else before
  }

  // The octet that last addressed a slave since the last START, or -1.
  function Addressed(events: seq<Event>): int {
    if events == [] then -1
    else
      match events[|events| - 1].action
      case Start => -1
      case Address(octet) => octet
      case _ => Addressed(events[..|events| - 1])
  }

  // All events concern the slave at a: its address makes up the upper seven bits of every address octet,
  // whose low bit is 0 where bytes are sent after it and 1 where bytes are read.
  predicate Aimed(events: seq<Event>, a: Address7) {
    events == [] ||
    var before := events[..|events| - 1];
    && Aimed(before, a)
    && match events[|events| - 1].action
       case Address(octet) => octet / 2 == a
       case Send(_) => Addressed(before) / 2 == a && Addressed(before) % 2 == 0
       case Receive(_) => Addressed(before) / 2 == a && Addressed(before) % 2 == 1
       case _ => true
  }

  lemma AimedOneMore(events: seq<Event>, e: Event, a: Address7)
    ensures Addressed(events + [e]) == match e.action
      case Start => -1
      case Address(octet) => octet
      case _ => Addressed(events)
    ensures Aimed(events + [e], a) <==> Aimed(events, a) && match e.action
      case Address(octet) => octet / 2 == a
      case Send(_) => Addressed(events) / 2 == a && Addressed(events) % 2 == 0
      case Receive(_) => Addressed(events) / 2 == a && Addressed(events) % 2 == 1
      case _ => true
  {
    assert (events + [e])[..|events|] == events;
  }

  lemma {:induction false} AimedConcat(x: seq<Event>, y: seq<Event>, a: Address7)
    requires Aimed(x, a) && Aimed(y, a)
    ensures Aimed(x + y, a) && (Addressed(y) >= 0 ==> Addressed(x + y) == Addressed(y))
    decreases |y|
  {
    if y == [] {
      assert x + y == x;
    } else {
      var n := |y| - 1;
      AimedConcat(x, y[..n], a);
      assert y == y[..n] + [y[n]] && x + y == (x + y[..n]) + [y[n]];
      AimedOneMore(y[..n], y[n], a);
      AimedOneMore(x + y[..n], y[n], a);
    }
  }

  function Failures(events: seq<Event>): nat {
    if events == [] then 0
    else
      var e := events[|events| - 1];
      Failures(events[..|events| - 1]) + if Expected(e.action, e.code) then 0 else 1
  }

  lemma Snoc(events: seq<Event>, e: Event)
    ensures var all := events + [e];
            && Collected(all) == (if e.action.Receive? && Expected(e.action, e.code) then Collected(events) + [e.data]
                else Collected(events))
            && Failures(all) == Failures(events) + (if Expected(e.action, e.code) then 0 else 1)
            && Delivered(all) == if !Expected(e.action, e.code) then Delivered(events)
                                 else if e.action.Address? && e.code == SLAW_ACK then []
                                 else if e.action.Send? then Delivered(events) + [e.action.octet]
                                 else Delivered(events)
  {
    assert (events + [e])[..|events|] == events;
  }

  lemma AlongOneMore(events: seq<Event>, script: seq<Action>, e: Event)
    requires Along(events, script) && |events| < |script| && e.action == script[|events|]
    ensures Expected(e.action, e.code) ==> Along(events + [e], script)
    ensures Expected(e.action, e.code) && |events| + 1 == |script| ==> Passed(events + [e], script)
    ensures !Expected(e.action, e.code) ==> Broken(events + [e], script)
  {
    assert (events + [e])[..|events|] == events;
  }

  // Length of the script up to the end of its write phase.
  function WriteEnd(tx: seq<Byte>): (w: nat) { if tx == [] then 1 else 2 + |tx| }

  // Where SLA+R stands, if anything is read.
  function ReadAt(tx: seq<Byte>, rx: nat): (r: nat) { if tx != [] && rx != 0 then WriteEnd(tx) + 1 else WriteEnd(tx) }

  lemma AlongStart(script: seq<Action>)
    ensures Along([], script) && Collected([]) == []
  {}

  /** Where the actions of the write phase sit in the script. */
  lemma ScriptWrites(a: Address7, tx: seq<Byte>, rx: nat)
    ensures var s := Script(a, tx, rx);
            && |s| >= WriteEnd(tx) && s[0] == Start
            && (tx != [] ==> s[1] == Address(Write(a)))
            && (forall i :: 0 <= i < |tx| ==> s[2 + i] == Send(tx[i]))
  {
    var head := [Start] + WritePart(a, tx);
    assert Script(a, tx, rx) == head + ((if tx != [] && rx != 0 then [Start] else []) + ReadPart(a, rx));
    assert |head| == WriteEnd(tx);
    forall i | 0 <= i < |tx| ensures head[2 + i] == Send(tx[i]) {
      assert head[2 + i] == Sends(tx)[i];
    }
  }

  /** Where the actions of the read phase sit in the script. */
  lemma ScriptReads(a: Address7, tx: seq<Byte>, rx: nat)
    ensures var s := Script(a, tx, rx);
            var r := ReadAt(tx, rx);
            && |s| == (if rx == 0 then WriteEnd(tx) else r + 1 + rx)
            && (tx != [] && rx != 0 ==> s[WriteEnd(tx)] == Start)
            && (rx != 0 ==> s[r] == Address(Read(a)))
            && (forall j :: rx != 0 && r < j <= r + rx ==> s[j] == Receive(j < r + rx))
  {
    var head := [Start] + WritePart(a, tx) + if tx != [] && rx != 0 then [Start] else [];
    assert |[Start] + WritePart(a, tx)| == WriteEnd(tx);
    assert |head| == ReadAt(tx, rx);
    if rx != 0 {
      forall j | |head| < j <= |head| + rx ensures (head + ReadPart(a, rx))[j] == Receive(j < |head| + rx) {
        assert (head + ReadPart(a, rx))[j] == Reads(rx)[j - |head| - 1];
      }
    }
  }

  // ---------- the controller ----------

  class Port {
    var sta: bool
    var aa: bool
    var dat: Byte
    var stat: Byte
    ghost var trace: seq<Event>

    // SI cleared: the controller acts and the bus answers.
    method Transact()
      modifies this`dat, this`stat, this`trace
      ensures trace == old(trace) + [Event(old(Pending(sta, aa, dat, stat)), stat, dat)]
    {
      ghost var action := Pending(sta, aa, dat, stat);
      stat := *;
      dat := *;
      trace := trace + [Event(action, stat, dat)];
    }

    // lpc17xx_i2c.c:122-131
    method StartCondition() returns (code: Byte)
      modifies this
      ensures code == stat && !sta && aa == old(aa)
      ensures trace == old(trace) + [Event(Start, stat, dat)]
    {
      sta := true;
      Transact();
      sta := false;
      code := stat;
    }

    // lpc17xx_i2c.c:141-151
    method StopCondition()
      modifies this
      ensures !sta && aa == old(aa) && stat == old(stat) && dat == old(dat)
      ensures trace == old(trace) + [STOPPED]
    {
      if sta {
        sta := false;
      }
      trace := trace + [STOPPED];
    }

    // lpc17xx_i2c.c:162-174
    method SendByte(databyte: Byte) returns (code: Byte)
      modifies this
      ensures code == stat && !sta && aa == old(aa)
      ensures trace == old(trace) + [Event(Pending(false, old(aa), databyte, old(stat)), stat, dat)]
    {
      if sta {
        sta := false;
      }
      dat := databyte;
      Transact();
      code := stat;
    }

    // lpc17xx_i2c.c:186-201
    method GetByte(ack: bool) returns (retdat: Byte, code: Byte)
      modifies this
      ensures code == stat && retdat == dat && sta == old(sta) && aa == ack
      ensures trace == old(trace) + [Event(Pending(sta, ack, old(dat), old(stat)), stat, dat)]
    {
      aa := ack;
      Transact();
      retdat, code := dat, stat;
    }
  }
}

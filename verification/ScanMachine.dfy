/**
  The anchor node's event machine: timers and stack packets drive scanning and advertising.  The flags
  are eight-bit, and what the node sends is recorded in order.
 */
module ScanMachine {
  type Byte = x: nat | x < 256

  const HCI_EVENT_PACKET: Byte := 0x04
  const BTSTACK_EVENT_STATE: Byte := 0x60
  const HCI_LE_EXT_EVENT: Byte := 0xFF
  const HCI_STATE_WORKING: Byte := 2
  const GAP_DEVICE_INIT_DONE := 0x0600
  const GAP_DEVICE_DISCOVERY_DONE := 0x0601
  const GAP_ADVERT_DATA_UPDATE := 0x0602
  const GAP_END_DISCOVERABLE_EVENT := 0x0604
  const GAP_SET_PARAM := 0xFE30
  const GAP_CONFIG_DEVICE_ADDR := 0xFE03
  const GAP_MAKE_DISCOVERABLE := 0xFE06

  // The advertising data sent are what EBN_Get_Advert returns, or four bytes of 0xFF in place of its null.
  datatype Command =
    | DeviceInit
    | DeviceDiscoveryRequest
    | SetParam(id: nat, value: nat)
    | ConfigDeviceAddr
    | UpdateAdvertisingData(kind: nat, asReturned: bool)
    | MakeDiscoverable
    | EndDiscoverable

  // What happens to the node.  canSend, rolledOver and hasAdvert are what the stack and the EBN core
  // answer when asked.
  datatype Event =
    | ScanTimer(canSend: bool)
    | EpochTimer(rolledOver: bool)
    | Packet(kind: Byte, bytes: seq<Byte>, hasAdvert: bool)

  datatype State = State(
    startScan: Byte, scanningNow: bool, state: bool, changingAddr: bool, broadcasting: bool, paramState: Byte,
    sent: seq<Command>)

  const INITIAL := State(0, false, false, false, false, 0, [])

  function ReadBt16(packet: seq<Byte>, pos: nat): nat
    requires pos + 1 < |packet|
  {
    var low: nat, high: nat := packet[pos], packet[pos + 1];
    low + 256 * high
  }

  // Eight-bit wrap-around.
  function Low8(n: nat): Byte { n % 256 }

  function Plus(a: Byte, b: Byte): Byte {
    var x: nat, y: nat := a, b;
    Low8(x + y)
  }

  // The bytes the handler looks at are there.
  predicate LongEnough(kind: Byte, b: seq<Byte>) {
    kind == HCI_EVENT_PACKET ==>
      |b| >= 1 && (b[0] == BTSTACK_EVENT_STATE ==> |b| >= 3) && (b[0] == HCI_LE_EXT_EVENT ==> |b| >= 7)
  }

  predicate Readable(e: Event) { e.Packet? ==> LongEnough(e.kind, e.bytes) }

  // ---------- what a packet means ----------

  datatype Meaning =
    | StackWorking
    | InitDone
    | ParamSet(step: nat)
    | AddressSet
    | AdvertSet
    | ResponseSet
    | Advertising
    | AdvertisingEnded
    | DiscoveryDone(found: Byte)
    | Nothing

  // Only the bytes decide, except that an answer to set-parameter counts in its turn.
  function Meant(kind: Byte, b: seq<Byte>, paramState: Byte): Meaning
    requires LongEnough(kind, b)
  {
    if kind != HCI_EVENT_PACKET then Nothing
    else if b[0] == BTSTACK_EVENT_STATE then if b[2] == HCI_STATE_WORKING then StackWorking else Nothing
    else if b[0] == HCI_LE_EXT_EVENT then ExtMeant(b, paramState)
    else Nothing
  }

  function ExtMeant(b: seq<Byte>, paramState: Byte): Meaning
    requires |b| >= 7
  {
    var event, opcode := ReadBt16(b, 2), ReadBt16(b, 5);
    if event == GAP_DEVICE_INIT_DONE then InitDone
    else if opcode == GAP_SET_PARAM && 1 <= paramState <= 3 then ParamSet(paramState)
    else if opcode == GAP_CONFIG_DEVICE_ADDR then AddressSet
    else if event == GAP_ADVERT_DATA_UPDATE && b[5] == 1 then AdvertSet
    else if event == GAP_ADVERT_DATA_UPDATE && b[5] == 0 then ResponseSet
    else if opcode == GAP_MAKE_DISCOVERABLE then Advertising
    else if event == GAP_END_DISCOVERABLE_EVENT then AdvertisingEnded
    else if event == GAP_DEVICE_DISCOVERY_DONE then DiscoveryDone(b[5])
    else Nothing
  }

  function Sending(s: State, c: Command): State { s.(sent := s.sent + [c]) }

  function Understood(s: State, m: Meaning, hasAdvert: bool): State {
    match m
    case StackWorking => Sending(s, DeviceInit)
    case InitDone => Sending(s, SetParam(1, 0)).(paramState := Plus(s.paramState, 1))
    case ParamSet(step) =>
      if step == 1 then Sending(s, SetParam(8, 0x320)).(paramState := 2)
      else if step == 2 then Sending(s, SetParam(9, 0x960)).(paramState := 3)
      else Sending(s, ConfigDeviceAddr)
    case AddressSet => Sending(s, UpdateAdvertisingData(1, hasAdvert))
    case AdvertSet => Sending(s, UpdateAdvertisingData(0, hasAdvert))
    case ResponseSet => (if s.broadcasting then s else Sending(s, MakeDiscoverable)).(state := true, startScan := 1)
    case Advertising => s.(broadcasting := true)
    case AdvertisingEnded => Sending(s, ConfigDeviceAddr).(broadcasting := false)
    case DiscoveryDone(found) => s.(startScan := Plus(s.startScan, found), scanningNow := false)
    case Nothing => s
  }

  predicate Scans(s: State, canSend: bool) { canSend && s.startScan == 1 && !s.scanningNow }

  function After(s: State, e: Event): State
    requires Readable(e)
  {
    match e
    case ScanTimer(canSend) =>
      if Scans(s, canSend) then Sending(s, DeviceDiscoveryRequest).(scanningNow := true) else s
    case EpochTimer(rolledOver) =>
      Sending(if rolledOver && s.state then Sending(s, EndDiscoverable).(changingAddr := true) else s,
              UpdateAdvertisingData(1, true))
    case Packet(kind, bytes, hasAdvert) => Understood(s, Meant(kind, bytes, s.paramState), hasAdvert)
  }

  // ---------- the handlers ----------

  class Node {
    var startScan: Byte
    var scanningNow: bool
    var state: bool
    var changingAddr: bool
    var broadcasting: bool
    var paramState: Byte
    var sent: seq<Command>

    constructor ()
      ensures View() == INITIAL
    {
      startScan, scanningNow, state, changingAddr := 0, false, false, false;
      broadcasting, paramState, sent := false, 0, [];
    }

    function View(): State
      reads this
    {
      State(startScan, scanningNow, state, changingAddr, broadcasting, paramState, sent)
    }

    method Send(c: Command)
      modifies this`sent
      ensures View() == Sending(old(View()), c)
    {
      sent := sent + [c];
    }

    // main.c:53-63
    method ScanHandler(canSend: bool)
      modifies this
      ensures View() == After(old(View()), ScanTimer(canSend))
    {
      if canSend && startScan == 1 && !scanningNow {
        Send(DeviceDiscoveryRequest);
        scanningNow := true;
      }
    }

    // main.c:64-75
    method EpochChangeHandler(rolledOver: bool)
      modifies this
      ensures View() == After(old(View()), EpochTimer(rolledOver))
    {
      if rolledOver && state {
        Send(EndDiscoverable);
        changingAddr := true;
      }
      Send(UpdateAdvertisingData(1, true));
    }

    // main.c:78-212
    method PacketHandler(packetType: Byte, packet: seq<Byte>, hasAdvert: bool)
      requires LongEnough(packetType, packet)
      modifies this
      ensures View() == After(old(View()), Packet(packetType, packet, hasAdvert))
    {
      if packetType == HCI_EVENT_PACKET {
        if packet[0] == BTSTACK_EVENT_STATE {
          if packet[2] == HCI_STATE_WORKING {
            Send(DeviceInit);
          }
        } else if packet[0] == HCI_LE_EXT_EVENT {
          ExtEvent(packet, hasAdvert);
        }
      }
    }

    // main.c:101-202 : the tests in order, the first that holds decides.
    method ExtEvent(packet: seq<Byte>, hasAdvert: bool)
      requires |packet| >= 7
      modifies this
      ensures View() == Understood(old(View()), ExtMeant(packet, old(paramState)), hasAdvert)
    {
      if ReadBt16(packet, 2) == GAP_DEVICE_INIT_DONE {
        Send(SetParam(1, 0));
        paramState := Plus(paramState, 1);
        return;
      }
      if ReadBt16(packet, 5) == GAP_SET_PARAM && paramState == 1 {
        Send(SetParam(8, 0x320));
        paramState := Plus(paramState, 1);
        return;
      }
      if ReadBt16(packet, 5) == GAP_SET_PARAM && paramState == 2 {
        Send(SetParam(9, 0x960));
        paramState := Plus(paramState, 1);
        return;
      }
      if ReadBt16(packet, 5) == GAP_SET_PARAM && paramState == 3 {
        Send(ConfigDeviceAddr);
        return;
      }
      if ReadBt16(packet, 5) == GAP_CONFIG_DEVICE_ADDR {
        Send(UpdateAdvertisingData(1, hasAdvert));
        return;
      }
      if ReadBt16(packet, 2) == GAP_ADVERT_DATA_UPDATE && packet[5] == 1 {
        Send(UpdateAdvertisingData(0, hasAdvert));
        return;
      }
      if ReadBt16(packet, 2) == GAP_ADVERT_DATA_UPDATE && packet[5] == 0 {
        if !broadcasting {
          Send(MakeDiscoverable);
        }
        state := true;
        startScan := 1;
        return;
      }
      if ReadBt16(packet, 5) == GAP_MAKE_DISCOVERABLE {
        broadcasting := true;
        return;
      }
      if ReadBt16(packet, 2) == GAP_END_DISCOVERABLE_EVENT {
        broadcasting := false;
        Send(ConfigDeviceAddr);
        return;
      }
      if ReadBt16(packet, 2) == GAP_DEVICE_DISCOVERY_DONE {
        startScan := Plus(startScan, packet[5]);
        scanningNow := false;
      }
    }
  }

  // ---------- whole runs ----------

  predicate AllReadable(events: seq<Event>) {
    forall i :: 0 <= i < |events| ==> Readable(events[i])
  }

  function Run(events: seq<Event>): State
    requires AllReadable(events)
  {
    if events == [] then INITIAL else After(Run(events[..|events| - 1]), events[|events| - 1])
  }

  // What each packet of a run meant when it came.
  function Heard(events: seq<Event>): seq<Meaning>
    requires AllReadable(events)
  {
    if events == [] then []
    else
      var before, e := events[..|events| - 1], events[|events| - 1];
      Heard(before) + if e.Packet? then [Meant(e.kind, e.bytes, Run(before).paramState)] else []
  }

  function Dones(heard: seq<Meaning>): nat {
    if heard == [] then 0
    else Dones(heard[..|heard| - 1]) + if heard[|heard| - 1].DiscoveryDone? then 1 else 0
  }

  function Requests(sent: seq<Command>): nat {
    if sent == [] then 0
    else Requests(sent[..|sent| - 1]) + if sent[|sent| - 1].DeviceDiscoveryRequest? then 1 else 0
  }

  predicate HasSetup(heard: seq<Meaning>) { ResponseSet in heard }

  // Devices found by the discoveries that ended since the last scan-response setup.
  function FoundSince(heard: seq<Meaning>): nat {
    if heard == [] || heard[|heard| - 1] == ResponseSet then 0
    else FoundSince(heard[..|heard| - 1]) + if heard[|heard| - 1].DiscoveryDone? then heard[|heard| - 1].found else 0
  }

  lemma HeardOneMore(heard: seq<Meaning>, m: Meaning)
    ensures Dones(heard + [m]) == Dones(heard) + if m.DiscoveryDone? then 1 else 0
    ensures FoundSince(heard + [m]) == if m == ResponseSet then 0 else FoundSince(heard) + if m.DiscoveryDone?
        then m.found else 0
    ensures HasSetup(heard + [m]) <==> HasSetup(heard) || m == ResponseSet
  {
    assert (heard + [m])[..|heard|] == heard;
  }

  lemma SentOneMore(sent: seq<Command>, c: Command)
    ensures Requests(sent + [c]) == Requests(sent) + if c.DeviceDiscoveryRequest? then 1 else 0
  {
    assert (sent + [c])[..|sent|] == sent;
  }

  /**
    In every run, and so at every moment of it, discovery requests are at most one ahead of the ended
    discoveries the node took note of, and none is ahead unless a scan is running.
   */
  lemma {:induction false} OneRequestAhead(events: seq<Event>)
    requires AllReadable(events)
    ensures Requests(Run(events).sent) <= Dones(Heard(events)) + if Run(events).scanningNow then 1 else 0
  {
    if events != [] {
      var before, e := events[..|events| - 1], events[|events| - 1];
      HeardOnlyPackets(events);
      hide AllReadable, Heard, Run, Meant, Requests, Dones;
      OneRequestAhead(before);
      if e.Packet? {
        var m := Meant(e.kind, e.bytes, Run(before).paramState);
        HeardOneMore(Heard(before), m);
        UnderstoodRequestsNothing(Run(before), m, e.hasAdvert);
      } else {
        TimerRequests(Run(before), e);
      }
    }
  }

  // A timer sends a request only when none is under way.
  lemma TimerRequests(s: State, e: Event)
    requires !e.Packet?
    ensures var t := After(s, e);
            if !s.scanningNow && t.scanningNow then Requests(t.sent) == Requests(s.sent) + 1
            else Requests(t.sent) == Requests(s.sent) && t.scanningNow == s.scanningNow
  {
    match e
    case ScanTimer(_) => SentOneMore(s.sent, DeviceDiscoveryRequest);
    case EpochTimer(_) =>
      SentOneMore(s.sent, EndDiscoverable);
      SentOneMore(s.sent, UpdateAdvertisingData(1, true));
      SentOneMore(s.sent + [EndDiscoverable], UpdateAdvertisingData(1, true));
  }

  lemma UnderstoodRequestsNothing(s: State, m: Meaning, hasAdvert: bool)
    ensures Requests(Understood(s, m, hasAdvert).sent) == Requests(s.sent)
  {
    var t := Understood(s, m, hasAdvert);
    if t.sent != s.sent {
      SentOneMore(s.sent, t.sent[|s.sent|]);
    }
  }

  lemma PlusMod(a: nat, b: Byte)
    ensures Plus(Low8(a), b) == Low8(a + b)
  {
    var q, r := a / 256, a % 256;
    assert a + b == 256 * q + (r + b);
    ModShift(q, r + b);
  }

  lemma ModShift(q: nat, x: nat)
    ensures (256 * q + x) % 256 == x % 256
  {
    var p, y := x / 256, x % 256;
    assert 256 * q + x == 256 * (q + p) + y;
  }

  lemma HeardOnlyPackets(events: seq<Event>)
    requires AllReadable(events) && events != []
    ensures var before, e := events[..|events| - 1], events[|events| - 1];
            && AllReadable(before) && Readable(e) && Run(events) == After(Run(before), e)
            && Heard(events) == if e.Packet? then Heard(before) + [Meant(e.kind, e.bytes, Run(before).paramState)]
                else Heard(before)
  {}

  // One for the set-up, and the devices found since.
  function Total(heard: seq<Meaning>): nat {
    (if HasSetup(heard) then 1 else 0) + FoundSince(heard)
  }

  /**
    START_SCAN is a running total in eight bits: one, once the scan response has been set up, plus every
    device found since.
   */
  lemma {:induction false} StartScanIs(events: seq<Event>)
    requires AllReadable(events)
    ensures Run(events).startScan == Low8(Total(Heard(events)))
  {
    if events != [] {
      var before, e := events[..|events| - 1], events[|events| - 1];
      HeardOnlyPackets(events);
      hide AllReadable, Heard, Run, Meant, Total, Low8;
      StartScanIs(before);
      if e.Packet? {
        TotalStep(Run(before), Heard(before), Meant(e.kind, e.bytes, Run(before).paramState), e.hasAdvert);
      }
    }
  }

  lemma TotalStep(s: State, heard: seq<Meaning>, m: Meaning, hasAdvert: bool)
    requires s.startScan == Low8(Total(heard))
    ensures Understood(s, m, hasAdvert).startScan == Low8(Total(heard + [m]))
  {
    HeardOneMore(heard, m);
    NextSmall(1);
    hide FoundSince, Plus, Low8, HasSetup;
    if m.DiscoveryDone? {
      PlusMod(Total(heard), m.found);
      assert Total(heard + [m]) == Total(heard) + m.found;
    }
  }

  /**
    When the timer fires, a scan is asked for exactly when the stack can send, no scan is running and
    the running total is one: once set up, when the devices found since number a multiple of 256.
   */
  lemma RequestIff(events: seq<Event>, canSend: bool)
    requires AllReadable(events)
    ensures Run(events + [ScanTimer(canSend)]).sent == Run(events).sent + [DeviceDiscoveryRequest] <==>
              canSend && !Run(events).scanningNow && Low8(Total(Heard(events))) == 1
    ensures HasSetup(Heard(events)) ==> (Low8(Total(Heard(events))) == 1 <==> FoundSince(Heard(events)) % 256 == 0)
  {
    assert (events + [ScanTimer(canSend)])[..|events|] == events;
    StartScanIs(events);
    hide FoundSince, Heard;
    OneMoreWraps(FoundSince(Heard(events)));
  }

  lemma OneMoreWraps(n: nat)
    ensures (1 + n) % 256 == 1 <==> n % 256 == 0
  {}

  // ---------- advertising ----------

  // Advertising was heard to start, and not to end since.
  ghost predicate OnAir(heard: seq<Meaning>) {
    exists i :: 0 <= i < |heard| && heard[i] == Advertising
                && forall j :: i < j < |heard| ==> heard[j] != AdvertisingEnded
  }

  lemma OnAirOneMore(heard: seq<Meaning>, m: Meaning)
    ensures OnAir(heard + [m]) <==> m == Advertising || (m != AdvertisingEnded && OnAir(heard))
  {
    var more := heard + [m];
    if m == Advertising {
      assert more[|heard|] == Advertising;
    }
    if m != AdvertisingEnded && OnAir(heard) {
      var i :| 0 <= i < |heard| && heard[i] == Advertising
               && forall j :: i < j < |heard| ==> heard[j] != AdvertisingEnded;
      assert more[i] == Advertising;
    }
    if OnAir(more) && m != Advertising {
      var i :| 0 <= i < |more| && more[i] == Advertising
               && forall j :: i < j < |more| ==> more[j] != AdvertisingEnded;
      assert more[|heard|] == m && heard[i] == Advertising;
      assert forall j :: i < j < |heard| ==> heard[j] == more[j];
    }
  }

  ghost predicate FlagsAre(s: State, heard: seq<Meaning>) {
    && (s.broadcasting <==> OnAir(heard)) && (s.state <==> ResponseSet in heard)
    && (s.changingAddr <==> EndDiscoverable in s.sent)
  }

  lemma UnderstoodFlags(s: State, heard: seq<Meaning>, m: Meaning, hasAdvert: bool)
    requires FlagsAre(s, heard)
    ensures FlagsAre(Understood(s, m, hasAdvert), heard + [m])
  {
    OnAirOneMore(heard, m);
    hide OnAir, Plus;
  }

  lemma TimerFlags(s: State, heard: seq<Meaning>, e: Event)
    requires FlagsAre(s, heard) && !e.Packet?
    ensures FlagsAre(After(s, e), heard)
  {
    hide OnAir;
  }

  /**
    In every run the node takes itself to be advertising exactly when advertising was heard to start and
    not to end since; it is active once the scan response was set up; and it is changing its address once
    it has asked for advertising to end.
   */
  lemma {:induction false} FlagsTell(events: seq<Event>)
    requires AllReadable(events)
    ensures FlagsAre(Run(events), Heard(events))
  {
    if events != [] {
      var before, e := events[..|events| - 1], events[|events| - 1];
      HeardOnlyPackets(events);
      hide AllReadable, Heard, Run, Meant, FlagsAre, Understood;
      FlagsTell(before);
      if e.Packet? {
        UnderstoodFlags(Run(before), Heard(before), Meant(e.kind, e.bytes, Run(before).paramState), e.hasAdvert);
      } else {
        TimerFlags(Run(before), Heard(before), e);
      }
    }
  }

  // The command an understood packet has the node send, told by what was heard before it.
  ghost function Reply(m: Meaning, heard: seq<Meaning>, hasAdvert: bool): seq<Command> {
    match m
    case StackWorking => [DeviceInit]
    case InitDone => [SetParam(1, 0)]
    case ParamSet(step) => [if step == 1 then SetParam(8, 800) else if step == 2 then SetParam(9, 2400)
        else ConfigDeviceAddr]
    case AddressSet => [UpdateAdvertisingData(1, hasAdvert)]
    case AdvertSet => [UpdateAdvertisingData(0, hasAdvert)]
    case ResponseSet => if OnAir(heard) then [] else [MakeDiscoverable]
    case AdvertisingEnded => [ConfigDeviceAddr]
    case Advertising | DiscoveryDone(_) | Nothing => []
  }

  /**
    What any event has the node send after any run, told by what was heard: it makes itself discoverable
    exactly when the scan response is set up while it is not on air, and ends that exactly when the epoch
    rolls over after a set-up.
   */
  lemma SendsByHistory(events: seq<Event>, e: Event)
    requires AllReadable(events) && Readable(e)
    ensures AllReadable(events + [e])
    ensures var heard := Heard(events);
            Run(events + [e]).sent == Run(events).sent +
              match e
              case ScanTimer(canSend) =>
                if canSend && !Run(events).scanningNow && Low8(Total(heard)) == 1 then [DeviceDiscoveryRequest] else []
              case EpochTimer(rolledOver) =>
                (if rolledOver && ResponseSet in heard then [EndDiscoverable] else [])
                + [UpdateAdvertisingData(1, true)]
              case Packet(kind, bytes, hasAdvert) =>
                Reply(Meant(kind, bytes, Run(events).paramState), heard, hasAdvert)
  {
    RunOneMore(events, e);
    hide AllReadable, Heard, Run, OnAir, Total, Low8, Understood, Reply;
    FlagsTell(events);
    StartScanIs(events);
    if e.Packet? {
      hide Meant;
      UnderstoodSends(Run(events), Meant(e.kind, e.bytes, Run(events).paramState), Heard(events), e.hasAdvert);
    }
  }

  lemma UnderstoodSends(s: State, m: Meaning, heard: seq<Meaning>, hasAdvert: bool)
    requires s.broadcasting <==> OnAir(heard)
    ensures Understood(s, m, hasAdvert).sent == s.sent + Reply(m, heard, hasAdvert)
  {
    hide OnAir, Plus;
  }

  // ---------- a bring-up, byte by byte ----------

  function Ext(b2: Byte, b3: Byte, b5: Byte, b6: Byte): Event { Packet(4, [0xFF, 0, b2, b3, 0, b5, b6], true) }

  // The stack starts and every command is answered; then the scan response is set up again, advertising
  // ends, the scan timer fires, three devices are found and it fires again.
  function BringUp(): (events: seq<Event>)
    ensures |events| == 14
  {
    [Packet(4, [0x60, 1, 2], true), Ext(0x00, 0x06, 0, 0), Ext(0x7F, 0x06, 0x30, 0xFE), Ext(0x7F, 0x06, 0x30, 0xFE),
     Ext(0x7F, 0x06, 0x30, 0xFE), Ext(0x7F, 0x06, 0x03, 0xFE), Ext(0x02, 0x06, 1, 0), Ext(0x02, 0x06, 0, 0),
     Ext(0x7F, 0x06, 0x06, 0xFE), Ext(0x02, 0x06, 0, 0), Ext(0x04, 0x06, 0, 0), ScanTimer(true),
     Ext(0x01, 0x06, 3, 0), ScanTimer(true)]
  }

  // And what the node sends meanwhile.
  function BringUpSent(): (sent: seq<Command>)
    ensures |sent| == 10
  {
    [DeviceInit, SetParam(1, 0), SetParam(8, 800), SetParam(9, 2400), ConfigDeviceAddr,
     UpdateAdvertisingData(1, true), UpdateAdvertisingData(0, true), MakeDiscoverable, ConfigDeviceAddr,
     DeviceDiscoveryRequest]
  }

  // The first n events lead to these flags and the first k commands.
  predicate BroughtTo(n: nat, flags: State, k: nat)
    requires n <= 14 && k <= 10
  {
    AllReadable(BringUp()[..n]) && Run(BringUp()[..n]) == flags.(sent := BringUpSent()[..k])
  }

  // What is sent does not depend on what was sent before.
  lemma SendsAfter(flags: State, sent: seq<Command>, e: Event)
    requires Readable(e) && flags.sent == []
    ensures After(flags.(sent := sent), e) == After(flags, e).(sent := sent + After(flags, e).sent)
  {
    hide Understood, Meant;
    match e
    case ScanTimer(_) =>
    case EpochTimer(_) =>
      assert sent + [EndDiscoverable] + [UpdateAdvertisingData(1, true)]
          == sent + [EndDiscoverable, UpdateAdvertisingData(1, true)];
    case Packet(kind, bytes, hasAdvert) =>
      UnderstoodAppends(flags, sent, Meant(kind, bytes, flags.paramState), hasAdvert);
  }

  lemma UnderstoodAppends(flags: State, sent: seq<Command>, m: Meaning, hasAdvert: bool)
    requires flags.sent == []
    ensures Understood(flags.(sent := sent), m, hasAdvert)
         == Understood(flags, m, hasAdvert).(sent := sent + Understood(flags, m, hasAdvert).sent)
  {
    var heard := if flags.broadcasting then [Advertising] else [];
    assert OnAir(heard) <==> flags.broadcasting by {
      OnAirOneMore([], Advertising);
      assert [] + [Advertising] == [Advertising];
    }
    UnderstoodSends(flags, m, heard, hasAdvert);
    UnderstoodSends(flags.(sent := sent), m, heard, hasAdvert);
    UnderstoodFields(flags, m, hasAdvert);
    UnderstoodFields(flags.(sent := sent), m, hasAdvert);
    hide Understood, Reply, OnAir, Plus;
  }

  // What a packet does to each flag.
  lemma UnderstoodFields(s: State, m: Meaning, hasAdvert: bool)
    ensures var t := Understood(s, m, hasAdvert);
            && t.startScan == (if m == ResponseSet then 1 else if m.DiscoveryDone? then Plus(s.startScan, m.found)
                else s.startScan)
            && (t.scanningNow <==> s.scanningNow && !m.DiscoveryDone?)
            && (t.state <==> s.state || m == ResponseSet) && t.changingAddr == s.changingAddr
            && (t.broadcasting <==> m == Advertising || (s.broadcasting && m != AdvertisingEnded))
            && t.paramState == match m
               case InitDone => Plus(s.paramState, 1)
               case ParamSet(step) => if step == 1 then 2 else if step == 2 then 3 else s.paramState
               case _ => s.paramState
  {
    hide Plus;
  }

  lemma BringUpStep(n: nat, s: State, k: nat, e: Event, t: State, c: seq<Command>)
    requires n < 14 && k + |c| <= 10 && BroughtTo(n, s, k) && BringUp()[n] == e && s.sent == []
    requires Readable(e) && After(s, e) == t.(sent := c)
    requires c == [] || (|c| == 1 && BringUpSent()[k] == c[0])
    ensures BroughtTo(n + 1, t, k + |c|)
  {
    var events, sent := BringUp(), BringUpSent();
    hide BringUp, BringUpSent, After, Readable, AllReadable, Run;
    SendsAfter(s, sent[..k], e);
    RunOneMore(events[..n], e);
    assert events[..n + 1] == events[..n] + [e];
    assert sent[..k + |c|] == sent[..k] + c;
  }

  lemma RunOneMore(events: seq<Event>, e: Event)
    requires AllReadable(events) && Readable(e)
    ensures AllReadable(events + [e]) && Run(events + [e]) == After(Run(events), e)
  {
    assert (events + [e])[..|events|] == events;
    hide After, Readable;
  }

  lemma ParametersSet()
    ensures BroughtTo(4, State(0, false, false, false, false, 3, []), 4)
  {
    assert BroughtTo(0, INITIAL, 0);
    hide BroughtTo;
    BringUpStep(0, State(0, false, false, false, false, 0, []), 0, Packet(4, [0x60, 1, 2], true),
        State(0, false, false, false, false, 0, []), [DeviceInit]);
    BringUpStep(1, State(0, false, false, false, false, 0, []), 1, Ext(0x00, 0x06, 0, 0),
        State(0, false, false, false, false, 1, []), [SetParam(1, 0)]);
    BringUpStep(2, State(0, false, false, false, false, 1, []), 2, Ext(0x7F, 0x06, 0x30, 0xFE),
        State(0, false, false, false, false, 2, []), [SetParam(8, 800)]);
    BringUpStep(3, State(0, false, false, false, false, 2, []), 3, Ext(0x7F, 0x06, 0x30, 0xFE),
        State(0, false, false, false, false, 3, []), [SetParam(9, 2400)]);
  }

  lemma AdvertSent()
    ensures BroughtTo(7, State(0, false, false, false, false, 3, []), 7)
  {
    hide BroughtTo;
    ParametersSet();
    BringUpStep(4, State(0, false, false, false, false, 3, []), 4, Ext(0x7F, 0x06, 0x30, 0xFE),
        State(0, false, false, false, false, 3, []), [ConfigDeviceAddr]);
    BringUpStep(5, State(0, false, false, false, false, 3, []), 5, Ext(0x7F, 0x06, 0x03, 0xFE),
        State(0, false, false, false, false, 3, []), [UpdateAdvertisingData(1, true)]);
    BringUpStep(6, State(0, false, false, false, false, 3, []), 6, Ext(0x02, 0x06, 1, 0),
        State(0, false, false, false, false, 3, []), [UpdateAdvertisingData(0, true)]);
  }

  lemma Advertised()
    ensures BroughtTo(10, State(1, false, true, false, true, 3, []), 8)
  {
    hide BroughtTo;
    AdvertSent();
    BringUpStep(7, State(0, false, false, false, false, 3, []), 7, Ext(0x02, 0x06, 0, 0),
        State(1, false, true, false, false, 3, []), [MakeDiscoverable]);
    BringUpStep(8, State(1, false, true, false, false, 3, []), 8, Ext(0x7F, 0x06, 0x06, 0xFE),
        State(1, false, true, false, true, 3, []), []);
    BringUpStep(9, State(1, false, true, false, true, 3, []), 8, Ext(0x02, 0x06, 0, 0),
        State(1, false, true, false, true, 3, []), []);
  }

  /**
    The node configures itself, advertises once, takes note that advertising ended, and scans once; with
    three devices found it does not scan again.
   */
  lemma BroughtUp()
    ensures BroughtTo(14, State(4, false, true, false, false, 3, []), 10)
  {
    hide BroughtTo;
    Advertised();
    BringUpStep(10, State(1, false, true, false, true, 3, []), 8, Ext(0x04, 0x06, 0, 0),
        State(1, false, true, false, false, 3, []), [ConfigDeviceAddr]);
    BringUpStep(11, State(1, false, true, false, false, 3, []), 9, ScanTimer(true),
        State(1, true, true, false, false, 3, []), [DeviceDiscoveryRequest]);
    BringUpStep(12, State(1, true, true, false, false, 3, []), 10, Ext(0x01, 0x06, 3, 0),
        State(4, false, true, false, false, 3, []), []);
    BringUpStep(13, State(4, false, true, false, false, 3, []), 10, ScanTimer(true),
        State(4, false, true, false, false, 3, []), []);
  }

  // ---------- advertising parameters ----------

  function ParamsSent(sent: seq<Command>): seq<Command> {
    if sent == [] then []
    else
      var c := sent[|sent| - 1];
      ParamsSent(sent[..|sent| - 1]) + if c.SetParam? then [c] else []
  }

  function Inits(heard: seq<Meaning>): nat {
    if heard == [] then 0 else Inits(heard[..|heard| - 1]) + if heard[|heard| - 1].InitDone? then 1 else 0
  }

  lemma ParamsOneMore(sent: seq<Command>, c: Command)
    ensures ParamsSent(sent + [c]) == ParamsSent(sent) + if c.SetParam? then [c] else []
  {
    assert (sent + [c])[..|sent|] == sent;
  }

  lemma InitsOneMore(heard: seq<Meaning>, m: Meaning)
    ensures Inits(heard + [m]) == Inits(heard) + if m.InitDone? then 1 else 0
  {
    assert (heard + [m])[..|heard|] == heard;
  }

  const PARAMS := [SetParam(1, 0), SetParam(8, 0x320), SetParam(9, 0x960)]

  // The parameters sent so far, after this many initialisations.
  predicate InStep(s: State, inits: nat) {
    var params := ParamsSent(s.sent);
    && s.paramState == Low8(|params|)
    && (inits <= 1 ==> params <= PARAMS)
    && (inits == 0 ==> params == [])
  }

  /**
    PARAM_STATE counts the parameters sent, in eight bits.  As long as the device was initialised at
    most once they are the three expected, in order.
   */
  lemma {:induction false} ParamStateCounts(events: seq<Event>)
    requires AllReadable(events)
    ensures InStep(Run(events), Inits(Heard(events)))
  {
    if events != [] {
      var before, e := events[..|events| - 1], events[|events| - 1];
      HeardOnlyPackets(events);
      ParamStateCounts(before);
      hide Heard, Run, Plus, InStep, Inits, Low8;
      if e.Packet? {
        var m := Meant(e.kind, e.bytes, Run(before).paramState);
        InitsOneMore(Heard(before), m);
        assert m.ParamSet? ==> m.step == Run(before).paramState && 1 <= m.step <= 3;
        hide Meant;
        PacketInStep(Run(before), Inits(Heard(before)), m, e.hasAdvert);
      } else {
        TimerInStep(Run(before), Inits(Heard(before)), e);
      }
    }
  }

  lemma TimerInStep(s: State, inits: nat, e: Event)
    requires !e.Packet? && InStep(s, inits)
    ensures InStep(After(s, e), inits)
  {
    hide Low8, ParamsSent;
    match e
    case ScanTimer(_) => ParamsOneMore(s.sent, DeviceDiscoveryRequest);
    case EpochTimer(_) =>
      ParamsOneMore(s.sent, EndDiscoverable);
      ParamsOneMore(s.sent, UpdateAdvertisingData(1, true));
      ParamsOneMore(s.sent + [EndDiscoverable], UpdateAdvertisingData(1, true));
  }

  lemma PacketInStep(s: State, inits: nat, m: Meaning, hasAdvert: bool)
    requires InStep(s, inits) && (m.ParamSet? ==> m.step == s.paramState && 1 <= m.step <= 3)
    ensures InStep(Understood(s, m, hasAdvert), inits + if m.InitDone? then 1 else 0)
  {
    hide ParamsSent, Plus, Low8;
    UnderstoodParams(s, m, hasAdvert);
    var n := |ParamsSent(s.sent)|;
    PlusMod(n, 1);
    NextSmall(n);
    NextSmall(1);
    NextSmall(2);
    NextSmall(3);
  }

  // The one parameter a packet has the node send, if any.
  lemma UnderstoodParams(s: State, m: Meaning, hasAdvert: bool)
    ensures ParamsSent(Understood(s, m, hasAdvert).sent) == ParamsSent(s.sent) +
              match m
              case InitDone => [PARAMS[0]]
              case ParamSet(step) => if step == 1 then [PARAMS[1]] else if step == 2 then [PARAMS[2]] else []
              case _ => []
  {
    var t := Understood(s, m, hasAdvert);
    if s.sent < t.sent {
      ParamsOneMore(s.sent, t.sent[|s.sent|]);
    }
    hide ParamsSent;
  }

  lemma NextSmall(n: nat)
    ensures Low8(n) < 3 ==> Low8(n + 1) == Low8(n) + 1
    ensures n <= 3 ==> Low8(n) == n
  {
    var q, r := n / 256, n % 256;
    if r < 3 {
      assert n + 1 == 256 * q + (r + 1);
    }
  }
}

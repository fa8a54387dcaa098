/**
  The interrupt-driven master transfer: what one interrupt does to the state, and the handler that
  does it.
 */
module I2cInterrupt {
  import opened I2cBus
  import opened I2cSetup

  // What the caller asks for.  A length counts only when its buffer is present.
  datatype Order = Order(address: Address7, tx: seq<Byte>, rxLength: nat, hasRx: bool, retriesMax: nat) {
    function Rx(): nat { if hasRx then rxLength else 0 }
  }

  // The transfer and the controller's registers between two interrupts.
  datatype State = State(
    reading: bool, txCount: nat, rx: seq<Byte>, retries: nat, status: Status,
    sta: bool, aa: bool, dat: Byte, stat: Byte, enabled: bool, complete: bool)
  {
    function Pending(): Action { I2cBus.Pending(sta, aa, dat, stat) }
  }

  const U32: int := 0x1_0000_0000

  // rx_length - 1 in 32 bits.
  function LastIndex(o: Order): nat
  {
    if o.rxLength == 0 then U32 - 1 else o.rxLength - 1
  }

  function Ended(s: State): State {
    s.(sta := false, enabled := false, complete := true)
  }

  function Retried(o: Order, s: State): State {
    if s.retries < o.retriesMax
    then s.(txCount := 0, sta := true, aa := false, retries := s.retries + 1)
    else Ended(s)
  }

  function Done(s: State): State {
    Ended(s.(status := s.status.(done := true)))
  }

  function ReadAddressed(o: Order, s: State): State {
    s.(dat := Read(o.address))
  }

  // Everything is sent: turn to reading, by a repeated START if something was sent.
  function Turned(o: Order, s: State): State {
    var t := s.(reading := true);
    if o.Rx() == 0 then Done(t)
    else if o.tx != [] then t.(sta := true, aa := false)
    else ReadAddressed(o, t)
  }

  // The byte read is kept if there is room for it.
  function Stored(o: Order, s: State): State {
    if o.hasRx && |s.rx| < o.rxLength then s.(rx := s.rx + [s.dat]) else s
  }

  // The next byte will be acknowledged unless it is the last.
  function Answering(o: Order, s: State): State {
    s.(aa := |s.rx| < LastIndex(o))
  }

  // Failing codes are flagged and retried.
  function Refused(o: Order, s: State, arbitration: bool, noAck: bool): State {
    Retried(o, s.(status := Status(s.stat, arbitration, noAck, false)))
  }

  function Transmitting(o: Order, s: State): State {
    if s.stat in {START, RESTART} then
      if o.tx != [] then s.(sta := false, dat := Write(o.address)) else Turned(o, s.(sta := false))
    else if s.stat in {SLAW_ACK, TX_ACK} then
      if s.txCount < |o.tx| then s.(dat := o.tx[s.txCount], txCount := s.txCount + 1) else Turned(o, s)
    else Refused(o, s, s.stat == ARB_LOST, s.stat in {SLAW_NACK, TX_NACK})
  }

  function Receiving(o: Order, s: State): State {
    if s.stat in {START, RESTART} then
      if o.Rx() != 0 then ReadAddressed(o, s.(sta := false)) else Done(s.(sta := false))
    else if s.stat == SLAR_ACK then Answering(o, s)
    else if s.stat == RX_ACK then Answering(o, Stored(o, s))
    else if s.stat == RX_NACK then Done(Stored(o, s))
    else Refused(o, s, s.stat == ARB_LOST, s.stat == SLAR_NACK)
  }

  // The state after an interrupt that finds this code and this byte in the registers.
  function Interrupted(o: Order, before: State, code: Byte, data: Byte): State {
    var s := before.(status := Status(code, false, false, false), stat := code, dat := data);
    if code == NO_INF then s else if s.reading then Receiving(o, s) else Transmitting(o, s)
  }

  // ---------- the handler ----------

  function TheOrder(setup: MasterSetup): Order
    requires setup.Ready()
    reads setup.txData
  {
    Order(setup.address, setup.Tx(), setup.rxLength, setup.rxData != null, setup.retransmissionsMax)
  }

  class MasterDriver {
    const port: Port
    const setup: MasterSetup
    var dir: nat
    var interrupts: bool
    var masterComplete: bool

    constructor (port: Port, setup: MasterSetup)
      ensures this.port == port && this.setup == setup
    {
      this.port, this.setup := port, setup;
      dir, interrupts, masterComplete := 0, false, false;
    }

    predicate Ready()
      reads this, setup
    {
      setup.Ready() && setup.rxCount <= setup.Rx() && dir <= 1
    }

    function View(): State
      requires Ready()
      reads this, setup, setup.rxData, port
    {
      State(dir == 1, setup.txCount, setup.Received(), setup.retransmissionsCount, setup.status,
            port.sta, port.aa, port.dat, port.stat, interrupts, masterComplete)
    }

    // lpc17xx_i2c.c:783-785,934-947 : the retry count stays as the caller left it.
    method MasterTransferData()
      requires Ready()
      modifies this, setup, port
      ensures Ready() && TheOrder(setup) == old(TheOrder(setup))
      ensures View() == Begun(old(View()))
      ensures port.trace == old(port.trace)
    {
      setup.txCount, setup.rxCount, setup.status := 0, 0, NO_STATUS;
      dir := 0;
      port.sta := true;
      interrupts := true;
    }
  
    // lpc17xx_i2c.c:588-595, label end_stage
    method EndStage()
      requires Ready()
      modifies this`interrupts, this`masterComplete, port
      ensures Ready() && View() == Ended(old(View()))
      ensures port.trace == old(port.trace) + [STOPPED] && !interrupts
    {
      interrupts := false;
      port.StopCondition();
      masterComplete := true;
    }

    // lpc17xx_i2c.c:577-595, label retry
    method Retry()
      requires Ready() && interrupts
      modifies this`interrupts, this`masterComplete, setup`txCount, setup`retransmissionsCount, port
      ensures Ready() && View() == Retried(TheOrder(setup), old(View()))
      ensures port.trace == old(port.trace) + if interrupts then [] else [STOPPED]
    {
      if setup.retransmissionsCount < setup.retransmissionsMax {
        setup.txCount := 0;
        port.sta := true;
        port.aa := false;
        setup.retransmissionsCount := setup.retransmissionsCount + 1;
      } else {
        EndStage();
      }
    }
  
    // lpc17xx_i2c.c:458-479,512-514, labels next_stage and send_slar
    method NextStage()
      requires Ready() && interrupts
      modifies this, setup`status, port
      ensures Ready() && View() == Turned(TheOrder(setup), old(View()))
      ensures port.trace == old(port.trace) + if interrupts then [] else [STOPPED]
    {
      dir := 1;
      if setup.rxLength != 0 && setup.rxData != null {
        if setup.txLength != 0 && setup.txData != null {
          port.sta := true;
          port.aa := false;
        } else {
          port.dat := Read(setup.address);
        }
      } else {
        setup.status := setup.status.(done := true);
        EndStage();
      }
    }

    // lpc17xx_i2c.c:539-542,558-561 : keeps the byte read if there is room for it.
    method Store()
      requires Ready()
      modifies setup`rxCount, setup.rxData
      ensures Ready() && View() == Stored(TheOrder(setup), old(View()))
      ensures TheOrder(setup) == old(TheOrder(setup))
    {
      if setup.rxData != null && setup.rxCount < setup.rxLength {
        ghost var so := setup.Received();
        setup.rxData[setup.rxCount] := port.dat;
        setup.rxCount := setup.rxCount + 1;
        assert setup.Received() == so + [port.dat];
      }
    }

    // lpc17xx_i2c.c:524-531,543-550 : acknowledge the next byte unless it is the last.
    method ChooseAck()
      requires Ready()
      modifies port
      ensures Ready() && View() == Answering(TheOrder(setup), old(View()))
      ensures port.trace == old(port.trace)
    {
      var last := if setup.rxLength == 0 then U32 - 1 else setup.rxLength - 1;
      if setup.rxCount < last {
        port.aa := true;
      } else {
        port.aa := false;
      }
    }

    // lpc17xx_i2c.c:484-495,567-576 : flags the cause, then tries again.
    method Refuse(arbitration: bool, noAck: bool)
      requires Ready() && interrupts
      requires setup.status == Status(port.stat, false, false, false)
      modifies this`interrupts, this`masterComplete, setup`txCount, setup`retransmissionsCount, setup`status, port
      ensures Ready() && View() == Refused(TheOrder(setup), old(View()), arbitration, noAck)
      ensures port.trace == old(port.trace) + if interrupts then [] else [STOPPED]
    {
      if noAck {
        setup.status := setup.status.(noAck := true);
      }
      if arbitration {
        setup.status := setup.status.(arbitration := true);
      }
      Retry();
    }

    // lpc17xx_i2c.c:425-498
    method TransmitPhase(code: Byte)
      requires Ready() && interrupts && dir == 0 && code == port.stat != NO_INF
      requires setup.status == Status(code, false, false, false)
      modifies this, setup`txCount, setup`retransmissionsCount, setup`status, port
      ensures Ready() && View() == Transmitting(TheOrder(setup), old(View()))
      ensures port.trace == old(port.trace) + if interrupts then [] else [STOPPED]
    {
      hide Refused, Turned, Done;
      match code {
        case START | RESTART =>
          port.sta := false;
          if setup.txData != null && setup.txLength != 0 {
            port.dat := Write(setup.address);
          } else {
            NextStage();
          }
        case SLAW_ACK | TX_ACK =>
          if setup.txCount < setup.txLength && setup.txData != null {
            port.dat := setup.txData[setup.txCount];
            setup.txCount := setup.txCount + 1;
          } else {
            NextStage();
          }
        case _ =>
          Refuse(code == ARB_LOST, code == SLAW_NACK || code == TX_NACK);
      }
    }

    // lpc17xx_i2c.c:500-598
    method ReceivePhase(code: Byte)
      requires Ready() && interrupts && dir == 1 && code == port.stat != NO_INF
      requires setup.status == Status(code, false, false, false)
      modifies this, setup, port, setup.rxData
      ensures Ready() && View() == Receiving(TheOrder(setup), old(View()))
      ensures TheOrder(setup) == old(TheOrder(setup))
      ensures port.trace == old(port.trace) + if interrupts then [] else [STOPPED]
    {
      hide Refused, Turned, Stored, Answering, Ended, LastIndex;
      match code {
        case START | RESTART =>
          port.sta := false;
          if setup.rxData != null && setup.rxLength != 0 {
            port.dat := Read(setup.address);
          } else {
            setup.status := setup.status.(done := true);
            EndStage();
          }
        case SLAR_ACK =>
          ChooseAck();
        case RX_ACK =>
          Store();
          ChooseAck();
        case RX_NACK =>
          Store();
          setup.status := setup.status.(done := true);
          EndStage();
        case _ =>
          Refuse(code == ARB_LOST, code == SLAR_NACK);
      }
    }

    // lpc17xx_i2c.c:406-599
    method MasterHandler()
      requires Ready() && interrupts
      modifies this, setup, port, setup.rxData
      ensures Ready() && View() == Interrupted(TheOrder(setup), old(View()), old(port.stat), old(port.dat))
      ensures TheOrder(setup) == old(TheOrder(setup))
      ensures port.trace == old(port.trace) + if interrupts then [] else [STOPPED]
    {
      var returnCode := port.stat;
      setup.status := Status(returnCode, false, false, false);
      if returnCode == NO_INF {
        return;
      }
      if dir == 0 {
        TransmitPhase(returnCode);
      } else if dir == 1 {
        ReceivePhase(returnCode);
      }
    }

    // One action on the bus and the interrupt that follows it.
    method Service() returns (code: Byte, data: Byte)
      requires Ready() && interrupts
      modifies this, setup, port, setup.rxData
      ensures Ready() && View() == Interrupted(TheOrder(setup), old(View()), code, data)
      ensures TheOrder(setup) == old(TheOrder(setup))
      ensures port.trace == old(port.trace) + [Event(old(View()).Pending(), code, data)] + if interrupts then []
          else [STOPPED]
    {
      hide Transmitting, Receiving;
      port.Transact();
      code, data := port.stat, port.dat;
      MasterHandler();
    }

    // lpc17xx_i2c.c:1335-1342 : tells once that the transfer is over.
    method MasterTransferComplete() returns (retval: bool)
      requires Ready()
      modifies this`masterComplete
      ensures Ready() && retval == old(masterComplete) && View() == old(View()).(complete := false)
    {
      retval := masterComplete;
      masterComplete := false;
    }
  }

  // A transfer just set up: everything but the retry count starts over.
  function Begun(s: State): State {
    State(false, 0, [], s.retries, NO_STATUS, true, s.aa, s.dat, s.stat, true, s.complete)
  }
}

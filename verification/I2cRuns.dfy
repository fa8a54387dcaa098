/**
  Whole interrupt-mode transfers: a run is the sequence of answers the bus gave, one an interrupt.
 */
module I2cRuns {
  import opened I2cBus
  import opened I2cInterrupt
  import opened I2cSetup

  datatype Answer = Answer(code: Byte, data: Byte)

  function Reached(o: Order, s: State, answers: seq<Answer>): State {
    if answers == [] then s
    else
      var n := |answers| - 1;
      Interrupted(o, Reached(o, s, answers[..n]), answers[n].code, answers[n].data)
  }

  // What the bus saw: the action pending before each answer.
  function Trace(o: Order, s: State, answers: seq<Answer>): (t: seq<Event>)
    ensures |t| == |answers|
  {
    if answers == [] then []
    else
      var n := |answers| - 1;
      Trace(o, s, answers[..n]) + [Event(Reached(o, s, answers[..n]).Pending(), answers[n].code, answers[n].data)]
  }

  // Every interrupt came while enabled and within the bus protocol.
  predicate Conforming(o: Order, s: State, answers: seq<Answer>) {
    answers == [] ||
    var n := |answers| - 1;
    var t := Reached(o, s, answers[..n]);
    Conforming(o, s, answers[..n]) && t.enabled && Conforms(t.Pending(), answers[n].code)
  }

  // How many failures a transfer survives when it starts with this retry count.
  function Allowed(o: Order, retries: nat): nat {
    if retries < o.retriesMax then o.retriesMax - retries else 0
  }

  // While writing: the bytes before the one under way are acknowledged.
  predicate Writing(o: Order, s: State, trace: seq<Event>) {
    && s.rx == [] && (o.tx == [] ==> Delivered(trace) == [])
    && match s.Pending()
       case Start => s.txCount == 0
       case Address(octet) => o.tx != [] && octet == Write(o.address) && s.txCount == 0 && !s.sta
       case Send(octet) => 0 < s.txCount <= |o.tx| && octet == o.tx[s.txCount - 1]
           && Delivered(trace) == o.tx[..s.txCount - 1]
       case _ => false
  }

  // While reading: all bytes are out, and a read is acknowledged exactly when another follows.
  predicate Reading(o: Order, s: State, trace: seq<Event>) {
    && Delivered(trace) == o.tx && |s.rx| < o.Rx()
    && match s.Pending()
       case Start => true
       case Address(octet) => octet == Read(o.address) && !s.sta
       case Receive(ack) => ack == (|s.rx| < o.Rx() - 1)
       case _ => false
  }

  // What every interrupt keeps.
  predicate Sound(o: Order, retries: nat, s: State, trace: seq<Event>) {
    && s.rx == Collected(trace)
    && if s.enabled then
         && s.retries == retries + Failures(trace) && Failures(trace) <= Allowed(o, retries)
         && if s.reading then Reading(o, s, trace) else Writing(o, s, trace)
       else
         && s.complete
         && if s.status.done
            then Delivered(trace) == o.tx && |s.rx| == o.Rx() && Failures(trace) <= Allowed(o, retries)
            else Failures(trace) == Allowed(o, retries) + 1 && o.retriesMax <= s.retries
  }

  lemma StepKeepsSound(o: Order, retries: nat, s: State, trace: seq<Event>, code: Byte, data: Byte)
    requires Sound(o, retries, s, trace) && s.enabled && Conforms(s.Pending(), code)
    ensures Sound(o, retries, Interrupted(o, s, code, data), trace + [Event(s.Pending(), code, data)])
  {
    if s.reading {
      ReadingStep(o, retries, s, trace, code, data);
    } else {
      WritingStep(o, retries, s, trace, code, data);
    }
  }

  lemma WritingStep(o: Order, retries: nat, s: State, trace: seq<Event>, code: Byte, data: Byte)
    requires Sound(o, retries, s, trace) && s.enabled && !s.reading && Conforms(s.Pending(), code)
    ensures Sound(o, retries, Interrupted(o, s, code, data), trace + [Event(s.Pending(), code, data)])
  {
    hide Collected, Delivered, Failures, Write, Read;
    Snoc(trace, Event(s.Pending(), code, data));
    if Expected(s.Pending(), code) {
      assert o.tx[..0] == [] && o.tx[..|o.tx|] == o.tx;
      if s.Pending().Send? {
        assert o.tx[..s.txCount] == o.tx[..s.txCount - 1] + [o.tx[s.txCount - 1]];
      }
    } else {
      FailureRetries(o, s, trace, code, data);
      hide Interrupted, Conforms, Expected;
    }
  }

  predicate AgainOrOver(o: Order, s: State, t: State) {
    && (t.enabled <==> s.retries < o.retriesMax) && t.reading == s.reading && t.rx == s.rx
    && if t.enabled then t.retries == s.retries + 1 && t.sta && !t.aa && t.txCount == 0
       else t.retries == s.retries && t.complete && !t.status.done
  }

  /**
    A failure is answered by a new START while retries are left, and ends the transfer otherwise.
    Either way the direction and every byte read are kept; the write starts over.
   */
  lemma FailureRetries(o: Order, s: State, trace: seq<Event>, code: Byte, data: Byte)
    requires (if s.reading then Reading(o, s, trace) else Writing(o, s, trace)) && s.enabled
    requires Conforms(s.Pending(), code) && !Expected(s.Pending(), code)
    ensures AgainOrOver(o, s, Interrupted(o, s, code, data))
  {
    hide AgainOrOver, Interrupted, Conforms, Expected;
    if s.reading {
      ReadFailureRetries(o, s, trace, code, data);
    } else {
      WriteFailureRetries(o, s, trace, code, data);
    }
  }

  lemma WriteFailureRetries(o: Order, s: State, trace: seq<Event>, code: Byte, data: Byte)
    requires !s.reading && Writing(o, s, trace) && s.enabled && Conforms(s.Pending(), code)
        && !Expected(s.Pending(), code)
    ensures AgainOrOver(o, s, Interrupted(o, s, code, data))
  {
    hide Delivered, Write, Read;
  }

  lemma ReadFailureRetries(o: Order, s: State, trace: seq<Event>, code: Byte, data: Byte)
    requires s.reading && Reading(o, s, trace) && s.enabled && Conforms(s.Pending(), code)
        && !Expected(s.Pending(), code)
    ensures AgainOrOver(o, s, Interrupted(o, s, code, data))
  {
    hide Delivered, Write, Read;
  }

  lemma ReadingStep(o: Order, retries: nat, s: State, trace: seq<Event>, code: Byte, data: Byte)
    requires Sound(o, retries, s, trace) && s.enabled && s.reading && Conforms(s.Pending(), code)
    ensures Sound(o, retries, Interrupted(o, s, code, data), trace + [Event(s.Pending(), code, data)])
  {
    hide Collected, Delivered, Failures, Write, Read;
    Snoc(trace, Event(s.Pending(), code, data));
    if !Expected(s.Pending(), code) {
      FailureRetries(o, s, trace, code, data);
      hide Interrupted, Conforms, Expected;
    }
  }

  // All that went over the bus concerned the slave of the order, and so will the action pending.
  predicate Pointed(o: Order, s: State, trace: seq<Event>) {
    Aimed(trace, o.address) && (s.enabled ==>
      match s.Pending()
      case Address(octet) => octet / 2 == o.address && octet % 2 == (if s.reading then 1 else 0)
      case Send(_) => Addressed(trace) / 2 == o.address && Addressed(trace) % 2 == 0
      case Receive(_) => Addressed(trace) / 2 == o.address && Addressed(trace) % 2 == 1
      case _ => true)
  }

  lemma StepKeepsPointed(o: Order, retries: nat, s: State, trace: seq<Event>, code: Byte, data: Byte)
    requires Sound(o, retries, s, trace) && Pointed(o, s, trace) && s.enabled && Conforms(s.Pending(), code)
    ensures Pointed(o, Interrupted(o, s, code, data), trace + [Event(s.Pending(), code, data)])
  {
    AimedOneMore(trace, Event(s.Pending(), code, data), o.address);
    hide Collected, Delivered, Failures, Aimed, Addressed;
    if !Expected(s.Pending(), code) {
      FailureRetries(o, s, trace, code, data);
      hide Interrupted, Conforms, Expected;
    }
  }

  /**
    Every conforming run keeps the invariant, from the moment the transfer is set up, and concerns no
    other slave.
   */
  lemma {:induction false} EveryRunSound(o: Order, s: State, answers: seq<Answer>)
    requires Conforming(o, Begun(s), answers)
    ensures Sound(o, s.retries, Reached(o, Begun(s), answers), Trace(o, Begun(s), answers))
    ensures Pointed(o, Reached(o, Begun(s), answers), Trace(o, Begun(s), answers))
  {
    if answers != [] {
      var n := |answers| - 1;
      EveryRunSound(o, s, answers[..n]);
      StepKeepsPointed(o, s.retries, Reached(o, Begun(s), answers[..n]), Trace(o, Begun(s), answers[..n]),
          answers[n].code, answers[n].data);
      StepKeepsSound(o, s.retries, Reached(o, Begun(s), answers[..n]), Trace(o, Begun(s), answers[..n]),
          answers[n].code, answers[n].data);
    }
  }

  /**
    A run that ended with DONE put every byte on the bus, acknowledged and in order, and filled the
    receive buffer with what the slave sent, whatever failures came between.
   */
  lemma DoneMeansTransferred(o: Order, s: State, answers: seq<Answer>)
    requires Conforming(o, Begun(s), answers)
    ensures var end := Reached(o, Begun(s), answers);
            var trace := Trace(o, Begun(s), answers);
            !end.enabled && end.status.done ==>
              Delivered(trace) == o.tx && end.rx == Collected(trace) && |end.rx| == o.Rx()
  {
    EveryRunSound(o, s, answers);
  }

  /** A run has ended in failure exactly when one failure more than the retries left has occurred. */
  lemma FailureIffSpent(o: Order, s: State, answers: seq<Answer>)
    requires Conforming(o, Begun(s), answers)
    ensures var end := Reached(o, Begun(s), answers);
            !end.enabled && !end.status.done <==> Failures(Trace(o, Begun(s), answers)) == Allowed(o, s.retries) + 1
  {
    EveryRunSound(o, s, answers);
  }

  // ---------- what the status tells ----------

  // The handler's status word: the code, arbitration lost at 0x38, no acknowledgement at 0x20, 0x30 and 0x48.
  predicate Tells(status: Status, code: Byte) {
    && status.code == code && (status.arbitration <==> code == 0x38)
    && (status.noAck <==> code == 0x20 || code == 0x30 || code == 0x48)
  }

  // What the flags say after any code at all, in the phase of before.
  predicate Flagged(status: Status, reading: bool, code: Byte) {
    && status.code == code && (status.arbitration <==> code == 0x38)
    && (status.noAck <==> if reading then code == 0x48 else code == 0x20 || code == 0x30)
  }

  lemma AlwaysFlagged(o: Order, s: State, code: Byte, data: Byte)
    ensures Flagged(Interrupted(o, s, code, data).status, s.reading, code)
  {
    var t := s.(status := Status(code, false, false, false), stat := code, dat := data);
    TransmittingFlagged(o, t);
    ReceivingFlagged(o, t);
    hide Transmitting, Receiving;
  }

  lemma TransmittingFlagged(o: Order, s: State)
    requires s.status == Status(s.stat, false, false, false)
    ensures Flagged(Transmitting(o, s).status, false, s.stat)
  {
    FlagsKept(o, s);
    FlagsKept(o, s.(sta := false));
    FlagsKept(o, s.(status := Status(s.stat, s.stat == ARB_LOST, s.stat in {SLAW_NACK, TX_NACK}, false)));
    hide Turned, Retried;
  }

  lemma ReceivingFlagged(o: Order, s: State)
    requires s.status == Status(s.stat, false, false, false)
    ensures Flagged(Receiving(o, s).status, true, s.stat)
  {
    FlagsKept(o, s.(status := Status(s.stat, s.stat == ARB_LOST, s.stat == SLAR_NACK, false)));
    ReadFlagsKept(o, s);
    ReadFlagsKept(o, s.(sta := false));
    hide Turned, Retried, Done, Stored, Answering;
  }

  predicate SameFlags(a: Status, b: Status) { a.code == b.code && a.arbitration == b.arbitration && a.noAck == b.noAck }

  lemma FlagsKept(o: Order, s: State)
    ensures SameFlags(Turned(o, s).status, s.status) && SameFlags(Retried(o, s).status, s.status)
  {}

  lemma ReadFlagsKept(o: Order, s: State)
    ensures SameFlags(Done(s).status, s.status) && SameFlags(Done(Stored(o, s)).status, s.status)
    ensures Answering(o, s).status == s.status && Answering(o, Stored(o, s)).status == s.status
  {}

  lemma StepTells(o: Order, s: State, trace: seq<Event>, code: Byte, data: Byte)
    requires s.enabled && if s.reading then Reading(o, s, trace) else Writing(o, s, trace)
    requires Conforms(s.Pending(), code)
    ensures Tells(Interrupted(o, s, code, data).status, code)
  {
    AlwaysFlagged(o, s, code, data);
    hide Delivered, Read, Write, Interrupted;
  }

  /**
    After every interrupt of a conforming run the status word is about the code just seen, and a transfer
    that gave up names a code that was a failure.
   */
  lemma StatusTells(o: Order, s: State, answers: seq<Answer>)
    requires Conforming(o, Begun(s), answers) && answers != []
    ensures var end, trace := Reached(o, Begun(s), answers), Trace(o, Begun(s), answers);
            var last := trace[|trace| - 1];
            && Tells(end.status, last.code)
            && (!end.enabled && !end.status.done ==> !Expected(last.action, last.code))
            && (end.status.done ==> !end.enabled && Expected(last.action, last.code))
  {
    var n := |answers| - 1;
    EveryRunSound(o, s, answers[..n]);
    var t, trace := Reached(o, Begun(s), answers[..n]), Trace(o, Begun(s), answers[..n]);
    StepTells(o, t, trace, answers[n].code, answers[n].data);
    StepOutcome(o, t, trace, answers[n].code, answers[n].data);
    hide Interrupted, Sound, Expected, Tells;
  }

  lemma StepOutcome(o: Order, s: State, trace: seq<Event>, code: Byte, data: Byte)
    requires s.enabled && if s.reading then Reading(o, s, trace) else Writing(o, s, trace)
    requires Conforms(s.Pending(), code)
    ensures var t := Interrupted(o, s, code, data);
            if Expected(s.Pending(), code) then t.enabled || t.status.done else !t.status.done
    ensures Interrupted(o, s, code, data).status.done ==> !Interrupted(o, s, code, data).enabled
  {
    hide Delivered, Read, Write;
    if !Expected(s.Pending(), code) {
      FailureRetries(o, s, trace, code, data);
      hide Interrupted, Conforms, Expected;
    }
  }

  /**
    Outside the protocol too: a code that the phase does not know counts as a failure, and 0xF8, which
    says that nothing happened, is waited out.
   */
  lemma UnknownCodeRetries(o: Order, s: State, code: Byte, data: Byte)
    requires s.enabled && code != 0xF8
    requires code !in if s.reading then {0x08, 0x10, 0x40, 0x50, 0x58} else {0x08, 0x10, 0x18, 0x28}
    ensures AgainOrOver(o, s, Interrupted(o, s, code, data))
    ensures Interrupted(o, s, code, data).status == Status(code, code == 0x38,
        if s.reading then code == 0x48 else code == 0x20 || code == 0x30, false)
  {}

  lemma NothingHappened(o: Order, s: State, data: Byte)
    ensures Interrupted(o, s, 0xF8, data) == s.(status := Status(0xF8, false, false, false), stat := 0xF8, dat := data)
  {}

  // ---------- a transfer step by step ----------

  // One byte to slave 0x50 and two from it.
  const SAMPLE := Order(0x50, [1], 2, true, 0)

  // The slave answers 7 and 8.
  function SampleAnswers(): (answers: seq<Answer>)
    ensures |answers| == 7
  {
    [Answer(0x08, 0), Answer(0x18, 0), Answer(0x28, 0), Answer(0x10, 0), Answer(0x40, 0), Answer(0x50, 7),
     Answer(0x58, 8)]
  }

  function SampleActions(): (actions: seq<Action>)
    ensures |actions| == 7
  {
    [Start, Address(0xA0), Send(1), Start, Address(0xA1), Receive(true), Receive(false)]
  }

  // The first n answers lead to this state and see the first n actions.
  predicate At(s: State, n: nat, t: State)
    requires n <= 7
  {
    && Conforming(SAMPLE, Begun(s), SampleAnswers()[..n])
    && Reached(SAMPLE, Begun(s), SampleAnswers()[..n]) == t
    && forall i :: 0 <= i < n ==> Trace(SAMPLE, Begun(s), SampleAnswers()[..n])[i].action == SampleActions()[i]
  }

  lemma SampleStep(s: State, n: nat, t: State, a: Answer, u: State, action: Action)
    requires n < 7 && At(s, n, t) && SampleAnswers()[n] == a && SampleActions()[n] == action
    requires t.enabled && t.Pending() == action && Conforms(action, a.code)
    requires Interrupted(SAMPLE, t, a.code, a.data) == u
    ensures At(s, n + 1, u)
  {
    hide Interrupted, SampleAnswers, SampleActions, Conforms, Conforming, Reached, Trace;
    var answers := SampleAnswers();
    assert answers[..n + 1] == answers[..n] + [a];
    OneMore(SAMPLE, Begun(s), answers[..n], a);
  }

  // The byte is out and a repeated START asked for.
  function SampleTurned(s: State): State {
    State(true, 1, [], s.retries, Status(0x28, false, false, false), true, false, 0, 0x28, true, s.complete)
  }

  lemma SampleWrites(s: State)
    ensures At(s, 3, SampleTurned(s))
  {
    var t0 := Begun(s);
    var t1 := t0.(status := Status(0x08, false, false, false), stat := 0x08, sta := false, dat := 0xA0);
    var t2 := t1.(status := Status(0x18, false, false, false), stat := 0x18, dat := 1, txCount := 1);
    assert At(s, 0, t0);
    hide At;
    SampleStep(s, 0, t0, Answer(0x08, 0), t1, Start);
    SampleStep(s, 1, t1, Answer(0x18, 0), t2, Address(0xA0));
    SampleStep(s, 2, t2, Answer(0x28, 0), SampleTurned(s), Send(1));
  }

  // The slave has accepted the read.
  function SampleReading(s: State): State {
    SampleTurned(s).(status := Status(0x40, false, false, false), stat := 0x40, aa := true, sta := false)
  }

  lemma SampleTurns(s: State)
    ensures At(s, 5, SampleReading(s))
  {
    var t3 := SampleTurned(s);
    var t4 := t3.(status := Status(0x10, false, false, false), stat := 0x10, dat := 0xA1, sta := false);
    hide At;
    SampleWrites(s);
    SampleStep(s, 3, t3, Answer(0x10, 0), t4, Start);
    SampleStep(s, 4, t4, Answer(0x40, 0), SampleReading(s), Address(0xA1));
  }

  /** What that transfer puts on the bus, and how it ends. */
  lemma SampleTransfer(s: State) returns (end: State)
    ensures At(s, 7, end)
    ensures !end.enabled && end.status == Status(0x58, false, false, true) && end.rx == [7, 8]
  {
    hide At, Transmitting, Refused, Retried, Turned;
    SampleTurns(s);
    var t5 := SampleReading(s);
    var t6 := t5.(status := Status(0x50, false, false, false), stat := 0x50, dat := 7, rx := [7], aa := false);
    end := t6.(status := Status(0x58, false, false, true), stat := 0x58, dat := 8, rx := [7, 8], enabled := false,
        complete := true);
    SampleStep(s, 5, t5, Answer(0x50, 7), t6, Receive(true));
    SampleStep(s, 6, t6, Answer(0x58, 8), end, Receive(false));
  }

  // ---------- every run ends ----------

  function Span(o: Order): nat { |o.tx| + o.Rx() + 4 }

  // Interrupts an attempt can still take if nothing fails.
  function Left(o: Order, s: State): int {
    match s.Pending()
    case Start => if s.reading then o.Rx() - |s.rx| + 2 else Span(o)
    case Address(_) => if s.reading then o.Rx() - |s.rx| + 1 else Span(o) - 1
    case Send(_) => Span(o) - 1 - s.txCount
    case _ => o.Rx() - |s.rx|
  }

  function Budget(o: Order, s: State): int {
    if !s.enabled then 0 else Allowed(o, s.retries) * Span(o) + Left(o, s)
  }

  // Either the attempt has come closer to its end, or a retry is spent on a new one.
  predicate Nearer(o: Order, s: State, t: State) {
    && 1 <= Left(o, s)
    && (t.enabled ==>
          || (t.retries == s.retries && Left(o, t) < Left(o, s))
          || (s.retries < o.retriesMax && t.retries == s.retries + 1 && Left(o, t) <= Span(o)))
  }

  lemma NearerSpends(o: Order, s: State, t: State)
    requires s.enabled && Nearer(o, s, t)
    ensures Budget(o, t) < Budget(o, s)
  {
    hide Left;
    var k, c := Allowed(o, s.retries), Span(o);
    assert k * c >= 0;
    if k > 0 {
      assert k * c == (k - 1) * c + c;
    }
  }

  lemma ReadNearer(o: Order, s: State, trace: seq<Event>, code: Byte, data: Byte)
    requires s.reading && Reading(o, s, trace) && s.enabled && Expected(s.Pending(), code)
    ensures Nearer(o, s, Interrupted(o, s, code, data))
    ensures Interrupted(o, s, code, data).retries == s.retries
        && (Interrupted(o, s, code, data).enabled || Interrupted(o, s, code, data).status.done)
  {
    hide Delivered;
  }

  lemma WriteNearer(o: Order, s: State, trace: seq<Event>, code: Byte, data: Byte)
    requires !s.reading && Writing(o, s, trace) && s.enabled && Expected(s.Pending(), code)
    ensures Nearer(o, s, Interrupted(o, s, code, data))
    ensures Interrupted(o, s, code, data).retries == s.retries
        && (Interrupted(o, s, code, data).enabled || Interrupted(o, s, code, data).status.done)
  {
    hide Delivered;
  }

  lemma FailureNearer(o: Order, s: State, trace: seq<Event>, code: Byte, data: Byte)
    requires (if s.reading then Reading(o, s, trace) else Writing(o, s, trace)) && s.enabled
    requires Conforms(s.Pending(), code) && !Expected(s.Pending(), code)
    ensures Nearer(o, s, Interrupted(o, s, code, data))
  {
    FailureRetries(o, s, trace, code, data);
    hide Delivered, Interrupted, Conforms, Expected, Write, Read;
  }

  lemma StepSpends(o: Order, s: State, trace: seq<Event>, code: Byte, data: Byte)
    requires (if s.reading then Reading(o, s, trace) else Writing(o, s, trace)) && s.enabled
        && Conforms(s.Pending(), code)
    ensures Budget(o, Interrupted(o, s, code, data)) < Budget(o, s)
  {
    hide Interrupted, Budget, Nearer;
    if !Expected(s.Pending(), code) {
      FailureNearer(o, s, trace, code, data);
    } else if s.reading {
      ReadNearer(o, s, trace, code, data);
    } else {
      WriteNearer(o, s, trace, code, data);
    }
    NearerSpends(o, s, Interrupted(o, s, code, data));
  }

  lemma BudgetBounds(o: Order, retries: nat, s: State, trace: seq<Event>)
    requires Sound(o, retries, s, trace)
    ensures 0 <= Budget(o, s)
  {
    hide Delivered, Collected, Failures;
    assert Allowed(o, s.retries) * Span(o) >= 0;
  }

  lemma BudgetBegun(o: Order, s: State)
    ensures Budget(o, Begun(s)) == (Allowed(o, s.retries) + 1) * Span(o)
  {
    var k, c := Allowed(o, s.retries), Span(o);
    assert (k + 1) * c == k * c + c;
  }

  /** No conforming run is longer than (retries left + 1) * (bytes out + bytes in + 4) interrupts. */
  lemma EveryRunEnds(o: Order, s: State, answers: seq<Answer>)
    requires Conforming(o, Begun(s), answers)
    ensures |answers| <= (Allowed(o, s.retries) + 1) * Span(o)
  {
    RunSpends(o, s, answers);
    EveryRunSound(o, s, answers);
    BudgetBounds(o, s.retries, Reached(o, Begun(s), answers), Trace(o, Begun(s), answers));
    BudgetBegun(o, s);
  }

  lemma {:induction false} RunSpends(o: Order, s: State, answers: seq<Answer>)
    requires Conforming(o, Begun(s), answers)
    ensures |answers| + Budget(o, Reached(o, Begun(s), answers)) <= Budget(o, Begun(s))
  {
    if answers != [] {
      var n := |answers| - 1;
      var t := Reached(o, Begun(s), answers[..n]);
      hide Budget, Interrupted;
      RunSpends(o, s, answers[..n]);
      EveryRunSound(o, s, answers[..n]);
      StepSpends(o, t, Trace(o, Begun(s), answers[..n]), answers[n].code, answers[n].data);
    }
  }

  // ---------- a transfer that gave up ----------

  /**
    Setting up a transfer does not clear the retry count, so after one that gave up the next one, with
    the same setup, gives up at its first failure.
   */
  lemma GivenUpLeavesNoRetries(o: Order, s: State, first: seq<Answer>, second: seq<Answer>)
    requires Conforming(o, Begun(s), first)
    requires var end := Reached(o, Begun(s), first);
        !end.enabled && !end.status.done && Conforming(o, Begun(end), second)
    ensures var end := Reached(o, Begun(s), first);
            var again := Reached(o, Begun(end), second);
            && (!again.enabled && !again.status.done <==> Failures(Trace(o, Begun(end), second)) == 1)
            && |second| <= Span(o)
  {
    GivenUpIsSpent(o, s, first);
    var end := Reached(o, Begun(s), first);
    hide Reached, Trace, Conforming, Span, Failures;
    FailureIffSpent(o, end, second);
    OneAttemptEnds(o, end, second);
  }

  lemma OneAttemptEnds(o: Order, s: State, answers: seq<Answer>)
    requires Conforming(o, Begun(s), answers) && Allowed(o, s.retries) == 0
    ensures |answers| <= Span(o)
  {
    hide Conforming, Allowed;
    EveryRunEnds(o, s, answers);
    assert (0 + 1) * Span(o) == Span(o);
  }

  lemma GivenUpIsSpent(o: Order, s: State, answers: seq<Answer>)
    requires Conforming(o, Begun(s), answers)
    requires var end := Reached(o, Begun(s), answers); !end.enabled && !end.status.done
    ensures Allowed(o, Reached(o, Begun(s), answers).retries) == 0
  {
    EveryRunSound(o, s, answers);
  }

  // ---------- agreement with the polling transfer ----------

  // How far along the script a run without failures is.
  function Position(o: Order, s: State): nat {
    match s.Pending()
    case Start => if s.reading then WriteEnd(o.tx) else 0
    case Address(_) => if s.reading then ReadAt(o.tx, o.Rx()) else 1
    case Send(_) => 1 + s.txCount
    case _ => ReadAt(o.tx, o.Rx()) + 1 + |s.rx|
  }

  predicate OnScript(o: Order, s: State, trace: seq<Event>, script: seq<Action>) {
    && Along(trace, script)
    && if s.enabled then |trace| == Position(o, s)
        && (s.reading && !s.Pending().Receive? ==> s.rx == [] && (s.Pending().Start? ==> o.tx != []))
       else s.status.done && |trace| == |script|
  }

  // The pending action is the one the script has next.
  lemma PendingOnScript(o: Order, s: State, trace: seq<Event>)
    requires s.enabled && if s.reading then Reading(o, s, trace) else Writing(o, s, trace)
    requires OnScript(o, s, trace, Script(o.address, o.tx, o.Rx()))
    ensures |trace| < |Script(o.address, o.tx, o.Rx())| && Script(o.address, o.tx, o.Rx())[|trace|] == s.Pending()
  {
    hide Script, Delivered, Along;
    ScriptWrites(o.address, o.tx, o.Rx());
    ScriptReads(o.address, o.tx, o.Rx());
    if s.Pending().Send? {
      assert Script(o.address, o.tx, o.Rx())[2 + (s.txCount - 1)] == Send(o.tx[s.txCount - 1]);
    }
  }

  lemma SuccessStaysOnScript(o: Order, s: State, trace: seq<Event>, code: Byte, data: Byte)
    requires s.enabled && if s.reading then Reading(o, s, trace) else Writing(o, s, trace)
    requires OnScript(o, s, trace, Script(o.address, o.tx, o.Rx())) && Expected(s.Pending(), code)
    ensures OnScript(o, Interrupted(o, s, code, data), trace + [Event(s.Pending(), code, data)],
        Script(o.address, o.tx, o.Rx()))
  {
    hide Script, Delivered, Along;
    PendingOnScript(o, s, trace);
    ScriptReads(o.address, o.tx, o.Rx());
    AlongOneMore(trace, Script(o.address, o.tx, o.Rx()), Event(s.Pending(), code, data));
  }

  /**
    On a bus that never fails the two modes of the transfer are one: the interrupts perform exactly the
    script that a successful polling attempt performs, and end with DONE just when it is complete.
   */
  lemma {:induction false} UnfailingRunFollowsScript(o: Order, s: State, answers: seq<Answer>)
    requires Conforming(o, Begun(s), answers) && Failures(Trace(o, Begun(s), answers)) == 0
    ensures var end := Reached(o, Begun(s), answers);
            var trace := Trace(o, Begun(s), answers);
            var script := Script(o.address, o.tx, o.Rx());
            Along(trace, script) && (!end.enabled <==> Passed(trace, script))
  {
    UnfailingRunOnScript(o, s, answers);
    EveryRunSound(o, s, answers);
    var end := Reached(o, Begun(s), answers);
    if end.enabled {
      PendingOnScript(o, end, Trace(o, Begun(s), answers));
    }
  }

  lemma {:induction false} UnfailingRunOnScript(o: Order, s: State, answers: seq<Answer>)
    requires Conforming(o, Begun(s), answers) && Failures(Trace(o, Begun(s), answers)) == 0
    ensures OnScript(o, Reached(o, Begun(s), answers), Trace(o, Begun(s), answers), Script(o.address, o.tx, o.Rx()))
  {
    if answers != [] {
      var n := |answers| - 1;
      var t, trace := Reached(o, Begun(s), answers[..n]), Trace(o, Begun(s), answers[..n]);
      hide Interrupted, Script;
      Snoc(trace, Event(t.Pending(), answers[n].code, answers[n].data));
      UnfailingRunOnScript(o, s, answers[..n]);
      EveryRunSound(o, s, answers[..n]);
      SuccessStaysOnScript(o, t, trace, answers[n].code, answers[n].data);
    } else {
      hide Script;
    }
  }

  // ---------- which attempt filled the buffer ----------

  // The events after the last failure: the attempt that succeeded.
  function LastAttempt(trace: seq<Event>): (last: seq<Event>)
    ensures |last| <= |trace| && last == trace[|trace| - |last|..]
  {
    if trace == [] then []
    else
      var e := trace[|trace| - 1];
      if Expected(e.action, e.code) then LastAttempt(trace[..|trace| - 1]) + [e] else []
  }

  function BeforeLast(trace: seq<Event>): seq<Event> {
    trace[..|trace| - |LastAttempt(trace)|]
  }

  lemma {:induction false} CollectedSplits(trace: seq<Event>)
    ensures Collected(trace) == Collected(BeforeLast(trace)) + Collected(LastAttempt(trace))
  {
    if trace != [] {
      var n := |trace| - 1;
      var e := trace[n];
      if Expected(e.action, e.code) {
        CollectedSplits(trace[..n]);
        Snoc(LastAttempt(trace[..n]), e);
        assert BeforeLast(trace) == BeforeLast(trace[..n]);
      } else {
        assert BeforeLast(trace) == trace;
      }
    }
  }

  lemma {:induction false} UnfailedIsLast(trace: seq<Event>)
    requires Failures(trace) == 0
    ensures LastAttempt(trace) == trace && BeforeLast(trace) == []
  {
    if trace != [] {
      UnfailedIsLast(trace[..|trace| - 1]);
    }
  }

  lemma LastSnoc(trace: seq<Event>, e: Event)
    ensures if Expected(e.action, e.code) then BeforeLast(trace + [e]) == BeforeLast(trace)
        else BeforeLast(trace + [e]) == trace + [e]
  {
    assert (trace + [e])[..|trace|] == trace;
  }

  // The attempts before the last never read all that was asked for.
  lemma {:induction false} EarlierReadLess(o: Order, s: State, answers: seq<Answer>)
    requires Conforming(o, Begun(s), answers)
    ensures var before := Collected(BeforeLast(Trace(o, Begun(s), answers))); before == [] || |before| < o.Rx()
  {
    if answers != [] {
      var n := |answers| - 1;
      var t, trace := Reached(o, Begun(s), answers[..n]), Trace(o, Begun(s), answers[..n]);
      var e := Event(t.Pending(), answers[n].code, answers[n].data);
      EarlierReadLess(o, s, answers[..n]);
      EveryRunSound(o, s, answers[..n]);
      LastSnoc(trace, e);
      Snoc(trace, e);
    }
  }

  // The buffer of a finished run was filled by its last attempt alone.
  predicate FilledByLast(o: Order, s: State, answers: seq<Answer>) {
    Reached(o, s, answers).rx == Collected(LastAttempt(Trace(o, s, answers)))
  }

  predicate Finished(o: Order, s: State, answers: seq<Answer>) {
    Conforming(o, s, answers) && !Reached(o, s, answers).enabled && Reached(o, s, answers).status.done
  }

  lemma FilledWhenNothingBefore(o: Order, s: State, answers: seq<Answer>)
    requires Conforming(o, Begun(s), answers)
    ensures FilledByLast(o, Begun(s), answers) <==> Collected(BeforeLast(Trace(o, Begun(s), answers))) == []
  {
    EveryRunSound(o, s, answers);
    CollectedSplits(Trace(o, Begun(s), answers));
  }

  // The code that lets an action succeed.
  function Success(action: Action): Byte {
    match action
    case Start => START
    case Address(octet) => if Writes(octet) then SLAW_ACK else SLAR_ACK
    case Send(_) => TX_ACK
    case Receive(ack) => if ack then RX_ACK else RX_NACK
    case _ => NO_INF
  }

  lemma OneMore(o: Order, s: State, answers: seq<Answer>, a: Answer)
    ensures var t := Reached(o, s, answers);
            && Reached(o, s, answers + [a]) == Interrupted(o, t, a.code, a.data)
            && Trace(o, s, answers + [a]) == Trace(o, s, answers) + [Event(t.Pending(), a.code, a.data)]
            && (Conforming(o, s, answers + [a])
                <==> Conforming(o, s, answers) && t.enabled && Conforms(t.Pending(), a.code))
  {
    assert (answers + [a])[..|answers|] == answers;
  }

  // From any point of a run the bus can let the next action succeed.
  lemma Succeed(o: Order, s: State, answers: seq<Answer>) returns (more: seq<Answer>)
    requires Conforming(o, Begun(s), answers) && Reached(o, Begun(s), answers).enabled
    ensures Conforming(o, Begun(s), more)
    ensures var t, u := Reached(o, Begun(s), answers), Reached(o, Begun(s), more);
            && Expected(t.Pending(), Success(t.Pending())) && u == Interrupted(o, t, Success(t.Pending()), 7)
            && (u.enabled || u.status.done) && u.retries == t.retries && 1 <= Left(o, t)
                && (u.enabled ==> Left(o, u) < Left(o, t))
    ensures BeforeLast(Trace(o, Begun(s), more)) == BeforeLast(Trace(o, Begun(s), answers))
    ensures Failures(Trace(o, Begun(s), more)) == Failures(Trace(o, Begun(s), answers))
  {
    var t, trace := Reached(o, Begun(s), answers), Trace(o, Begun(s), answers);
    EveryRunSound(o, s, answers);
    assert Expected(t.Pending(), Success(t.Pending()));
    var a := Answer(Success(t.Pending()), 7);
    more := answers + [a];
    OneMore(o, Begun(s), answers, a);
    LastSnoc(trace, Event(t.Pending(), a.code, a.data));
    Snoc(trace, Event(t.Pending(), a.code, a.data));
    if t.reading {
      ReadNearer(o, t, trace, a.code, a.data);
    } else {
      WriteNearer(o, t, trace, a.code, a.data);
    }
  }

  // From any point of a run the bus can let it finish without another failure.
  lemma {:induction false} Finish(o: Order, s: State, answers: seq<Answer>) returns (all: seq<Answer>)
    requires Conforming(o, Begun(s), answers) && Reached(o, Begun(s), answers).enabled
    ensures Finished(o, Begun(s), all)
    ensures BeforeLast(Trace(o, Begun(s), all)) == BeforeLast(Trace(o, Begun(s), answers))
    decreases Left(o, Reached(o, Begun(s), answers))
  {
    hide Conforming, Reached, Trace, Left, BeforeLast, Interrupted;
    all := Succeed(o, s, answers);
    if Reached(o, Begun(s), all).enabled {
      all := Finish(o, s, all);
    }
  }

  // It can let it come to where one byte of several has been read.
  lemma {:induction false} ReadFirst(o: Order, s: State, answers: seq<Answer>) returns (more: seq<Answer>)
    requires Conforming(o, Begun(s), answers) && o.Rx() >= 2
    requires var t := Reached(o, Begun(s), answers); t.enabled && t.rx == [] && t.retries == s.retries
    ensures Conforming(o, Begun(s), more)
    ensures var u := Reached(o, Begun(s), more); u.enabled && |u.rx| == 1 && u.retries == s.retries
    decreases Left(o, Reached(o, Begun(s), answers))
  {
    var t := Reached(o, Begun(s), answers);
    EveryRunSound(o, s, answers);
    FirstByteGoesOn(o, s.retries, t, Trace(o, Begun(s), answers));
    hide Conforming, Reached, Trace, Left, BeforeLast, Interrupted;
    more := Succeed(o, s, answers);
    if |Reached(o, Begun(s), more).rx| != 1 {
      more := ReadFirst(o, s, more);
    }
  }

  lemma FirstByteGoesOn(o: Order, retries: nat, t: State, trace: seq<Event>)
    requires Sound(o, retries, t, trace) && t.enabled && t.rx == [] && o.Rx() >= 2
    ensures var u := Interrupted(o, t, Success(t.Pending()), 7); u.enabled && (u.rx == [] || |u.rx| == 1)
  {
    hide Delivered, Collected, Failures;
  }

  // A run that reads one byte, fails, and then finishes: its last attempt reads one byte less.
  lemma Splice(o: Order, s: State) returns (all: seq<Answer>)
    requires Allowed(o, s.retries) > 0 && o.Rx() >= 2
    ensures Finished(o, Begun(s), all) && !FilledByLast(o, Begun(s), all)
  {
    var one := ReadFirst(o, s, []);
    var t, trace := Reached(o, Begun(s), one), Trace(o, Begun(s), one);
    var lost := Answer(ARB_LOST, 0);
    EveryRunSound(o, s, one);
    OneMore(o, Begun(s), one, lost);
    LastSnoc(trace, Event(t.Pending(), ARB_LOST, 0));
    Snoc(trace, Event(t.Pending(), ARB_LOST, 0));
    FailureRetries(o, t, trace, ARB_LOST, 0);
    hide Conforming, Reached, Trace, Left, BeforeLast, Interrupted, Finished;
    all := Finish(o, s, one + [lost]);
    assert |Collected(BeforeLast(Trace(o, Begun(s), all)))| == 1;
    assert Conforming(o, Begun(s), all) by { FinishedConforms(o, Begun(s), all); }
    FilledWhenNothingBefore(o, s, all);
  }

  lemma FinishedConforms(o: Order, s: State, answers: seq<Answer>)
    requires Finished(o, s, answers)
    ensures Conforming(o, s, answers)
  {}

  /**
    A retry while reading resumes at the byte it had reached, so a buffer can be spliced from several
    attempts.  Every finished run is filled by its last attempt alone exactly when the transfer has no
    retry left to spend or asks for at most one byte.
   */
  lemma LastAttemptFillsBufferIff(o: Order, s: State)
    ensures (forall answers :: Finished(o, Begun(s), answers) ==> FilledByLast(o, Begun(s), answers))
            <==> Allowed(o, s.retries) == 0 || o.Rx() <= 1
  {
    if Allowed(o, s.retries) == 0 || o.Rx() <= 1 {
      forall answers | Finished(o, Begun(s), answers) ensures FilledByLast(o, Begun(s), answers) {
        FilledWhenNothingBefore(o, s, answers);
        EarlierReadLess(o, s, answers);
        EveryRunSound(o, s, answers);
        if Allowed(o, s.retries) == 0 {
          UnfailedIsLast(Trace(o, Begun(s), answers));
        }
      }
    } else {
      var all := Splice(o, s);
      hide Finished, FilledByLast;
    }
  }

  /** What a finished buffer consists of. */
  lemma BufferSplits(o: Order, s: State, answers: seq<Answer>)
    requires Conforming(o, Begun(s), answers)
    ensures var trace := Trace(o, Begun(s), answers);
            Reached(o, Begun(s), answers).rx == Collected(BeforeLast(trace)) + Collected(LastAttempt(trace))
  {
    EveryRunSound(o, s, answers);
    CollectedSplits(Trace(o, Begun(s), answers));
  }

  // ---------- the driver's own runs ----------

  // Interrupts served until the transfer is over or n have been.
  method Serve(driver: MasterDriver, n: nat) returns (ghost answers: seq<Answer>)
    requires driver.Ready() && driver.interrupts
    modifies driver, driver.setup, driver.port, driver.setup.rxData
    ensures driver.Ready() && TheOrder(driver.setup) == old(TheOrder(driver.setup))
    ensures driver.View() == Reached(TheOrder(driver.setup), old(driver.View()), answers)
    ensures driver.port.trace == old(driver.port.trace) + Trace(TheOrder(driver.setup), old(driver.View()), answers)
                                 + if driver.interrupts then [] else [STOPPED]
    ensures if driver.interrupts then |answers| == n else |answers| <= n
  {
    ghost var o, s, before := TheOrder(driver.setup), driver.View(), driver.port.trace;
    var served := 0;
    answers := [];
    while served < n && driver.interrupts
      invariant driver.Ready() && TheOrder(driver.setup) == o && |answers| == served <= n
      invariant driver.View() == Reached(o, s, answers)
      invariant driver.port.trace == before + Trace(o, s, answers) + if driver.interrupts then [] else [STOPPED]
    {
      ghost var t, trace := driver.View(), Trace(o, s, answers);
      var code, data := driver.Service();
      OneMore(o, s, answers, Answer(code, data));
      answers, served := answers + [Answer(code, data)], served + 1;
    }
  }

  /**
    A whole interrupt-driven transfer by the driver.  On a conforming bus it is over within the bound,
    and if it reports DONE the bytes are out, acknowledged, and the buffer is what was read.
   */
  method Transfer(driver: MasterDriver, n: nat) returns (ghost answers: seq<Answer>)
    requires driver.Ready()
    modifies driver, driver.setup, driver.port, driver.setup.rxData
    ensures driver.Ready() && TheOrder(driver.setup) == old(TheOrder(driver.setup))
    ensures driver.View() == Reached(TheOrder(driver.setup), Begun(old(driver.View())), answers)
    ensures var o, trace := TheOrder(driver.setup), Trace(TheOrder(driver.setup), Begun(old(driver.View())), answers);
            && driver.port.trace == old(driver.port.trace) + trace + (if driver.interrupts then [] else [STOPPED])
            && (Conforming(o, Begun(old(driver.View())), answers) ==>
                  && Aimed(trace, driver.setup.address)
                  && (n > Bound(driver.setup, old(driver.setup.retransmissionsCount)) ==> !driver.interrupts)
                  && (!driver.interrupts && driver.setup.status.done ==>
                        Delivered(trace) == driver.setup.Tx() && driver.setup.Received() == Collected(trace)
                            && |Collected(trace)| == driver.setup.Rx()))
  {
    ghost var o, s := TheOrder(driver.setup), driver.View();
    hide Conforming, Reached, Trace, Bound, Aimed, Delivered, Collected;
    driver.MasterTransferData();
    answers := Serve(driver, n);
    if Conforming(o, Begun(s), answers) {
      BoundHolds(driver.setup, o, s, answers);
      RunAimed(o, s, answers);
      DoneMeansTransferred(o, s, answers);
    }
  }

  lemma RunAimed(o: Order, s: State, answers: seq<Answer>)
    requires Conforming(o, Begun(s), answers)
    ensures Aimed(Trace(o, Begun(s), answers), o.address)
  {
    EveryRunSound(o, s, answers);
    hide Sound, Conforming, Reached, Trace, Aimed;
  }

  lemma BoundHolds(setup: MasterSetup, o: Order, s: State, answers: seq<Answer>)
    requires setup.Ready() && o == TheOrder(setup) && Conforming(o, Begun(s), answers)
    ensures |answers| <= Bound(setup, s.retries)
  {
    hide Conforming, TheOrder, Bound, Allowed, Span;
    EveryRunEnds(o, s, answers);
    BoundIs(setup, s.retries);
  }

  lemma BoundIs(setup: MasterSetup, used: nat)
    requires setup.Ready()
    ensures Bound(setup, used) == (Allowed(TheOrder(setup), used) + 1) * Span(TheOrder(setup))
  {
    OrderIs(setup);
    hide TheOrder;
  }

  lemma OrderIs(setup: MasterSetup)
    requires setup.Ready()
    ensures var o := TheOrder(setup);
            o.tx == setup.Tx() && o.Rx() == setup.Rx() && o.retriesMax == setup.retransmissionsMax
  {}

  // Interrupts a transfer of this setup takes at most, with so many retries used up before.
  ghost function Bound(setup: MasterSetup, used: nat): nat
    requires setup.Ready()
    reads setup.txData
  {
    var left := if used < setup.retransmissionsMax then setup.retransmissionsMax - used else 0;
    (left + 1) * (|setup.Tx()| + setup.Rx() + 4)
  }
}

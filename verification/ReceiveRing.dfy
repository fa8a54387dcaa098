/**
  The Ethernet receive ring: descriptors and buffers the MAC fills at RxProduceIndex while the
  driver empties them at RxConsumeIndex.  The MAC is a step that may happen between any two driver
  calls; it stops when advancing would make the indices meet.
 */
module ReceiveRing {
  type Word = bv32

  // A frame and the status word the MAC stores with it, whose low eleven bits are its size in bytes.
  datatype Frame = Frame(words: seq<Word>, info: nat)

  const SIZE_MASK := 0x800
  const RCTRL_INT := 0x8000_0000
  const ETH_MAX_FLEN := 1536

  function SizeOf(info: nat): nat { info % SIZE_MASK }

  // The size is the low eleven bits of the status word: what remains has none of them.
  lemma SizeIsLowBits(info: nat) returns (above: nat)
    ensures SizeOf(info) < 2048 && info == 2048 * above + SizeOf(info)
  {
    above := info / 2048;
  }

  function WordsIn(bytes: nat): nat { (bytes + 3) / 4 }

  // Words enough for the bytes, and none to spare.
  lemma WordsHold(bytes: nat)
    ensures 4 * WordsIn(bytes) - 4 < bytes <= 4 * WordsIn(bytes)
  {}

  predicate Proper(f: Frame) { |f.words| == WordsIn(SizeOf(f.info)) }

  // ---------- a queue of limited room and its reader ----------

  // Where the driver stands between two of its calls: it looks for a frame, asks for its size, copies
  // it, gives it back.
  datatype Stage = Idle | Found | Sized(size: nat) | Copied

  // A frame arrives, or the driver makes its next call.
  datatype Event = Arrive(frame: Frame) | Drive

  datatype Fifo = Fifo(accepted: seq<Frame>, delivered: seq<Frame>, copies: seq<seq<Word>>, stage: Stage) {
    // `base` frames had been delivered when copying began.
    predicate Sound(room: nat, base: nat) {
      && delivered <= accepted && |accepted| - |delivered| <= room
      && (!stage.Idle? ==> |delivered| < |accepted|)
      && (stage.Sized? ==> stage.size == SizeOf(accepted[|delivered|].info))
      && base + |copies| == |delivered| + (if stage.Copied? then 1 else 0)
      && forall i :: 0 <= i < |copies| ==> copies[i] == accepted[base + i].words
    }
  }

  // A frame arriving is taken in if there is room.  The driver works on the oldest frame, which is
  // delivered when it gives it back.
  function Step(q: Fifo, e: Event, room: nat): Fifo {
    match e
    case Arrive(frame) => if |q.accepted| < |q.delivered| + room then q.(accepted := q.accepted + [frame]) else q
    case Drive =>
      if |q.accepted| <= |q.delivered| then q
      else
        var oldest := q.accepted[|q.delivered|];
        match q.stage
        case Idle => q.(stage := Found)
        case Found => q.(stage := Sized(SizeOf(oldest.info)))
        case Sized(_) => q.(stage := Copied, copies := q.copies + [oldest.words])
        case Copied => q.(stage := Idle, delivered := q.delivered + [oldest])
  }

  function Play(q: Fifo, events: seq<Event>, room: nat): Fifo {
    if events == [] then q else Step(Play(q, events[..|events| - 1], room), events[|events| - 1], room)
  }

  /**
    Whatever the interleaving, frames are handed on in the order they came, none lost, none twice, and
    every copy is that of the frame it belongs to.
   */
  lemma {:induction false} PlayInOrder(q: Fifo, events: seq<Event>, room: nat, base: nat)
    requires q.Sound(room, base)
    ensures var r := Play(q, events, room);
            r.Sound(room, base) && q.accepted <= r.accepted && q.delivered <= r.delivered && q.copies <= r.copies
  {
    if events != [] {
      PlayInOrder(q, events[..|events| - 1], room, base);
      StepInOrder(Play(q, events[..|events| - 1], room), events[|events| - 1], room, base);
    }
  }

  lemma StepInOrder(q: Fifo, e: Event, room: nat, base: nat)
    requires q.Sound(room, base)
    ensures var r := Step(q, e, room);
            r.Sound(room, base) && q.accepted <= r.accepted && q.delivered <= r.delivered && q.copies <= r.copies
  {}

  // ---------- the ring ----------

  // Index i places behind index c on a ring of n.
  function Slot(c: nat, i: nat, n: nat): (s: nat)
    requires c < n && i <= n
    ensures s < n
  {
    if c + i < n then c + i else c + i - n
  }

  // How many descriptors the two indices say are filled.
  function Pending(consume: nat, produce: nat, n: nat): (p: nat)
    requires consume < n && produce < n
    ensures p < n && Slot(consume, p, n) == produce
  {
    if consume <= produce then produce - consume else produce + n - consume
  }

  // Advancing an empty ring makes it look full of n - 1 frames that never arrived.
  lemma AdvanceEmpty(consume: nat, n: nat)
    requires 2 <= n && consume < n
    ensures Pending(Slot(consume, 1, n), consume, n) == n - 1
  {}

  class Ring {
    const count: nat
    const width: nat
    const packet: array<nat>
    const ctrl: array<nat>
    const info: array<nat>
    const hashCrc: array<nat>
    const rxBuf: array2<Word>
    var rxDescriptorNumber: nat
    var rxConsumeIndex: nat
    var rxProduceIndex: nat

    // Frames accepted by the MAC, and what the descriptors given back by the driver held.
    ghost var accepted: seq<Frame>
    ghost var delivered: seq<Frame>

    ghost function History(copies: seq<seq<Word>>, stage: Stage): Fifo
      reads this
    {
      Fifo(accepted, delivered, copies, stage)
    }

    // The frames are as long as their sizes say and fit the buffers.
    ghost predicate AllFit()
      reads this`accepted
    {
      forall f :: f in accepted ==> Proper(f) && |f.words| <= width
    }

    // The frames waiting in the ring, oldest first.
    ghost function Queue(): seq<Frame>
      reads this
    {
      if |delivered| <= |accepted| then accepted[|delivered|..] else []
    }

    ghost function Row(d: nat, n: nat): (words: seq<Word>)
      requires d < rxBuf.Length0 && n <= rxBuf.Length1
      reads rxBuf
      ensures |words| == n && forall w :: 0 <= w < n ==> words[w] == rxBuf[d, w]
    {
      if n == 0 then [] else Row(d, n - 1) + [rxBuf[d, n - 1]]
    }

    // What descriptor d and its buffer hold.
    ghost function Stored(d: nat): Frame
      requires d < rxBuf.Length0 && d < info.Length
      reads rxBuf, info
    {
      var n := WordsIn(SizeOf(info[d]));
      Frame(Row(d, if n <= rxBuf.Length1 then n else rxBuf.Length1), info[d])
    }

    ghost predicate Shape()
      reads this`rxDescriptorNumber, packet, ctrl
    {
      && 2 <= count && packet.Length == ctrl.Length == info.Length == hashCrc.Length == rxBuf.Length0 == count
      && rxBuf.Length1 == width && rxDescriptorNumber == count - 1
      && packet !in {ctrl, info, hashCrc} && ctrl !in {info, hashCrc} && info != hashCrc
      && (forall i :: 0 <= i < count ==> packet[i] == i && ctrl[i] == RCTRL_INT + (ETH_MAX_FLEN - 1))
    }

    ghost predicate Valid()
      reads this, packet, ctrl, info, rxBuf
    {
      && Shape()
      && rxConsumeIndex < count && rxProduceIndex < count
      && delivered <= accepted
      && |Queue()| == Pending(rxConsumeIndex, rxProduceIndex, count)
      && (forall i {:trigger Queue()[i]} :: 0 <= i < |Queue()| ==> Stored(Slot(rxConsumeIndex, i, count)) == Queue()[i])
    }

    // lpc17xx_emac.c:96-115, RxProduceIndex cleared by the MAC reset.
    constructor (n: nat, w: nat)
      requires 2 <= n
      ensures Valid() && count == n && width == w
      ensures accepted == delivered == []
      ensures forall i :: 0 <= i < n ==> packet[i] == i && ctrl[i] == 0x8000_05FF
      ensures fresh(packet) && fresh(ctrl) && fresh(info) && fresh(hashCrc) && fresh(rxBuf)
    {
      count, width := n, w;
      packet, ctrl, info, hashCrc := new nat[n], new nat[n], new nat[n], new nat[n];
      rxBuf := new Word[n, w];
      rxDescriptorNumber, rxConsumeIndex, rxProduceIndex := n - 1, 0, 0;
      accepted, delivered := [], [];
      new;
      for i := 0 to n
        modifies packet, ctrl, info, hashCrc
        invariant forall j :: 0 <= j < i ==> packet[j] == j && ctrl[j] == RCTRL_INT + (ETH_MAX_FLEN - 1)
      {
        packet[i] := i;
        ctrl[i] := RCTRL_INT + (ETH_MAX_FLEN - 1);
        info[i] := 0;
        hashCrc[i] := 0;
      }
    }

    // The MAC stores a frame in the descriptor at RxProduceIndex, unless the ring is full.
    method HardwareReceive(frame: Frame) returns (stored: bool)
      requires Valid() && Proper(frame) && |frame.words| <= width
      modifies this`rxProduceIndex, this`accepted, info, rxBuf
      ensures Valid() && delivered == old(delivered) && rxConsumeIndex == old(rxConsumeIndex)
      ensures stored <==> |old(Queue())| < count - 1
      ensures accepted == if stored then old(accepted) + [frame] else old(accepted)
    {
      hide Stored, Proper;
      var next := if rxProduceIndex == rxDescriptorNumber then 0 else rxProduceIndex + 1;
      if next == rxConsumeIndex {
        return false;
      }
      ghost var queue := Queue();
      StoreFrame(rxProduceIndex, frame);
      forall i | 0 <= i < |queue| ensures Stored(Slot(rxConsumeIndex, i, count)) == queue[i] {
        assert Slot(rxConsumeIndex, i, count) != rxProduceIndex;
        assert old(Stored(Slot(rxConsumeIndex, i, count))) == queue[i];
      }
      rxProduceIndex := next;
      accepted := accepted + [frame];
      assert Queue() == queue + [frame];
      stored := true;
    }

    method StoreFrame(d: nat, frame: Frame)
      requires d < info.Length == rxBuf.Length0 && Proper(frame) && |frame.words| <= rxBuf.Length1
      modifies info, rxBuf
      ensures Stored(d) == frame
      ensures forall e :: 0 <= e < info.Length && e != d ==> Stored(e) == old(Stored(e))
    {
      info[d] := frame.info;
      WriteRow(d, frame.words);
      hide WordsIn, SizeOf;
      forall e | 0 <= e < info.Length && e != d ensures Stored(e) == old(Stored(e)) {
        assert Stored(e).words == old(Stored(e)).words;
      }
    }

    method WriteRow(d: nat, words: seq<Word>)
      requires d < rxBuf.Length0 && |words| <= rxBuf.Length1
      modifies rxBuf
      ensures forall w :: 0 <= w < |words| ==> rxBuf[d, w] == words[w]
      ensures forall e, w :: 0 <= e < rxBuf.Length0 && 0 <= w < rxBuf.Length1 && e != d ==>
          rxBuf[e, w] == old(rxBuf[e, w])
    {
      for k := 0 to |words|
        invariant forall w :: 0 <= w < k ==> rxBuf[d, w] == words[w]
        invariant forall e, w :: 0 <= e < rxBuf.Length0 && 0 <= w < rxBuf.Length1 && e != d ==>
            rxBuf[e, w] == old(rxBuf[e, w])
      {
        rxBuf[d, k] := words[k];
      }
    }

    // lpc17xx_emac.c:834-841
    method CheckReceiveIndex() returns (available: bool)
      requires Valid()
      ensures available <==> Queue() != []
    {
      available := rxConsumeIndex != rxProduceIndex;
    }

    // lpc17xx_emac.c:898-903
    method GetReceiveDataSize() returns (size: nat)
      requires Valid()
      ensures Queue() != [] ==> size == SizeOf(Queue()[0].info)
    {
      size := info[rxConsumeIndex] % SIZE_MASK;
      if Queue() != [] {
        assert Stored(Slot(rxConsumeIndex, 0, count)) == Queue()[0];
      }
    }

    // lpc17xx_emac.c:753-767 : copies whole words, dataLen bytes rounded up; nothing for a null buffer.
    method ReadPacketBuffer(dest: array?<Word>, dataLen: nat)
      requires Valid() && (dest == null || dest as object !in {packet, ctrl, info, hashCrc})
      requires WordsIn(dataLen) <= width && (dest == null || WordsIn(dataLen) <= dest.Length)
      modifies if dest == null then {} else {dest}
      ensures Valid() && Queue() == old(Queue())
      ensures dest != null ==> dest[WordsIn(dataLen)..] == old(dest[WordsIn(dataLen)..])
      ensures dest != null && Queue() != [] && WordsIn(dataLen) <= |Queue()[0].words| ==>
                dest[..WordsIn(dataLen)] == Queue()[0].words[..WordsIn(dataLen)]
    {
      var row := packet[rxConsumeIndex];
      if dest != null {
        var len, k := WordsIn(dataLen), 0;
        hide WordsIn, SizeOf;
        while len != 0
          invariant 0 <= len && k + len == WordsIn(dataLen) && Valid()
          invariant forall w :: 0 <= w < k ==> dest[w] == rxBuf[row, w]
          invariant dest[WordsIn(dataLen)..] == old(dest[WordsIn(dataLen)..])
        {
          dest[k] := rxBuf[row, k];
          k, len := k + 1, len - 1;
        }
        if Queue() != [] {
          assert Stored(Slot(rxConsumeIndex, 0, count)) == Queue()[0];
        }
      }
    }

    // lpc17xx_emac.c:912-920 : gives the descriptor at RxConsumeIndex back to the MAC, and with it what
    // it held.  Nothing guards the call: on an empty ring that is no frame the MAC accepted, and the
    // indices come to announce count - 1 frames that never arrived.
    method UpdateRxConsumeIndex()
      requires Valid()
      modifies this`rxConsumeIndex, this`delivered
      ensures delivered == old(delivered) + [old(Stored(rxConsumeIndex))]
      ensures Valid() <==> old(Queue()) != []
      ensures old(Queue()) != [] ==> delivered == old(delivered) + [old(Queue())[0]]
      ensures old(Queue()) == [] ==>
                rxConsumeIndex < count && Pending(rxConsumeIndex, rxProduceIndex, count) == count - 1
    {
      ghost var queue := Queue();
      if queue != [] {
        assert Stored(Slot(rxConsumeIndex, 0, count)) == queue[0];
      }
      delivered := delivered + [Stored(rxConsumeIndex)];
      var idx := rxConsumeIndex + 1;
      if idx == count {
        idx := 0;
      }
      rxConsumeIndex := idx;
      if queue != [] {
        assert Queue() == queue[1..];
      } else {
        AdvanceEmpty(rxProduceIndex, count);
      }
    }

    // Asks for the size of the oldest frame and copies as much.
    method ReadFrame(dest: array<Word>)
      requires Valid() && AllFit() && Queue() != []
      requires dest as object !in {packet, ctrl, info, hashCrc} && width <= dest.Length
      modifies dest
      ensures Valid() && Queue() == old(Queue())
      ensures |Queue()[0].words| <= dest.Length && dest[..|Queue()[0].words|] == Queue()[0].words
    {
      ghost var first := Queue()[0];
      assert first == accepted[|delivered|] && first in accepted;
      hide SizeOf, WordsIn, Valid, Queue;
      var size := GetReceiveDataSize();
      ReadPacketBuffer(dest, size);
      assert first.words[..|first.words|] == first.words;
    }

    // A whole taking: check, read as much as the status says, give back.
    method TakeFrame(dest: array<Word>) returns (taken: bool, ghost first: Frame)
      requires Valid() && AllFit() && dest as object !in {packet, ctrl, info, hashCrc} && width <= dest.Length
      modifies this`rxConsumeIndex, this`delivered, dest
      ensures Valid() && accepted == old(accepted)
      ensures taken <==> old(Queue()) != []
      ensures !taken ==> delivered == old(delivered)
      ensures taken ==> first == old(Queue())[0] && delivered == old(delivered) + [first]
      ensures taken ==> |first.words| <= dest.Length && dest[..|first.words|] == first.words
    {
      hide AllFit, Valid, Queue;
      first := Frame([], 0);
      taken := CheckReceiveIndex();
      if taken {
        first := Queue()[0];
        ReadFrame(dest);
        UpdateRxConsumeIndex();
      }
    }

    // The driver's next call.
    method DriverCall(dest: array<Word>, stage: Stage, ghost copies: seq<seq<Word>>, ghost base: nat)
      returns (next: Stage, ghost copied: seq<seq<Word>>)
      requires Valid() && AllFit() && History(copies, stage).Sound(count - 1, base)
      requires dest as object !in {packet, ctrl, info, hashCrc} && width <= dest.Length
      modifies this`rxConsumeIndex, this`delivered, dest
      ensures Valid() && History(copied, next) == Step(old(History(copies, stage)), Drive, count - 1)
    {
      ghost var waiting := Queue();
      assert waiting != [] <==> |delivered| < |accepted|;
      assert waiting != [] ==> waiting[0] == accepted[|delivered|] && waiting[0] in accepted;
      hide SizeOf, WordsIn, Valid, Queue;
      next, copied := stage, copies;
      match stage {
        case Idle =>
          var available := CheckReceiveIndex();
          next := if available then Found else Idle;
        case Found =>
          var size := GetReceiveDataSize();
          next := Sized(size);
        case Sized(size) =>
          ReadPacketBuffer(dest, size);
          assert dest[..WordsIn(size)] == waiting[0].words;
          next, copied := Copied, copies + [dest[..WordsIn(size)]];
        case Copied =>
          UpdateRxConsumeIndex();
          next := Idle;
      }
    }

    /**
      Any interleaving of arrivals with the single calls of the driver: the ring is the queue, also when
      frames arrive while the oldest is being copied, and what is handed on is what the buffers held.
     */
    method Run(events: seq<Event>, dest: array<Word>) returns (stage: Stage, ghost copies: seq<seq<Word>>)
      requires Valid() && AllFit() && dest as object !in {packet, ctrl, info, hashCrc} && width <= dest.Length
      requires forall i :: 0 <= i < |events| && events[i].Arrive? ==>
          Proper(events[i].frame) && |events[i].frame.words| <= width
      modifies this`rxConsumeIndex, this`rxProduceIndex, this`accepted, this`delivered, info, rxBuf, dest
      ensures Valid() && AllFit() && History(copies, stage) == Play(old(History([], Idle)), events, count - 1)
      ensures History(copies, stage).Sound(count - 1, old(|delivered|))
    {
      hide AllFit, Valid, Step;
      stage, copies := Idle, [];
      ghost var first, base := History([], Idle), |delivered|;
      assert first.Sound(count - 1, base) by { WaitingFewer(); }
      for k := 0 to |events|
        invariant Valid() && AllFit() && History(copies, stage) == Play(first, events[..k], count - 1)
        invariant History(copies, stage).Sound(count - 1, base)
      {
        assert events[..k + 1][..k] == events[..k];
        stage, copies := Happen(events[k], dest, stage, copies, base);
      }
      assert events[..|events|] == events;
    }

    lemma WaitingFewer()
      requires Valid()
      ensures delivered <= accepted && |accepted| - |delivered| <= count - 1
    {}

    method Happen(e: Event, dest: array<Word>, stage: Stage, ghost copies: seq<seq<Word>>, ghost base: nat)
      returns (next: Stage, ghost copied: seq<seq<Word>>)
      requires Valid() && AllFit() && History(copies, stage).Sound(count - 1, base)
      requires dest as object !in {packet, ctrl, info, hashCrc} && width <= dest.Length
      requires e.Arrive? ==> Proper(e.frame) && |e.frame.words| <= width
      modifies this`rxConsumeIndex, this`rxProduceIndex, this`accepted, this`delivered, info, rxBuf, dest
      ensures Valid() && AllFit() && History(copied, next) == Step(old(History(copies, stage)), e, count - 1)
      ensures History(copied, next).Sound(count - 1, base)
    {
      WaitingFewer();
      StepInOrder(History(copies, stage), e, count - 1, base);
      hide Proper, Fifo.Sound;
      match e {
        case Arrive(frame) =>
          var stored := HardwareReceive(frame);
          next, copied := stage, copies;
        case Drive =>
          next, copied := DriverCall(dest, stage, copies, base);
      }
    }
  }
}

/**
  The imperfect hash filter of the Ethernet MAC: 64 accept bits in two registers, indexed by six
  bits of the CRC of a destination address.
 */
module HashFilter {
  import opened EthernetCrc

  datatype Filter = Filter(high: bv32, low: bv32)

  // Bits 28 to 23 of the CRC of the address.
  function Index(address: seq<bv8>): bv32 { (Sar(SerialCrc(address), 23)) & 0x3F }

  predicate IsSet(word: bv32, j: bv32)
    requires j < 32
  {
    (word >> j) & 1 == 1
  }

  // Accept bit k, for k below 64.
  predicate Accepts(f: Filter, k: bv32)
    requires k < 64
  {
    if k > 31 then IsSet(f.high, k - 32) else IsSet(f.low, k)
  }

  // `1UL << k`
  function Mask(k: bv32): bv32
    requires k < 32
  {
    1 << k
  }

  function Inverse(w: bv32): bv32 { !w }

  function AndOf(w: bv32, m: bv32): bv32 { w & m }

  // `|= mask` and `&= ~mask`
  function WithBit(word: bv32, k: bv32, on: bool): bv32
    requires k < 32
  {
    if on then word | Mask(k) else AndOf(word, Inverse(Mask(k)))
  }

  lemma OneBit(k: bv32, j: bv32)
    requires k < 32 && j < 32
    ensures IsSet(Mask(k), j) <==> j == k
  {}

  lemma OrBit(w: bv32, m: bv32, j: bv32)
    requires j < 32
    ensures IsSet(w | m, j) <==> IsSet(w, j) || IsSet(m, j)
  {}

  lemma AndBit(w: bv32, m: bv32, j: bv32)
    requires j < 32
    ensures IsSet(AndOf(w, m), j) <==> IsSet(w, j) && IsSet(m, j)
  {}

  lemma NotBit(m: bv32, j: bv32)
    requires j < 32
    ensures IsSet(Inverse(m), j) <==> !IsSet(m, j)
  {}

  lemma WithBitEffect(word: bv32, k: bv32, on: bool, j: bv32)
    requires k < 32 && j < 32
    ensures IsSet(WithBit(word, k, on), j) <==> if j == k then on else IsSet(word, j)
  {
    hide IsSet;
    if on {
      SetEffect(word, k, j);
    } else {
      ClearEffect(word, k, j);
    }
  }

  lemma SetEffect(word: bv32, k: bv32, j: bv32)
    requires k < 32 && j < 32
    ensures IsSet(WithBit(word, k, true), j) <==> j == k || IsSet(word, j)
  {
    hide IsSet, Mask;
    OneBit(k, j);
    OrBit(word, Mask(k), j);
  }

  lemma ClearEffect(word: bv32, k: bv32, j: bv32)
    requires k < 32 && j < 32
    ensures IsSet(WithBit(word, k, false), j) <==> j != k && IsSet(word, j)
  {
    OneBit(k, j);
    NotBit(Mask(k), j);
    AndBit(word, Inverse(Mask(k)), j);
    hide IsSet, Mask, Inverse, AndOf;
  }

  // What one command does to the two registers.
  function Programmed(f: Filter, k: bv32, on: bool): Filter
    requires k < 64
  {
    if k > 31 then f.(high := WithBit(f.high, k - 32, on)) else f.(low := WithBit(f.low, k, on))
  }

  // It decides accept bit k and leaves the 63 others alone.
  lemma ProgrammedBit(f: Filter, k: bv32, on: bool, j: bv32)
    requires k < 64 && j < 64
    ensures Accepts(Programmed(f, k, on), j) <==> if j == k then on else Accepts(f, j)
  {
    if k > 31 && j > 31 {
      WithBitEffect(f.high, k - 32, on, j - 32);
    } else if k <= 31 && j <= 31 {
      WithBitEffect(f.low, k, on, j);
    }
    hide IsSet, WithBit;
  }

  lemma IndexBelow64(address: seq<bv8>)
    ensures Index(address) < 64
  {
    SixBits(Sar(SerialCrc(address), 23));
  }

  lemma SixBits(x: bv32)
    ensures x & 0x3F < 64
  {}

  // Bit n of a register, counted from the least significant.
  predicate RegisterBit(register: bv32, n: bv32)
    requires n < 32
  {
    register & (1 << n) != 0
  }

  lemma FieldBits(x: bv32, j: bv32)
    requires j < 6
    ensures IsSet(Sar(x, 23) & 0x3F, j) <==> RegisterBit(x, 23 + j)
  {}

  /** Bit j of the index is bit 23 + j of the register that has taken in the address, and there are six. */
  lemma IndexBits(address: seq<bv8>, j: bv32)
    requires j < 32
    ensures j < 6 ==> (RegisterBit(Index(address), j) <==> RegisterBit(Feed(0xFFFFFFFF, FrameBits(address)), 23 + j))
    ensures j >= 6 ==> !RegisterBit(Index(address), j)
  {
    var crc := Feed(0xFFFFFFFF, FrameBits(address));
    IndexBelow64(address);
    assert Index(address) == Sar(crc, 23) & 0x3F;
    hide Feed, FrameBits, Index;
    SameBit(Index(address), j);
    if j < 6 {
      FieldBits(crc, j);
    } else {
      NoHighBit(Index(address), j);
    }
  }

  lemma SameBit(w: bv32, j: bv32)
    requires j < 32
    ensures IsSet(w, j) <==> RegisterBit(w, j)
  {}

  lemma NoHighBit(w: bv32, j: bv32)
    requires w < 64 && 6 <= j < 32
    ensures !RegisterBit(w, j)
  {}

  /** The bridge group address has accept bit 15. */
  lemma KnownIndex()
    ensures Index([0x01, 0x80, 0xC2, 0x00, 0x00, 0x00]) == 15
  {
    KnownCrc();
    hide SerialCrc;
  }

  // Accept bits 0 to 31 are those of the low register, 32 to 63 those of the high one.
  lemma AcceptBits(f: Filter, j: bv32)
    requires j < 32
    ensures Accepts(f, j) <==> RegisterBit(f.low, j)
    ensures Accepts(f, 32 + j) <==> RegisterBit(f.high, j)
  {
    SameBit(f.low, j);
    SameBit(f.high, j);
    hide IsSet, RegisterBit;
  }

  class MacFilter {
    var hashFilterH: bv32
    var hashFilterL: bv32
    var passRxFilter: bool

    function Bits(): Filter
      reads this
    {
      Filter(hashFilterH, hashFilterL)
    }

    // lpc17xx_emac.c:635-656
    method SetHashFilter(address: seq<bv8>, enable: bool, signedChar: bool)
      requires |address| == 6
      modifies this
      ensures Index(address) < 64 && Bits() == Programmed(old(Bits()), Index(address), enable)
      ensures !passRxFilter
    {
      IndexBelow64(address);
      hide SerialCrc, Sar;
      var crc := CrcCalc(address, signedChar);
      crc := Sar(crc, 23) & 0x3F;
      var tmp := if crc > 31 then crc - 32 else crc;
      hide Index, WithBit;
      if crc > 31 {
        hashFilterH := WithBit(hashFilterH, tmp, enable);
      } else {
        hashFilterL := WithBit(hashFilterL, tmp, enable);
      }
      passRxFilter := false;
    }
  }

  // ---------- any history of commands ----------

  datatype Command = Command(address: seq<bv8>, enable: bool)

  function After(f: Filter, history: seq<Command>): Filter
    decreases |history|
  {
    if history == [] then f
    else
      var last := history[|history| - 1];
      IndexBelow64(last.address);
      Programmed(After(f, history[..|history| - 1]), Index(last.address), last.enable)
  }

  // Command i is the last one whose address hashes to k.
  ghost predicate LastOn(history: seq<Command>, k: bv32, i: nat) {
    && i < |history| && Index(history[i].address) == k
    && (forall j :: i < j < |history| ==> Index(history[j].address) != k)
  }

  // Accept bit k is what the last command on it said, or what it was when there was none.
  lemma {:induction false} HistoryDecides(f: Filter, history: seq<Command>, k: bv32)
    requires k < 64
    ensures forall i: nat :: LastOn(history, k, i) ==> (Accepts(After(f, history), k) <==> history[i].enable)
    ensures (forall i :: 0 <= i < |history| ==> Index(history[i].address) != k) ==>
              (Accepts(After(f, history), k) <==> Accepts(f, k))
    decreases |history|
  {
    hide Index, Accepts, Programmed;
    if history != [] {
      var n := |history| - 1;
      var before, last := history[..n], history[n];
      IndexBelow64(last.address);
      HistoryDecides(f, before, k);
      ProgrammedBit(After(f, before), Index(last.address), last.enable, k);
      forall i: nat | LastOn(history, k, i)
        ensures Accepts(After(f, history), k) <==> history[i].enable
      {
        if i < n {
          assert Index(last.address) != k;
          assert LastOn(before, k, i);
        }
      }
      assert forall i :: 0 <= i < n ==> before[i] == history[i];
    }
  }

  // A frame to an address that was enabled is turned away only if an address with the same index
  // was disabled later.
  lemma EnabledIsAccepted(f: Filter, history: seq<Command>, i: nat)
    requires i < |history| && history[i].enable
    requires forall j :: i < j < |history| && Index(history[j].address) == Index(history[i].address) ==>
        history[j].enable
    ensures Index(history[i].address) < 64
    ensures Accepts(After(f, history), Index(history[i].address))
  {
    hide Index, Accepts, Programmed;
    var k := Index(history[i].address);
    IndexBelow64(history[i].address);
    HistoryDecides(f, history, k);
    var last := LastExists(history, k, i);
  }

  lemma {:induction false} LastExists(history: seq<Command>, k: bv32, i: nat) returns (last: nat)
    requires i < |history| && Index(history[i].address) == k
    ensures i <= last && LastOn(history, k, last)
    decreases |history|
  {
    hide Index;
    var n := |history| - 1;
    if Index(history[n].address) == k {
      last := n;
    } else {
      last := LastExists(history[..n], k, i);
    }
  }
}

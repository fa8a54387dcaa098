/**
  The Ethernet driver's nibble-at-a-time CRC.  It equals the bit-serial shift register for the
  IEEE 802.3 generator polynomial, and so inherits its error detection: no burst of up to 32 bits
  goes unnoticed, and 33 is the first length for which one can.
 */
module EthernetCrc {

  const INIT: bv32 := 0xFFFFFFFF

  // ---------- the bit-serial register ----------

  // The generator 0x04C11DB7 is that of section 3.2.9 of IEEE 802.3-2008, without the x^32 term.
  function Shl(x: bv32): bv32 { x << 1 }

  function ShlAdd(x: bv32): bv32 { (x << 1) ^ 0x04C11DB7 }

  predicate Top(x: bv32) { x >> 31 == 1 }

  // Shift one place; add the generator when the bit shifted out differs from the incoming one.
  function StepBit(crc: bv32, bit: bool): bv32 {
    if Top(crc) != bit then ShlAdd(crc) else Shl(crc)
  }

  function Feed(crc: bv32, bits: seq<bool>): bv32
    decreases |bits|
  {
    if bits == [] then crc else Feed(StepBit(crc, bits[0]), bits[1..])
  }

  function LowBits(b: bv8): (bits: seq<bool>)
    ensures |bits| == 4
  {
    [b & 1 == 1, (b >> 1) & 1 == 1, (b >> 2) & 1 == 1, (b >> 3) & 1 == 1]
  }

  // Least significant bit first.
  function ByteBits(b: bv8): (bits: seq<bool>)
    ensures |bits| == 8
  {
    LowBits(b) + LowBits(b >> 4)
  }

  function FrameBits(frame: seq<bv8>): (bits: seq<bool>)
    ensures |bits| == 8 * |frame|
  {
    if frame == [] then [] else FrameBits(frame[..|frame| - 1]) + ByteBits(frame[|frame| - 1])
  }

  function SerialCrc(frame: seq<bv8>): bv32 { Feed(INIT, FrameBits(frame)) }

  lemma {:induction false} FeedConcat(crc: bv32, x: seq<bool>, y: seq<bool>)
    ensures Feed(crc, x + y) == Feed(Feed(crc, x), y)
    decreases |x|
  {
    if x == [] {
      assert x + y == y;
    } else {
      assert (x + y)[1..] == x[1..] + y;
      FeedConcat(StepBit(crc, x[0]), x[1..], y);
    }
  }

  // ---------- the driver's loop ----------

  // `>>` on a negative int.
  function Sar(x: bv32, n: bv8): bv32
    requires n < 32
  {
    if x >> 31 == 1 then !(!x >> n) else x >> n
  }

  // Promotion of a char to int, where char may be signed or not.
  function Promote(b: bv8, signedChar: bool): bv32 {
    if signedChar && b >> 7 == 1 then 0xFFFFFF00 | (b as bv32) else b as bv32
  }

  // One feedback decision: bit 31 - n of the register against bit n of the byte, for n = 0 .. 3.
  function Feedback(crc: bv32, byte: bv8, n: bv8, signedChar: bool): bool
    requires n < 4
  {
    (Sar(crc, 31 - n) ^ Sar(Promote(byte, signedChar), n)) & 1 != 0
  }

  lemma FeedbackBit(crc: bv32, byte: bv8, n: bv8, signedChar: bool)
    requires n < 4
    ensures Feedback(crc, byte, n, signedChar) <==> (((crc << n) >> 31 == 1) != ((byte >> n) & 1 == 1))
  {}

  // The register update of the driver's inner loop.
  function Mix(crc: bv32, f0: bool, f1: bool, f2: bool, f3: bool): bv32 {
    var q3 := if f3 then 0x04C11DB7 else 0;
    var q2 := if f2 then 0x09823B6E else 0;
    var q1 := if f1 then 0x130476DC else 0;
    var q0 := if f0 then 0x2608EDB8 else 0;
    (crc << 4) ^ q3 ^ q2 ^ q1 ^ q0
  }

  function NibbleStep(crc: bv32, byte: bv8, signedChar: bool): bv32 {
    Mix(crc, Feedback(crc, byte, 0, signedChar), Feedback(crc, byte, 1, signedChar),
        Feedback(crc, byte, 2, signedChar), Feedback(crc, byte, 3, signedChar))
  }

  // y is x with c added, c having its top bit clear.
  predicate Offset(y: bv32, x: bv32, c: bv32) { y == x ^ c && c >> 31 == 0 }

  lemma SameTop(y: bv32, x: bv32, c: bv32)
    requires Offset(y, x, c)
    ensures Top(y) == Top(x)
  {}

  lemma OffsetAdd(y: bv32, x: bv32, c: bv32)
    requires Offset(y, x, c) && ShlAdd(c) >> 31 == 0
    ensures Offset(ShlAdd(y), Shl(x), ShlAdd(c))
  {}

  lemma OffsetShl(y: bv32, x: bv32, c: bv32)
    requires Offset(y, x, c) && Shl(c) >> 31 == 0
    ensures Offset(Shl(y), Shl(x), Shl(c))
  {}

  function NextOffset(c: bv32, feedback: bool): bv32 { if feedback then ShlAdd(c) else Shl(c) }

  lemma OffsetStep(y: bv32, x: bv32, c: bv32, bit: bool, f: bool)
    requires Offset(y, x, c) && f == (Top(x) != bit) && NextOffset(c, f) >> 31 == 0
    ensures Offset(StepBit(y, bit), Shl(x), NextOffset(c, f))
  {
    hide Offset, Top, Shl, ShlAdd;
    SameTop(y, x, c);
    if f {
      OffsetAdd(y, x, c);
    } else {
      OffsetShl(y, x, c);
    }
  }

  // The top four bits of the generator are clear, so none of four decisions depends on an earlier one.
  lemma FourOffsets(f0: bool, f1: bool, f2: bool, f3: bool)
    ensures NextOffset(0, f0) >> 31 == 0
    ensures NextOffset(NextOffset(0, f0), f1) >> 31 == 0
    ensures NextOffset(NextOffset(NextOffset(0, f0), f1), f2) >> 31 == 0
    ensures NextOffset(NextOffset(NextOffset(NextOffset(0, f0), f1), f2), f3) >> 31 == 0
    ensures NextOffset(NextOffset(NextOffset(NextOffset(0, f0), f1), f2), f3) == Mix(0, f0, f1, f2, f3)
  {}

  lemma NoOffset(crc: bv32)
    ensures Offset(crc, crc, 0)
  {}

  lemma FourSteps(crc: bv32, b0: bool, b1: bool, b2: bool, b3: bool, f0: bool, f1: bool, f2: bool, f3: bool)
    requires f0 == (Top(crc) != b0) && f1 == (Top(Shl(crc)) != b1)
    requires f2 == (Top(Shl(Shl(crc))) != b2) && f3 == (Top(Shl(Shl(Shl(crc)))) != b3)
    ensures Offset(StepBit(StepBit(StepBit(StepBit(crc, b0), b1), b2), b3), Shl(Shl(Shl(Shl(crc)))),
                   NextOffset(NextOffset(NextOffset(NextOffset(0, f0), f1), f2), f3))
  {
    hide Offset, Top, Shl, ShlAdd, StepBit, NextOffset;
    FourOffsets(f0, f1, f2, f3);
    NoOffset(crc);
    OffsetStep(crc, crc, 0, b0, f0);
    OffsetStep(StepBit(crc, b0), Shl(crc), NextOffset(0, f0), b1, f1);
    OffsetStep(StepBit(StepBit(crc, b0), b1), Shl(Shl(crc)), NextOffset(NextOffset(0, f0), f1), b2, f2);
    OffsetStep(StepBit(StepBit(StepBit(crc, b0), b1), b2), Shl(Shl(Shl(crc))),
               NextOffset(NextOffset(NextOffset(0, f0), f1), f2), b3, f3);
  }

  lemma Decisions(crc: bv32, byte: bv8, signedChar: bool)
    ensures Feedback(crc, byte, 0, signedChar) == (Top(crc) != (byte & 1 == 1))
    ensures Feedback(crc, byte, 1, signedChar) == (Top(Shl(crc)) != ((byte >> 1) & 1 == 1))
    ensures Feedback(crc, byte, 2, signedChar) == (Top(Shl(Shl(crc))) != ((byte >> 2) & 1 == 1))
    ensures Feedback(crc, byte, 3, signedChar) == (Top(Shl(Shl(Shl(crc)))) != ((byte >> 3) & 1 == 1))
  {
    FeedbackBit(crc, byte, 0, signedChar);
    FeedbackBit(crc, byte, 1, signedChar);
    FeedbackBit(crc, byte, 2, signedChar);
    FeedbackBit(crc, byte, 3, signedChar);
    hide Feedback;
  }

  lemma OffsetMix(y: bv32, crc: bv32, f0: bool, f1: bool, f2: bool, f3: bool)
    requires Offset(y, Shl(Shl(Shl(Shl(crc)))), Mix(0, f0, f1, f2, f3))
    ensures y == Mix(crc, f0, f1, f2, f3)
  {}

  lemma MixIsFourSteps(crc: bv32, b0: bool, b1: bool, b2: bool, b3: bool, f0: bool, f1: bool, f2: bool, f3: bool)
    requires f0 == (Top(crc) != b0) && f1 == (Top(Shl(crc)) != b1)
    requires f2 == (Top(Shl(Shl(crc))) != b2) && f3 == (Top(Shl(Shl(Shl(crc)))) != b3)
    ensures Mix(crc, f0, f1, f2, f3) == StepBit(StepBit(StepBit(StepBit(crc, b0), b1), b2), b3)
  {
    hide StepBit, Top, Shl, Offset, NextOffset, Mix;
    FourSteps(crc, b0, b1, b2, b3, f0, f1, f2, f3);
    FourOffsets(f0, f1, f2, f3);
    OffsetMix(StepBit(StepBit(StepBit(StepBit(crc, b0), b1), b2), b3), crc, f0, f1, f2, f3);
  }

  lemma FeedBit(crc: bv32, b: bool, bits: seq<bool>)
    ensures Feed(crc, [b] + bits) == Feed(StepBit(crc, b), bits)
  {
    assert ([b] + bits)[1..] == bits;
  }

  lemma FeedFour(crc: bv32, b0: bool, b1: bool, b2: bool, b3: bool)
    ensures Feed(crc, [b0, b1, b2, b3]) == StepBit(StepBit(StepBit(StepBit(crc, b0), b1), b2), b3)
  {
    hide StepBit;
    FeedBit(crc, b0, [b1, b2, b3]);
    assert [b0] + [b1, b2, b3] == [b0, b1, b2, b3];
    FeedBit(StepBit(crc, b0), b1, [b2, b3]);
    assert [b1] + [b2, b3] == [b1, b2, b3];
    FeedBit(StepBit(StepBit(crc, b0), b1), b2, [b3]);
    assert [b2] + [b3] == [b2, b3];
    FeedBit(StepBit(StepBit(StepBit(crc, b0), b1), b2), b3, []);
    assert [b3] + [] == [b3];
  }

  // One pass of the inner loop feeds four bits.
  lemma NibbleFeeds(crc: bv32, byte: bv8, signedChar: bool)
    ensures NibbleStep(crc, byte, signedChar) == Feed(crc, LowBits(byte))
  {
    Decisions(crc, byte, signedChar);
    hide Feedback, StepBit, Top, Shl, Mix, Feed;
    MixIsFourSteps(crc, byte & 1 == 1, (byte >> 1) & 1 == 1, (byte >> 2) & 1 == 1, (byte >> 3) & 1 == 1,
                   Feedback(crc, byte, 0, signedChar), Feedback(crc, byte, 1, signedChar),
                   Feedback(crc, byte, 2, signedChar), Feedback(crc, byte, 3, signedChar));
    FeedFour(crc, byte & 1 == 1, (byte >> 1) & 1 == 1, (byte >> 2) & 1 == 1, (byte >> 3) & 1 == 1);
  }

  // `byte >>= 4` on a char, signed or not.
  function ShiftChar(b: bv8, signedChar: bool): bv8 { (Sar(Promote(b, signedChar), 4) & 0xFF) as bv8 }

  lemma HighNibble(b: bv8, signedChar: bool)
    ensures LowBits(ShiftChar(b, signedChar)) == LowBits(b >> 4)
  {
    var h := ShiftChar(b, signedChar);
    assert h & 0xF == (b >> 4) & 0xF;
    SameLowBits(h, b >> 4);
    hide ShiftChar, LowBits;
  }

  lemma SameLowBits(a: bv8, b: bv8)
    requires a & 0xF == b & 0xF
    ensures LowBits(a) == LowBits(b)
  {}

  // Two passes take in one byte, whether char is signed or not.
  lemma TwoNibbles(crc: bv32, byte: bv8, signedChar: bool)
    ensures NibbleStep(NibbleStep(crc, byte, signedChar), ShiftChar(byte, signedChar), signedChar)
         == Feed(crc, ByteBits(byte))
  {
    hide ShiftChar, NibbleStep, LowBits, Feed;
    HighNibble(byte, signedChar);
    NibbleFeeds(crc, byte, signedChar);
    NibbleFeeds(NibbleStep(crc, byte, signedChar), ShiftChar(byte, signedChar), signedChar);
    FeedConcat(crc, LowBits(byte), LowBits(byte >> 4));
  }

  // lpc17xx_emac.c:220-256 : the CRC of a frame is the bit-serial one.
  method CrcCalc(frame: seq<bv8>, signedChar: bool) returns (crc: bv32)
    ensures crc == SerialCrc(frame)
  {
    hide Feed, NibbleStep, ShiftChar, ByteBits;
    crc := INIT;
    FeedNothing();
    for i := 0 to |frame|
      invariant crc == Feed(INIT, FrameBits(frame[..i]))
    {
      var byte := frame[i];
      ghost var before := crc;
      for j := 0 to 2
        invariant j == 0 ==> crc == before && byte == frame[i]
        invariant j == 1 ==> crc == NibbleStep(before, frame[i], signedChar) && byte == ShiftChar(frame[i], signedChar)
        invariant j == 2 ==>
          crc == NibbleStep(NibbleStep(before, frame[i], signedChar), ShiftChar(frame[i], signedChar), signedChar)
      {
        crc := NibbleStep(crc, byte, signedChar);
        byte := ShiftChar(byte, signedChar);
      }
      TwoNibbles(before, frame[i], signedChar);
      assert frame[..i + 1][..i] == frame[..i];
      FeedConcat(INIT, FrameBits(frame[..i]), ByteBits(frame[i]));
    }
    assert frame[..|frame|] == frame;
  }

  lemma FeedNothing()
    ensures Feed(INIT, FrameBits([])) == INIT
  {}

  // ---------- a known answer ----------

  // Four bits fed, register by register.
  lemma FeedsTo(crc: bv32, b0: bool, b1: bool, b2: bool, b3: bool, c1: bv32, c2: bv32, c3: bv32, c4: bv32)
    requires c1 == (if Top(crc) != b0 then ShlAdd(crc) else Shl(crc))
    requires c2 == (if Top(c1) != b1 then ShlAdd(c1) else Shl(c1))
    requires c3 == (if Top(c2) != b2 then ShlAdd(c2) else Shl(c2))
    requires c4 == (if Top(c3) != b3 then ShlAdd(c3) else Shl(c3))
    ensures Feed(crc, [b0, b1, b2, b3]) == c4
  {
    hide Feed, StepBit;
    StepIs(crc, b0, c1);
    StepIs(c1, b1, c2);
    StepIs(c2, b2, c3);
    StepIs(c3, b3, c4);
    hide Top, ShlAdd, Shl;
    FeedFour(crc, b0, b1, b2, b3);
  }

  lemma StepIs(crc: bv32, bit: bool, next: bv32)
    requires next == if Top(crc) != bit then ShlAdd(crc) else Shl(crc)
    ensures StepBit(crc, bit) == next
  {}

  // A byte fed after a frame whose CRC is known.
  lemma NextCrc(frame: seq<bv8>, b: bv8, longer: seq<bv8>, low: seq<bool>, high: seq<bool>, c0: bv32, c4: bv32,
      c8: bv32)
    requires longer == frame + [b] && SerialCrc(frame) == c0 && ByteBits(b) == low + high && Feed(c0, low) == c4
        && Feed(c4, high) == c8
    ensures SerialCrc(longer) == c8
  {
    hide Feed, ByteBits;
    assert longer[..|frame|] == frame;
    FeedConcat(INIT, FrameBits(frame), ByteBits(b));
    FeedConcat(c0, low, high);
  }

  lemma EmptyCrc()
    ensures SerialCrc([]) == 0xFFFFFFFF
  {}

  lemma FirstByte()
    ensures SerialCrc([0x01]) == 0x27045F5A
  {
    assert ByteBits(0x01) == [true, false, false, false] + [false, false, false, false];
    hide Feed, ByteBits, SerialCrc;
    EmptyCrc();
    FeedsTo(0xFFFFFFFF, true, false, false, false, 0xFFFFFFFE, 0xFB3EE24B, 0xF2BCD921, 0xE1B8AFF5);
    FeedsTo(0xE1B8AFF5, false, false, false, false, 0xC7B0425D, 0x8BA1990D, 0x13822FAD, 0x27045F5A);
    assert [0x01] == [] + [0x01];
    NextCrc([], 0x01, [0x01], [true, false, false, false], [false, false, false, false], 0xFFFFFFFF, 0xE1B8AFF5,
        0x27045F5A);
  }

  lemma SecondByte()
    ensures SerialCrc([0x01, 0x80]) == 0x86FAA152
  {
    assert ByteBits(0x80) == [false, false, false, false] + [false, false, false, true];
    hide Feed, ByteBits, SerialCrc;
    FirstByte();
    FeedsTo(0x27045F5A, false, false, false, false, 0x4E08BEB4, 0x9C117D68, 0x3CE3E767, 0x79C7CECE);
    FeedsTo(0x79C7CECE, false, false, false, true, 0xF38F9D9C, 0xE3DE268F, 0xC37D50A9, 0x86FAA152);
    assert [0x01, 0x80] == [0x01] + [0x80];
    NextCrc([0x01], 0x80, [0x01, 0x80], [false, false, false, false], [false, false, false, true], 0x27045F5A,
        0x79C7CECE, 0x86FAA152);
  }

  lemma ThirdByte()
    ensures SerialCrc([0x01, 0x80, 0xC2]) == 0xB0EEA9F2
  {
    assert ByteBits(0xC2) == [false, true, false, false] + [false, false, true, true];
    hide Feed, ByteBits, SerialCrc;
    SecondByte();
    FeedsTo(0x86FAA152, false, true, false, false, 0x09345F13, 0x16A9A391, 0x2D534722, 0x5AA68E44);
    FeedsTo(0x5AA68E44, false, false, true, true, 0xB54D1C88, 0x6E5B24A7, 0xD87754F9, 0xB0EEA9F2);
    assert [0x01, 0x80, 0xC2] == [0x01, 0x80] + [0xC2];
    NextCrc([0x01, 0x80], 0xC2, [0x01, 0x80, 0xC2], [false, true, false, false], [false, false, true, true],
        0x86FAA152, 0x5AA68E44, 0xB0EEA9F2);
  }

  lemma FourthByte()
    ensures SerialCrc([0x01, 0x80, 0xC2, 0x00]) == 0x53977F7E
  {
    assert ByteBits(0x00) == [false, false, false, false] + [false, false, false, false];
    hide Feed, ByteBits, SerialCrc;
    ThirdByte();
    FeedsTo(0xB0EEA9F2, false, false, false, false, 0x651C4E53, 0xCA389CA6, 0x90B024FB, 0x25A15441);
    FeedsTo(0x25A15441, false, false, false, false, 0x4B42A882, 0x96855104, 0x29CBBFBF, 0x53977F7E);
    assert [0x01, 0x80, 0xC2, 0x00] == [0x01, 0x80, 0xC2] + [0x00];
    NextCrc([0x01, 0x80, 0xC2], 0x00, [0x01, 0x80, 0xC2, 0x00], [false, false, false, false],
        [false, false, false, false], 0xB0EEA9F2, 0x25A15441, 0x53977F7E);
  }

  lemma FifthByte()
    ensures SerialCrc([0x01, 0x80, 0xC2, 0x00, 0x00]) == 0xE2ABF3DE
  {
    assert ByteBits(0x00) == [false, false, false, false] + [false, false, false, false];
    hide Feed, ByteBits, SerialCrc;
    FourthByte();
    FeedsTo(0x53977F7E, false, false, false, false, 0xA72EFEFC, 0x4A9CE04F, 0x9539C09E, 0x2EB29C8B);
    FeedsTo(0x2EB29C8B, false, false, false, false, 0x5D653916, 0xBACA722C, 0x7155F9EF, 0xE2ABF3DE);
    assert [0x01, 0x80, 0xC2, 0x00, 0x00] == [0x01, 0x80, 0xC2, 0x00] + [0x00];
    NextCrc([0x01, 0x80, 0xC2, 0x00], 0x00, [0x01, 0x80, 0xC2, 0x00, 0x00], [false, false, false, false],
        [false, false, false, false], 0x53977F7E, 0x2EB29C8B, 0xE2ABF3DE);
  }

  /** The CRC of the bridge group address 01-80-C2-00-00-00. */
  lemma KnownCrc()
    ensures SerialCrc([0x01, 0x80, 0xC2, 0x00, 0x00, 0x00]) == 0x67D8C317
  {
    assert ByteBits(0x00) == [false, false, false, false] + [false, false, false, false];
    hide Feed, ByteBits, SerialCrc;
    FifthByte();
    FeedsTo(0xE2ABF3DE, false, false, false, false, 0xC196FA0B, 0x87ECE9A1, 0x0B18CEF5, 0x16319DEA);
    FeedsTo(0x16319DEA, false, false, false, false, 0x2C633BD4, 0x58C677A8, 0xB18CEF50, 0x67D8C317);
    assert [0x01, 0x80, 0xC2, 0x00, 0x00, 0x00] == [0x01, 0x80, 0xC2, 0x00, 0x00] + [0x00];
    NextCrc([0x01, 0x80, 0xC2, 0x00, 0x00], 0x00, [0x01, 0x80, 0xC2, 0x00, 0x00, 0x00], [false, false, false, false],
        [false, false, false, false], 0xE2ABF3DE, 0x16319DEA, 0x67D8C317);
  }
}

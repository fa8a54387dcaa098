/**
  Error detection of the Ethernet CRC: it is linear in the frame's bits, so whether a corruption
  goes unnoticed depends on the flipped bits alone; no burst of up to 32 bits does, and some burst
  of 33 bits does.
 */
module EthernetBursts {
  import opened EthernetCrc

  // ---------- linearity ----------

  predicate Differ(d: bv32, x: bv32, y: bv32) { d == x ^ y }

  lemma DifferAddBoth(d: bv32, x: bv32, y: bv32)
    requires Differ(d, x, y)
    ensures Differ(Shl(d), ShlAdd(x), ShlAdd(y))
  {}

  lemma DifferAddLeft(d: bv32, x: bv32, y: bv32)
    requires Differ(d, x, y)
    ensures Differ(ShlAdd(d), ShlAdd(x), Shl(y))
  {}

  lemma DifferAddRight(d: bv32, x: bv32, y: bv32)
    requires Differ(d, x, y)
    ensures Differ(ShlAdd(d), Shl(x), ShlAdd(y))
  {}

  lemma DifferShift(d: bv32, x: bv32, y: bv32)
    requires Differ(d, x, y)
    ensures Differ(Shl(d), Shl(x), Shl(y))
  {}

  lemma DifferTop(d: bv32, x: bv32, y: bv32)
    requires Differ(d, x, y)
    ensures Top(d) <==> Top(x) != Top(y)
  {}

  // The difference of two registers steps like a register fed the difference of the bits.
  lemma DifferStep(d: bv32, x: bv32, y: bv32, a: bool, b: bool)
    requires Differ(d, x, y)
    ensures Differ(StepBit(d, a != b), StepBit(x, a), StepBit(y, b))
  {
    hide Differ, Shl, ShlAdd, Top;
    DifferTop(d, x, y);
    if Top(x) != a {
      if Top(y) != b {
        DifferAddBoth(d, x, y);
      } else {
        DifferAddLeft(d, x, y);
      }
    } else {
      if Top(y) != b {
        DifferAddRight(d, x, y);
      } else {
        DifferShift(d, x, y);
      }
    }
  }

  function FlippedBits(x: seq<bool>, y: seq<bool>): (e: seq<bool>)
    requires |x| == |y|
    ensures |e| == |x|
  {
    seq(|x|, i requires 0 <= i < |x| => x[i] != y[i])
  }

  lemma {:induction false} DifferFeed(d: bv32, c1: bv32, c2: bv32, x: seq<bool>, y: seq<bool>)
    requires |x| == |y| && Differ(d, c1, c2)
    ensures Differ(Feed(d, FlippedBits(x, y)), Feed(c1, x), Feed(c2, y))
    decreases |x|
  {
    hide Differ, StepBit;
    if x != [] {
      DifferStep(d, c1, c2, x[0], y[0]);
      assert FlippedBits(x, y)[1..] == FlippedBits(x[1..], y[1..]);
      DifferFeed(StepBit(d, x[0] != y[0]), StepBit(c1, x[0]), StepBit(c2, y[0]), x[1..], y[1..]);
    }
  }

  lemma ZeroDifference(d: bv32, x: bv32, y: bv32)
    requires Differ(d, x, y)
    ensures d == 0 <==> x == y
  {
    XorZero(x, y);
  }

  lemma XorZero(x: bv32, y: bv32)
    ensures x ^ y == 0 <==> x == y
  {}

  lemma NoDifference(x: bv32)
    ensures Differ(0, x, x)
  {}

  // Two frames of equal length have the same CRC exactly when their flipped bits alone leave a
  // cleared register cleared.
  lemma SameCrcIff(f: seq<bv8>, g: seq<bv8>)
    requires |f| == |g|
    ensures SerialCrc(f) == SerialCrc(g) <==> Feed(0, FlippedBits(FrameBits(f), FrameBits(g))) == 0
  {
    var x, y := FrameBits(f), FrameBits(g);
    NoDifference(INIT);
    DifferFeed(0, INIT, INIT, x, y);
    ZeroDifference(Feed(0, FlippedBits(x, y)), Feed(INIT, x), Feed(INIT, y));
  }

  // ---------- bursts ----------

  ghost predicate AllClear(e: seq<bool>) { forall i :: 0 <= i < |e| ==> !e[i] }

  // Some bit is flipped, and every flipped bit lies in [lo, hi).
  ghost predicate BurstIn(e: seq<bool>, lo: nat, hi: nat) {
    && lo <= hi <= |e|
    && (forall i :: 0 <= i < |e| && !(lo <= i < hi) ==> !e[i])
    && (exists i :: lo <= i < hi && e[i])
  }

  lemma StepZero()
    ensures StepBit(0, false) == 0 && StepBit(0, true) == 0x04C11DB7
  {}

  lemma StepNonzero(d: bv32)
    requires d != 0
    ensures StepBit(d, false) != 0
  {}

  lemma {:induction false} ClearStaysClear(e: seq<bool>)
    requires AllClear(e)
    ensures Feed(0, e) == 0
  {
    StepZero();
    if e != [] {
      ClearStaysClear(e[1..]);
    }
  }

  lemma {:induction false} SetStaysSet(d: bv32, e: seq<bool>)
    requires d != 0 && AllClear(e)
    ensures Feed(d, e) != 0
    decreases |e|
  {
    if e != [] {
      StepNonzero(d);
      SetStaysSet(StepBit(d, e[0]), e[1..]);
    }
  }

  // All ones, shifted right r times: the low 32 - r bits.
  function LowMask(r: nat): bv32 { if r == 0 then 0xFFFFFFFF else LowMask(r - 1) >> 1 }

  lemma LowMasks()
    ensures LowMask(31) == 1 && LowMask(32) == 0
  {
    assert LowMask(4) == 0x0FFFFFFF;
    assert LowMask(8) == 0x00FFFFFF;
    assert LowMask(12) == 0x000FFFFF;
    assert LowMask(16) == 0x0000FFFF;
    assert LowMask(20) == 0x00000FFF;
    assert LowMask(24) == 0x000000FF;
    assert LowMask(28) == 0x0000000F;
  }

  predicate Meets(d: bv32, m: bv32) { d & m != 0 }

  lemma StepKeepsLowBit(d: bv32, m: bv32, bit: bool)
    requires Meets(d, m >> 1) && m & 1 == 1
    ensures Meets(StepBit(d, bit), m)
  {}

  lemma ContiguousShift(m: bv32)
    requires m & (m + 1) == 0
    ensures (m >> 1) & ((m >> 1) + 1) == 0
  {}

  lemma ContiguousOdd(m: bv32)
    requires m & (m + 1) == 0 && m != 0
    ensures m & 1 == 1
  {}

  lemma {:induction false} MaskContiguous(r: nat)
    ensures LowMask(r) & (LowMask(r) + 1) == 0
  {
    if r > 0 {
      MaskContiguous(r - 1);
      ContiguousShift(LowMask(r - 1));
    }
  }

  lemma {:induction false} MaskNonzero(r: nat)
    requires r <= 31
    ensures LowMask(r) != 0
    decreases 31 - r
  {
    if r == 31 {
      LowMasks();
    } else {
      MaskNonzero(r + 1);
    }
  }

  lemma MaskOdd(r: nat)
    requires r <= 31
    ensures LowMask(r) & 1 == 1
  {
    MaskContiguous(r);
    MaskNonzero(r);
    ContiguousOdd(LowMask(r));
  }

  // With a bit set among the low 32 - r, at most r further bits cannot clear the register.
  lemma {:induction false} FewBitsKeepSet(d: bv32, e: seq<bool>, r: nat)
    requires Meets(d, LowMask(r)) && |e| <= r <= 31
    ensures Feed(d, e) != 0
    decreases |e|
  {
    hide Meets, StepBit;
    if e == [] {
      AndNonzero(d, LowMask(r));
    } else {
      MaskOdd(r - 1);
      StepKeepsLowBit(d, LowMask(r - 1), e[0]);
      FewBitsKeepSet(StepBit(d, e[0]), e[1..], r - 1);
    }
  }

  lemma AndNonzero(d: bv32, m: bv32)
    requires Meets(d, m)
    ensures d != 0
  {}

  // The first flipped bit.
  lemma FirstFlip(e: seq<bool>, lo: nat, hi: nat) returns (i: nat)
    requires BurstIn(e, lo, hi)
    ensures lo <= i < hi && e[i] && AllClear(e[..i])
  {
    i := lo;
    while !e[i]
      invariant lo <= i < hi
      invariant AllClear(e[..i])
      invariant exists j :: i <= j < hi && e[j]
      decreases hi - i
    {
      i := i + 1;
    }
  }

  lemma BurstDetected(e: seq<bool>, lo: nat, hi: nat)
    requires BurstIn(e, lo, hi) && hi - lo <= 32
    ensures Feed(0, e) != 0
  {
    var i := FirstFlip(e, lo, hi);
    var inside, after := e[i + 1..hi], e[hi..];
    assert e == e[..i] + ([true] + (inside + after));
    ClearStaysClear(e[..i]);
    FeedConcat(0, e[..i], [true] + (inside + after));
    FeedBit(0, true, inside + after);
    StepZero();
    FeedConcat(0x04C11DB7, inside, after);
    LowMasks();
    FewBitsKeepSet(0x04C11DB7, inside, 31);
    SetStaysSet(Feed(0x04C11DB7, inside), after);
  }

  // Two frames of equal length that differ, and only within 32 consecutive bits, have different CRCs.
  lemma ShortBurstsDetected(f: seq<bv8>, g: seq<bv8>, lo: nat, hi: nat)
    requires |f| == |g| && hi - lo <= 32
    requires BurstIn(FlippedBits(FrameBits(f), FrameBits(g)), lo, hi)
    ensures SerialCrc(f) != SerialCrc(g)
  {
    SameCrcIff(f, g);
    BurstDetected(FlippedBits(FrameBits(f), FrameBits(g)), lo, hi);
  }

  // ---------- 33 bits ----------

  // The bits that shift d out without ever adding the generator.
  function Drain(d: bv32, n: nat): (e: seq<bool>)
    ensures |e| == n
    decreases n
  {
    if n == 0 then [] else [Top(d)] + Drain(Shl(d), n - 1)
  }

  lemma ShiftClears(d: bv32, m: bv32)
    requires !Meets(d, m >> 1)
    ensures !Meets(Shl(d), m)
  {}

  lemma {:induction false} DrainClears(d: bv32, n: nat)
    requires n <= 32 && !Meets(d, LowMask(n))
    ensures Feed(d, Drain(d, n)) == 0
    decreases n
  {
    hide Meets, Shl, Top, ShlAdd;
    if n == 0 {
      AndOnes(d);
    } else {
      ShiftClears(d, LowMask(n - 1));
      DrainClears(Shl(d), n - 1);
      FeedBit(d, Top(d), Drain(Shl(d), n - 1));
    }
  }

  lemma AndOnes(d: bv32)
    requires !Meets(d, 0xFFFFFFFF)
    ensures d == 0
  {}

  // The generator's own bits leave a cleared register clear.
  lemma GeneratorBurst() returns (e: seq<bool>)
    ensures |e| == 33 && BurstIn(e, 0, 33) && Feed(0, e) == 0
  {
    var rest := Drain(0x04C11DB7, 32);
    e := [true] + rest;
    LowMasks();
    StepZero();
    AndZero(0x04C11DB7);
    DrainClears(0x04C11DB7, 32);
    FeedBit(0, true, rest);
    assert e[0];
  }

  lemma AndZero(d: bv32)
    ensures !Meets(d, 0)
  {}

  function Bit(b: bool, weight: bv8): bv8 { if b then weight else 0 }

  // The byte with these bits, least significant first.
  function ByteOf(bits: seq<bool>): (b: bv8)
    requires |bits| == 8
    ensures ByteBits(b) == bits
  {
    var b := Bit(bits[0], 1) | Bit(bits[1], 2) | Bit(bits[2], 4) | Bit(bits[3], 8)
           | Bit(bits[4], 16) | Bit(bits[5], 32) | Bit(bits[6], 64) | Bit(bits[7], 128);
    b
  }

  function BytesOf(bits: seq<bool>): (f: seq<bv8>)
    requires |bits| % 8 == 0
    ensures |bits| == 8 * |f|
  {
    if bits == [] then [] else BytesOf(bits[..|bits| - 8]) + [ByteOf(bits[|bits| - 8..])]
  }

  lemma {:induction false} BytesOfBits(bits: seq<bool>)
    requires |bits| % 8 == 0
    ensures FrameBits(BytesOf(bits)) == bits
  {
    hide ByteBits, ByteOf;
    if bits != [] {
      var n := |bits| - 8;
      BytesOfBits(bits[..n]);
      var f := BytesOf(bits);
      assert f[..|f| - 1] == BytesOf(bits[..n]);
      assert bits == bits[..n] + bits[n..];
    }
  }

  function Struck(f: seq<bv8>, p: seq<bv8>): (g: seq<bv8>)
    requires |f| == |p|
    ensures |g| == |f|
  {
    seq(|f|, i requires 0 <= i < |f| => f[i] ^ p[i])
  }

  lemma StruckBits(a: bv8, p: bv8)
    ensures FlippedBits(ByteBits(a), ByteBits(a ^ p)) == ByteBits(p)
  {
    StruckLow(a, p);
    StruckLow(a >> 4, p >> 4);
    assert (a ^ p) >> 4 == (a >> 4) ^ (p >> 4);
    hide LowBits;
    FlipConcat(LowBits(a), LowBits(a ^ p), LowBits(a >> 4), LowBits((a ^ p) >> 4));
  }

  lemma StruckLow(a: bv8, p: bv8)
    ensures FlippedBits(LowBits(a), LowBits(a ^ p)) == LowBits(p)
  {}

  lemma FlipConcat(x: seq<bool>, y: seq<bool>, u: seq<bool>, v: seq<bool>)
    requires |x| == |y| && |u| == |v|
    ensures FlippedBits(x + u, y + v) == FlippedBits(x, y) + FlippedBits(u, v)
  {}

  // Striking a frame with p flips exactly the bits of p.
  lemma {:induction false} StruckFrame(f: seq<bv8>, p: seq<bv8>)
    requires |f| == |p|
    ensures FlippedBits(FrameBits(f), FrameBits(Struck(f, p))) == FrameBits(p)
  {
    hide ByteBits;
    if f != [] {
      var n := |f| - 1;
      StruckFrame(f[..n], p[..n]);
      StruckBits(f[n], p[n]);
      assert Struck(f, p)[..n] == Struck(f[..n], p[..n]);
      FlipConcat(FrameBits(f[..n]), FrameBits(Struck(f, p)[..n]), ByteBits(f[n]), ByteBits(f[n] ^ p[n]));
    }
  }

  function Falses(n: nat): (e: seq<bool>)
    ensures |e| == n && AllClear(e)
  {
    seq(n, _ => false)
  }

  /** 32 is the best: every frame of five bytes or more has another, 33 bits away, with the same CRC. */
  lemma LongerBurstMissed(f: seq<bv8>) returns (g: seq<bv8>)
    requires |f| >= 5
    ensures |g| == |f| && SerialCrc(g) == SerialCrc(f) && BurstIn(FlippedBits(FrameBits(f), FrameBits(g)), 0, 33)
  {
    var e := GeneratorBurst();
    var rest := Falses(8 * |f| - 33);
    var p := BytesOf(e + rest);
    g := Struck(f, p);
    hide Feed, FrameBits, BytesOf, Struck;
    BytesOfBits(e + rest);
    StruckFrame(f, p);
    SameCrcIff(f, g);
    FeedConcat(0, e, rest);
    ClearStaysClear(rest);
    BurstBefore(e, rest);
  }

  lemma BurstBefore(e: seq<bool>, rest: seq<bool>)
    requires BurstIn(e, 0, |e|) && AllClear(rest)
    ensures BurstIn(e + rest, 0, |e|)
  {
    var i :| 0 <= i < |e| && e[i];
    assert (e + rest)[i];
  }
}

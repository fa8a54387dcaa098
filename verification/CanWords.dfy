/**
  The words of the acceptance-filter RAM and the two-per-word packing of 11-bit identifiers.

  The driver takes a 32-bit word apart only at bit 16, so a word is a pair of halfwords: `w >> 16`
  is w.hi, `w & 0xFFFF` is w.lo, and `(b >> 16) | (a << 16)` is Word(a.lo, b.hi), the high half of
  `a` being shifted out.  Where the driver uses all 32 bits as one number, that number is w.Value().
 */
module CanWords {
  type Half = x: int | 0 <= x < 0x1_0000
  type UInt32 = x: int | 0 <= x < 0x1_0000_0000

  datatype Word = Word(hi: Half, lo: Half) {
    function Value(): UInt32 { hi * 0x1_0000 + lo }
  }

  function WordOf(n: UInt32): (w: Word)
    ensures w.Value() == n
  {
    Word(n / 0x1_0000, n % 0x1_0000)
  }

  const ZERO := Word(0, 0)

  // A cleared FullCAN message object.
  const GAP := [ZERO, ZERO, ZERO]

  // The low half of the last word of an odd-length halfword section.
  const PAD: Half := 0xFFFF

  // ---------- sequences ----------

  function InsertAt<T>(s: seq<T>, k: nat, x: T): (r: seq<T>)
    requires k <= |s|
    ensures |r| == |s| + 1
  {
    s[..k] + [x] + s[k..]
  }

  function RemoveAt<T>(s: seq<T>, k: nat): (r: seq<T>)
    requires k < |s|
    ensures |r| == |s| - 1
  {
    s[..k] + s[k + 1..]
  }

  // s with xs inserted at p; the words in [p, end) move up, those from end + |xs| on stay.
  function InsertWords(s: seq<Word>, p: nat, xs: seq<Word>, end: nat): (r: seq<Word>)
    requires p <= end && end + |xs| <= |s|
    ensures |r| == |s|
  {
    s[..p] + xs + s[p..end] + s[end + |xs|..]
  }

  // s with the words from base on replaced by ws.
  function Overwrite(s: seq<Word>, base: nat, ws: seq<Word>): (r: seq<Word>)
    requires base + |ws| <= |s|
    ensures |r| == |s|
  {
    s[..base] + ws + s[base + |ws|..]
  }

  // n words taken d places down to p; the words behind them stay where they are.
  function MoveDown(s: seq<Word>, p: nat, d: nat, n: nat): (r: seq<Word>)
    requires p + d + n <= |s|
    ensures |r| == |s|
  {
    s[..p] + s[p + d..p + d + n] + s[p + n..]
  }

  // The three ways the driver rewrites RAM, on a RAM that starts with a known run of words.
  lemma OverwritePrefix(s: seq<Word>, a: seq<Word>, x: seq<Word>, b: seq<Word>, x': seq<Word>)
    requires |x| == |x'| && a + x + b <= s
    ensures a + x' + b <= Overwrite(s, |a|, x')
  {
    var r := Overwrite(s, |a|, x');
    assert forall i {:trigger s[i]} :: 0 <= i < |a| ==> s[i] == (a + x + b)[i];
    assert forall i {:trigger s[i]} :: |a| + |x| <= i < |a| + |x| + |b| ==> s[i] == (a + x + b)[i];
    assert forall i {:trigger r[i]} :: 0 <= i < |a + x' + b| ==> r[i] == (a + x' + b)[i];
  }

  lemma InsertPrefix(s: seq<Word>, a: seq<Word>, xs: seq<Word>, b: seq<Word>, end: nat)
    requires |a| + |b| <= end && end + |xs| <= |s| && a + b <= s
    ensures a + xs + b <= InsertWords(s, |a|, xs, end)
  {
    var r := InsertWords(s, |a|, xs, end);
    assert forall i {:trigger s[i]} :: 0 <= i < |a| + |b| ==> s[i] == (a + b)[i];
    assert forall i {:trigger r[i]} :: 0 <= i < |a + xs + b| ==> r[i] == (a + xs + b)[i];
  }

  // The same inside a section x between h and b.
  lemma InsertInside(s: seq<Word>, h: seq<Word>, x: seq<Word>, b: seq<Word>, k: nat, xs: seq<Word>, end: nat)
    requires k <= |x| && |h| + |x| + |b| <= end && end + |xs| <= |s| && h + x + b <= s
    ensures h + (x[..k] + xs + x[k..]) + b <= InsertWords(s, |h| + k, xs, end)
  {
    assert h + x + b == (h + x[..k]) + (x[k..] + b);
    InsertPrefix(s, h + x[..k], xs, x[k..] + b, end);
    assert h + (x[..k] + xs + x[k..]) + b == (h + x[..k]) + xs + (x[k..] + b);
  }

  lemma MoveDownInside(s: seq<Word>, h: seq<Word>, x: seq<Word>, b: seq<Word>, k: nat, d: nat, n: nat)
    requires k + d <= |x| && |x| - k - d + |b| <= n && |h| + k + d + n <= |s| && h + x + b <= s
    ensures h + (x[..k] + x[k + d..]) + b <= MoveDown(s, |h| + k, d, n)
  {
    assert h + x + b == (h + x[..k]) + x[k..k + d] + (x[k + d..] + b);
    MoveDownPrefix(s, h + x[..k], x[k..k + d], x[k + d..] + b, n);
    assert h + (x[..k] + x[k + d..]) + b == (h + x[..k]) + (x[k + d..] + b);
  }

  lemma MoveDownPrefix(s: seq<Word>, a: seq<Word>, y: seq<Word>, b: seq<Word>, n: nat)
    requires |b| <= n && |a| + |y| + n <= |s| && a + y + b <= s
    ensures a + b <= MoveDown(s, |a|, |y|, n)
  {
    var r := MoveDown(s, |a|, |y|, n);
    assert forall i {:trigger s[i]} :: 0 <= i < |a + y + b| ==> s[i] == (a + y + b)[i];
    assert forall i {:trigger r[i]} :: 0 <= i < |a + b| ==> r[i] == (a + b)[i];
  }

  // ---------- halfword sections ----------

  function HalfOrPad(hs: seq<Half>, i: nat): Half { if i < |hs| then hs[i] else PAD }

  // Two entries per word, first entry in the high half, an odd last entry padded.
  function PackHalves(hs: seq<Half>): (ws: seq<Word>)
    ensures |ws| == (|hs| + 1) / 2
  {
    seq((|hs| + 1) / 2, i requires 0 <= i < (|hs| + 1) / 2 => Word(hs[2 * i], HalfOrPad(hs, 2 * i + 1)))
  }
}

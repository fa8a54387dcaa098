/**
  The shifting loops of the acceptance-filter driver, each proved against a function on sequences.
 */
module CanSections {
  import opened CanWords

  // First index whose entry exceeds x; the length when there is none.
  function FirstAbove(s: seq<int>, x: int): (k: nat)
    ensures k <= |s|
    ensures forall i :: 0 <= i < k ==> s[i] <= x
    ensures k < |s| ==> s[k] > x
  {
    if s == [] || s[0] > x then 0 else 1 + FirstAbove(s[1..], x)
  }

  lemma FirstAboveIs(s: seq<int>, x: int, k: nat)
    requires k <= |s|
    requires forall i :: 0 <= i < k ==> s[i] <= x
    requires k < |s| ==> s[k] > x
    ensures FirstAbove(s, x) == k
  {
  }

  // The words [from, from + count) move one place up; ram[from] itself is left as it was.  Here and
  // in the other shifts `top` is the highest word accessed.
  method OpenGap(ram: array<Word>, from: nat, count: nat) returns (ghost top: nat)
    requires from + count < ram.Length
    modifies ram
    ensures ram[..] == InsertWords(old(ram[..]), from, [old(ram[..])[from]], from + count)
    ensures top == from + count
  {
    ghost var was := ram[..];
    var cnt1, bound1 := from, count;
    var buf0 := ram[cnt1];
    top := cnt1;
    while bound1 > 0
      invariant 0 <= bound1 && cnt1 + bound1 == from + count && top == cnt1
      invariant buf0 == was[cnt1]
      invariant forall j {:trigger ram[j]} :: from < j <= cnt1 ==> ram[j] == was[j - 1]
      invariant forall j {:trigger ram[j]} :: 0 <= j < ram.Length && !(from < j <= cnt1) ==> ram[j] == was[j]
    {
      bound1 := bound1 - 1;
      cnt1 := cnt1 + 1;
      var buf1 := ram[cnt1];
      ram[cnt1] := buf0;
      top := cnt1;
      buf0 := buf1;
    }
  }

  // x is written at `at` and the words [at, end) move one place up.
  method InsertWord(ram: array<Word>, at: nat, x: Word, end: nat) returns (ghost top: nat)
    requires at <= end < ram.Length
    modifies ram
    ensures ram[..] == InsertWords(old(ram[..]), at, [x], end)
    ensures top == end
  {
    ghost var was := ram[..];
    var cnt1 := at;
    var buf0 := ram[cnt1];
    ram[cnt1] := x;
    top := cnt1;
    while cnt1 < end
      invariant at <= cnt1 <= end && top == cnt1
      invariant buf0 == was[cnt1]
      invariant ram[at] == x
      invariant forall j {:trigger ram[j]} :: at < j <= cnt1 ==> ram[j] == was[j - 1]
      invariant forall j {:trigger ram[j]} :: 0 <= j < ram.Length && !(at <= j <= cnt1) ==> ram[j] == was[j]
    {
      cnt1 := cnt1 + 1;
      var buf1 := ram[cnt1];
      ram[cnt1] := buf0;
      top := cnt1;
      buf0 := buf1;
    }
  }

  // Halfword insertion, shared part: from word `first` (exclusive) to `last` every word becomes
  // the previous word's low half followed by its own high half.
  method ShiftHalves(ram: array<Word>, first: nat, last: nat, displaced: Word) returns (buf0: Word)
    requires first <= last < ram.Length
    modifies ram
    ensures forall j {:trigger ram[j]} :: first < j <= last ==>
              ram[j] == Word((if j == first + 1 then displaced else old(ram[..])[j - 1]).lo, old(ram[..])[j].hi)
    ensures forall j {:trigger ram[j]} :: 0 <= j < ram.Length && !(first < j <= last) ==> ram[j] == old(ram[..])[j]
    ensures buf0 == if first == last then displaced else old(ram[..])[last]
  {
    ghost var was := ram[..];
    var cnt1 := first;
    buf0 := displaced;
    while cnt1 < last
      invariant first <= cnt1 <= last
      invariant forall j {:trigger ram[j]} :: first < j <= cnt1 ==>
                  ram[j] == Word((if j == first + 1 then displaced else was[j - 1]).lo, was[j].hi)
      invariant forall j {:trigger ram[j]} :: 0 <= j < ram.Length && !(first < j <= cnt1) ==> ram[j] == was[j]
      invariant buf0 == if first == cnt1 then displaced else was[cnt1]
    {
      cnt1 := cnt1 + 1;
      var buf1 := ram[cnt1];
      ram[cnt1] := Word(buf0.lo, buf1.hi);
      buf0 := buf1;
    }
  }

  // The search loop shared by both halfword sections: cnt1 is the word and cnt2 the halfword of the
  // first entry above id.  The pad of an odd section counts as an entry above every id.
  method FindHalf(ram: array<Word>, base: nat, n: nat, ghost hs: seq<Half>, id: Half)
    returns (cnt1: nat, cnt2: nat)
    requires |hs| == n && base + (n + 1) / 2 <= ram.Length
    requires ram[base..base + (n + 1) / 2] == PackHalves(hs)
    requires id < PAD
    ensures cnt1 == base + FirstAbove(hs, id) / 2
    ensures FirstAbove(hs, id) < n || n % 2 == 1 ==> cnt2 == 2 * base + FirstAbove(hs, id)
    ensures FirstAbove(hs, id) == n && n % 2 == 0 ==> cnt2 == n
  {
    cnt1, cnt2 := base, n;
    var bound1 := base + (n + 1) / 2;
    while cnt1 < bound1
      invariant base <= cnt1 <= bound1
      invariant cnt2 == n
      invariant forall i :: 0 <= i < 2 * (cnt1 - base) && i < n ==> hs[i] <= id
      invariant cnt1 == bound1 ==> n % 2 == 0
    {
      ghost var i := cnt1 - base;
      assert ram[cnt1] == PackHalves(hs)[i];
      if ram[cnt1].hi > id {
        cnt2 := cnt1 * 2;
        FirstAboveIs(hs, id, 2 * i);
        return;
      }
      if ram[cnt1].lo > id {
        cnt2 := cnt1 * 2 + 1;
        FirstAboveIs(hs, id, 2 * i + 1);
        return;
      }
      cnt1 := cnt1 + 1;
    }
    FirstAboveIs(hs, id, n);
  }

  // Word j after id went into word c (its low half if odd) of the halfword section that ends
  // before word e: the shift the driver performs, in terms of the words before.
  function InsertedWord(was: seq<Word>, e: nat, c: nat, odd: bool, id: Half, j: nat): Word
    requires c <= e <= |was| && j <= e
  {
    var high := if j < e then was[j].hi else PAD;
    if j < c then was[j]
    else if j > c then Word(was[j - 1].lo, high)
    else if odd then Word(high, id)
    else Word(id, high)
  }

  ghost predicate WordsInserted(was: seq<Word>, now: seq<Word>, base: nat, e: nat, e': nat, c: nat, odd: bool, id: Half)
    requires base <= c <= e <= e' <= e + 1 && e' <= |was| == |now|
  {
    && (forall j {:trigger now[j]} :: base <= j < e' ==> now[j] == InsertedWord(was, e, c, odd, id, j))
    && (forall j {:trigger now[j]} :: 0 <= j < |now| && !(base <= j < e') ==> now[j] == was[j])
  }

  lemma SectionWord(s: seq<Word>, base: nat, ws: seq<Word>, i: nat)
    requires base + |ws| <= |s| && i < |ws|
    requires s[base..base + |ws|] == ws
    ensures s[base + i] == ws[i]
  {
    assert s[base..base + |ws|][i] == ws[i];
  }

  lemma InsertedWordPacked(was: seq<Word>, base: nat, hs: seq<Half>, k: nat, id: Half, i: nat)
    requires k <= |hs| && i < (|hs| + 2) / 2 && base + (|hs| + 1) / 2 <= |was|
    requires was[base..base + (|hs| + 1) / 2] == PackHalves(hs)
    ensures InsertedWord(was, base + (|hs| + 1) / 2, base + k / 2, k % 2 == 1, id, base + i)
        == PackHalves(InsertAt(hs, k, id))[i]
  {
    var r := InsertAt(hs, k, id);
    if i < (|hs| + 1) / 2 {
      SectionWord(was, base, PackHalves(hs), i);
    }
    if 0 < i {
      SectionWord(was, base, PackHalves(hs), i - 1);
    }
    if i < k / 2 {
      assert r[2 * i] == hs[2 * i] && r[2 * i + 1] == hs[2 * i + 1];
    } else if i > k / 2 {
      assert r[2 * i] == hs[2 * i - 1];
      assert 2 * i + 1 < |r| ==> r[2 * i + 1] == hs[2 * i];
    }
  }

  lemma InsertedWordsPack(was: seq<Word>, now: seq<Word>, base: nat, hs: seq<Half>, k: nat, id: Half)
    requires k <= |hs| && base + (|hs| + 2) / 2 <= |was| == |now|
    requires was[base..base + (|hs| + 1) / 2] == PackHalves(hs)
    requires WordsInserted(was, now, base, base + (|hs| + 1) / 2, base + (|hs| + 2) / 2, base + k / 2, k % 2 == 1, id)
    ensures now == Overwrite(was, base, PackHalves(InsertAt(hs, k, id)))
  {
    var r := PackHalves(InsertAt(hs, k, id));
    forall i | 0 <= i < |r| ensures now[base + i] == r[i] {
      InsertedWordPacked(was, base, hs, k, id, i);
    }
    assert now[base..base + |r|] == r;
  }

  // lpc17xx_can.c:597-626 : insertion into the middle of the section at [base, e).
  method InsertMiddle(ram: array<Word>, ghost base: nat, e: nat, even: bool, cnt1: nat, odd: bool, id: Half)
    requires base <= cnt1 < e && e + (if even then 1 else 0) <= ram.Length
    modifies ram
    ensures WordsInserted(old(ram[..]), ram[..], base, e, if even then e + 1 else e, cnt1, odd, id)
  {
    var buf0 := ram[cnt1];
    ram[cnt1] := if !odd then Word(id, buf0.hi) else Word(buf0.hi, id);
    buf0 := ShiftHalves(ram, cnt1, e - 1, buf0);
    if even {
      ram[e] := Word(buf0.lo, PAD);
    }
  }

  // lpc17xx_can.c:538-556 : the section holds no entry or one.
  method InsertSmall(ram: array<Word>, base: nat, n: nat, ghost hs: seq<Half>, id: Half)
    requires |hs| == n < 2 && base < ram.Length
    requires ram[base..base + n] == PackHalves(hs)
    modifies ram
    ensures WordsInserted(old(ram[..]), ram[..], base, base + n, base + 1, base, FirstAbove(hs, id) == 1, id)
  {
    if n == 0 {
      ram[base] := Word(id, PAD);
    } else {
      SectionWord(ram[..], base, PackHalves(hs), 0);
      if ram[base].hi > id {
        ram[base] := Word(id, ram[base].hi);
      } else {
        ram[base] := Word(ram[base].hi, id);
      }
    }
  }

  // lpc17xx_can.c:557-627 : the section at [base, e) holds at least two entries.
  method InsertLarge(ram: array<Word>, base: nat, n: nat, e: nat, ghost hs: seq<Half>, id: Half)
    requires |hs| == n >= 2 && e == base + (n + 1) / 2 && e + 1 - n % 2 <= ram.Length
    requires ram[base..e] == PackHalves(hs)
    requires id < PAD
    modifies ram
    ensures WordsInserted(old(ram[..]), ram[..], base, e, e + 1 - n % 2, base + FirstAbove(hs, id) / 2,
        FirstAbove(hs, id) % 2 == 1, id)
  {
    var cnt1, cnt2 := FindHalf(ram, base, n, hs, id);
    if cnt1 == e {
      // Appending; an odd section never gets here because its pad stops the search.
      ram[cnt1] := Word(id, PAD);
    } else {
      InsertMiddle(ram, base, e, n % 2 == 0, cnt1, cnt2 % 2 == 1, id);
    }
  }

  // lpc17xx_can.c:538-627 : a standard identifier enters its section; when the count is even the
  // section already has one more word at its end.
  method InsertStd(ram: array<Word>, base: nat, n: nat, ghost hs: seq<Half>, id: Half)
    requires |hs| == n && base + (n + 2) / 2 <= ram.Length
    requires ram[base..base + (n + 1) / 2] == PackHalves(hs)
    requires id < PAD
    modifies ram
    ensures ram[..] == Overwrite(old(ram[..]), base, PackHalves(InsertAt(hs, FirstAbove(hs, id), id)))
  {
    ghost var was := ram[..];
    if n < 2 {
      InsertSmall(ram, base, n, hs, id);
    } else {
      InsertLarge(ram, base, n, base + (n + 1) / 2, hs, id);
    }
    InsertedWordsPack(was, ram[..], base, hs, FirstAbove(hs, id), id);
  }

  // lpc17xx_can.c:747-835 : the same for the FullCAN section, whose last word is finished by
  // setting its low half to ones.  cnt2 is the position handed to the object section.
  method InsertFullCan(ram: array<Word>, n: nat, ghost hs: seq<Half>, id: Half) returns (cnt2: nat)
    requires |hs| == n && (n + 2) / 2 <= ram.Length
    requires ram[..(n + 1) / 2] == PackHalves(hs)
    requires id < PAD
    modifies ram
    ensures ram[..] == Overwrite(old(ram[..]), 0, PackHalves(InsertAt(hs, FirstAbove(hs, id), id)))
    ensures cnt2 == if n == 1 then 0 else FirstAbove(hs, id)
  {
    ghost var was := ram[..];
    assert ram[0..(n + 1) / 2] == ram[..(n + 1) / 2];
    if n < 2 {
      InsertSmall(ram, 0, n, hs, id);
      cnt2 := 0;
    } else {
      cnt2 := InsertFullCanLarge(ram, n, (n + 1) / 2, hs, id);
    }
    InsertedWordsPack(was, ram[..], 0, hs, FirstAbove(hs, id), id);
  }

  method InsertFullCanLarge(ram: array<Word>, n: nat, e: nat, ghost hs: seq<Half>, id: Half) returns (cnt2: nat)
    requires |hs| == n >= 2 && e == (n + 1) / 2 && e + 1 - n % 2 <= ram.Length
    requires ram[0..e] == PackHalves(hs)
    requires id < PAD
    modifies ram
    ensures WordsInserted(old(ram[..]), ram[..], 0, e, e + 1 - n % 2,
        FirstAbove(hs, id) / 2, FirstAbove(hs, id) % 2 == 1, id)
    ensures cnt2 == FirstAbove(hs, id)
  {
    var cnt1;
    cnt1, cnt2 := FindHalf(ram, 0, n, hs, id);
    if cnt1 == e {
      ram[cnt1] := Word(id, PAD);
    } else {
      InsertFullCanMiddle(ram, e, n % 2 == 0, cnt1, cnt2 % 2 == 1, id);
    }
  }

  method InsertFullCanMiddle(ram: array<Word>, e: nat, even: bool, cnt1: nat, odd: bool, id: Half)
    requires cnt1 < e && e + (if even then 1 else 0) <= ram.Length
    modifies ram
    ensures WordsInserted(old(ram[..]), ram[..], 0, e, if even then e + 1 else e, cnt1, odd, id)
  {
    var buf0 := ram[cnt1];
    ram[cnt1] := if !odd then Word(id, buf0.hi) else Word(buf0.hi, id);
    var bound1 := if even then e else e - 1;
    buf0 := ShiftHalves(ram, cnt1, bound1, buf0);
    if even {
      ram[bound1] := Word(ram[bound1].hi, PAD);
    }
  }

  // ---------- removal ----------

  // What the driver leaves of a halfword section after removing position p.  From an odd position
  // of an odd-length section the shift stops one word early: the last entry is dropped in place of
  // the removed one when that is its left neighbour, and is replaced by a zero entry otherwise.
  function RemoveHalf(hs: seq<Half>, p: nat): (r: seq<Half>)
    requires p < |hs|
    ensures |r| == |hs| - 1
  {
    if p % 2 == 0 || |hs| % 2 == 0 then RemoveAt(hs, p)
    else if p == |hs| - 2 then hs[..|hs| - 1]
    else hs[..p] + hs[p + 1..|hs| - 1] + [0]
  }

  // Word j after position p, in word c, left a section; the shift runs up to word last.
  function RemovedWord(was: seq<Word>, c: nat, last: nat, oddPos: bool, oddLen: bool, j: nat): Word
    requires c <= last < |was| && j <= last
  {
    var end := if oddLen then (if oddPos then 0 else was[last].lo) else PAD;
    if j < c then was[j]
    else if j == c && oddPos then
      Word(was[c].hi, if c < last then was[c + 1].hi else if oddLen then was[c].lo else PAD)
    else if j < last then Word(was[j].lo, was[j + 1].hi)
    else if oddLen && !oddPos then was[last]
    else Word(was[last].lo, end)
  }

  // lpc17xx_can.c:1086-1118 and 1164-1196 : close up the halfwords of the section that starts at
  // word base; an odd-length section loses its last word afterwards (see CloseGap).
  method RemoveHalfword(ram: array<Word>, ghost base: nat, cnt0: nat, position: nat, n: nat)
    requires position < n && cnt0 == base + position / 2 && base + (n + 1) / 2 <= ram.Length
    modifies ram
    ensures var last := cnt0 + (n - position - 1) / 2;
            && (forall j {:trigger ram[j]} :: base <= j <= last ==>
                  ram[j] == RemovedWord(old(ram[..]), cnt0, last, position % 2 == 1, n % 2 == 1, j))
            && (forall j {:trigger ram[j]} :: 0 <= j < ram.Length && !(base <= j <= last) ==> ram[j] == old(ram[..])[j])
  {
    ghost var was := ram[..];
    var cnt := cnt0;
    var buf0 := ram[cnt];
    var bound := (n - position - 1) / 2;
    ghost var last := cnt + bound;
    if position % 2 == 0 {
      while bound > 0
        invariant 0 <= bound && cnt + bound == last
        invariant cnt0 <= cnt
        invariant buf0 == was[cnt]
        invariant forall j {:trigger ram[j]} :: cnt0 <= j < cnt ==> ram[j] == Word(was[j].lo, was[j + 1].hi)
        invariant forall j {:trigger ram[j]} :: 0 <= j < ram.Length && !(cnt0 <= j < cnt) ==> ram[j] == was[j]
      {
        bound := bound - 1;
        var buf1 := ram[cnt + 1];
        ram[cnt] := Word(buf0.lo, buf1.hi);
        buf0 := buf1;
        cnt := cnt + 1;
      }
    } else {
      while bound > 0
        invariant 0 <= bound && cnt + bound == last
        invariant cnt0 <= cnt
        invariant buf0 == if cnt == cnt0 then was[cnt] else Word(was[cnt].lo, 0)
        invariant forall j {:trigger ram[j]} :: cnt0 <= j < cnt ==>
                    ram[j] == Word(if j == cnt0 then was[j].hi else was[j].lo, was[j + 1].hi)
        invariant ram[cnt] == buf0
        invariant forall j {:trigger ram[j]} :: 0 <= j < ram.Length && !(cnt0 <= j <= cnt) ==> ram[j] == was[j]
      {
        bound := bound - 1;
        var buf1 := ram[cnt + 1];
        ram[cnt] := Word(buf0.hi, buf1.hi);
        ram[cnt + 1] := Word(ram[cnt + 1].lo, 0);
        buf0 := Word(buf1.lo, 0);
        cnt := cnt + 1;
      }
    }
    if n % 2 == 0 {
      ram[cnt] := if position % 2 == 0 then Word(buf0.lo, PAD) else Word(buf0.hi, PAD);
    }
  }

  lemma RemoveHalfAt(hs: seq<Half>, p: nat, i: nat)
    requires p < |hs| && i < |hs| - 1
    ensures RemoveHalf(hs, p)[i] ==
            if i < p then hs[i]
            else if i < |hs| - 2 || p % 2 == 0 || |hs| % 2 == 0 then hs[i + 1]
            else if p == |hs| - 2 then hs[i] else 0
  {}

  ghost predicate WordsRead(was: seq<Word>, base: nat, hs: seq<Half>, i: nat)
    requires i < (|hs| + 1) / 2 && base + (|hs| + 1) / 2 <= |was|
  {
    && was[base + i] == Word(hs[2 * i], HalfOrPad(hs, 2 * i + 1))
    && (i + 1 < (|hs| + 1) / 2 ==> was[base + i + 1] == Word(hs[2 * i + 2], HalfOrPad(hs, 2 * i + 3)))
  }

  lemma RemovedFromEven(was: seq<Word>, base: nat, hs: seq<Half>, p: nat, i: nat)
    requires p < |hs| && i < |hs| / 2 && base + (|hs| + 1) / 2 <= |was| && p % 2 == 0
    requires WordsRead(was, base, hs, i)
    ensures base + i <= base + p / 2 + (|hs| - p - 1) / 2
    ensures RemovedWord(was, base + p / 2, base + p / 2 + (|hs| - p - 1) / 2, false, |hs| % 2 == 1, base + i)
         == Word(RemoveHalf(hs, p)[2 * i], HalfOrPad(RemoveHalf(hs, p), 2 * i + 1))
  {
    RemoveHalfAt(hs, p, 2 * i);
    if 2 * i + 1 < |hs| - 1 {
      RemoveHalfAt(hs, p, 2 * i + 1);
    }
  }

  lemma RemovedFromOdd(was: seq<Word>, base: nat, hs: seq<Half>, p: nat, i: nat)
    requires p < |hs| && i < |hs| / 2 && base + (|hs| + 1) / 2 <= |was| && p % 2 == 1
    requires WordsRead(was, base, hs, i)
    ensures base + i <= base + p / 2 + (|hs| - p - 1) / 2
    ensures RemovedWord(was, base + p / 2, base + p / 2 + (|hs| - p - 1) / 2, true, |hs| % 2 == 1, base + i)
         == Word(RemoveHalf(hs, p)[2 * i], HalfOrPad(RemoveHalf(hs, p), 2 * i + 1))
  {
    RemoveHalfAt(hs, p, 2 * i);
    if 2 * i + 1 < |hs| - 1 {
      RemoveHalfAt(hs, p, 2 * i + 1);
    }
  }

  lemma RemovedWordPacked(was: seq<Word>, base: nat, hs: seq<Half>, p: nat, i: nat)
    requires p < |hs| && i < |hs| / 2 && base + (|hs| + 1) / 2 <= |was|
    requires was[base..base + (|hs| + 1) / 2] == PackHalves(hs)
    ensures base + i <= base + p / 2 + (|hs| - p - 1) / 2
    ensures RemovedWord(was, base + p / 2, base + p / 2 + (|hs| - p - 1) / 2, p % 2 == 1, |hs| % 2 == 1, base + i)
         == PackHalves(RemoveHalf(hs, p))[i]
  {
    var n := |hs|;
    SectionWord(was, base, PackHalves(hs), i);
    if i + 1 < (n + 1) / 2 {
      SectionWord(was, base, PackHalves(hs), i + 1);
    }
    if p % 2 == 0 {
      RemovedFromEven(was, base, hs, p, i);
    } else {
      RemovedFromOdd(was, base, hs, p, i);
    }
  }

  lemma RemovedWordsPack(was: seq<Word>, now: seq<Word>, base: nat, hs: seq<Half>, p: nat, last: nat)
    requires p < |hs| && base + (|hs| + 1) / 2 <= |was| == |now|
    requires was[base..base + (|hs| + 1) / 2] == PackHalves(hs)
    requires last == base + p / 2 + (|hs| - p - 1) / 2
    requires forall j {:trigger now[j]} :: base <= j <= last ==>
               now[j] == RemovedWord(was, base + p / 2, last, p % 2 == 1, |hs| % 2 == 1, j)
    requires forall j {:trigger now[j]} :: 0 <= j < |now| && !(base <= j <= last) ==> now[j] == was[j]
    ensures now[..base] == was[..base] && now[base + (|hs| + 1) / 2..] == was[base + (|hs| + 1) / 2..]
    ensures now[base..base + |hs| / 2] == PackHalves(RemoveHalf(hs, p))
  {
    var r := PackHalves(RemoveHalf(hs, p));
    forall i | 0 <= i < |r| ensures now[base + i] == r[i] {
      RemovedWordPacked(was, base, hs, p, i);
      assert base <= base + i <= last;
    }
  }

  // The section repacked without position p, in one word less when its length was odd.
  ghost predicate Repacked(was: seq<Word>, now: seq<Word>, base: nat, hs: seq<Half>, p: nat)
    requires p < |hs|
  {
    var e := base + (|hs| + 1) / 2;
    && e <= |was| == |now|
    && now[..base] == was[..base] && now[e..] == was[e..]
    && now[base..base + |hs| / 2] == PackHalves(RemoveHalf(hs, p))
  }

  method RepackWithout(ram: array<Word>, ghost hs: seq<Half>, base: nat, n: nat, position: nat)
    requires |hs| == n && position < n && base + (n + 1) / 2 <= ram.Length
    requires ram[base..base + (n + 1) / 2] == PackHalves(hs)
    modifies ram
    ensures Repacked(old(ram[..]), ram[..], base, hs, position)
  {
    ghost var was := ram[..];
    RemoveHalfword(ram, base, base + position / 2, position, n);
    hide PackHalves, RemoveHalf, RemovedWord;
    RemovedWordsPack(was, ram[..], base, hs, position, base + position / 2 + (n - position - 1) / 2);
  }

  // One word at p is squeezed out of [.., end) and the freed last word is cleared.
  method CloseGap(ram: array<Word>, p: nat, end: nat)
    requires p < end <= ram.Length
    modifies ram
    ensures ram[..] == MoveDown(old(ram[..]), p, 1, end - p - 1)[end - 1 := ZERO]
  {
    ghost var was := ram[..];
    var cnt := p + 1;
    while end > cnt
      invariant p < cnt <= end
      invariant forall j {:trigger ram[j]} :: p <= j < cnt - 1 ==> ram[j] == was[j + 1]
      invariant forall j {:trigger ram[j]} :: 0 <= j < ram.Length && !(p <= j < cnt - 1) ==> ram[j] == was[j]
    {
      ram[cnt - 1] := ram[cnt];
      cnt := cnt + 1;
    }
    ram[cnt - 1] := ZERO;
  }

  // lpc17xx_can.c:1277-1283 : the words from `from` on are taken two places down, two at a time; an
  // odd number moves one word more, so that the words up to `stop` are overwritten.
  method MoveDownPairs(ram: array<Word>, from: nat, bound: nat, ghost stop: nat) returns (ghost top: nat)
    requires from < bound <= stop <= bound + 1 && (stop - from) % 2 == 0 && stop + 2 <= ram.Length
    modifies ram
    ensures ram[..] == MoveDown(old(ram[..]), from, 2, stop - from)
    ensures top == stop + 1
  {
    ghost var was := ram[..];
    var cnt := from;
    top := 0;
    while cnt < bound
      invariant from <= cnt <= stop && (stop - cnt) % 2 == 0 && (cnt > from ==> top == cnt + 1)
      invariant forall j {:trigger ram[j]} :: from <= j < cnt ==> ram[j] == was[j + 2]
      invariant forall j {:trigger ram[j]} :: 0 <= j < ram.Length && !(from <= j < cnt) ==> ram[j] == was[j]
    {
      ram[cnt] := ram[cnt + 2];
      ram[cnt + 1] := ram[cnt + 3];
      top := cnt + 3;
      cnt := cnt + 2;
    }
  }

  // lpc17xx_can.c:1141-1151 : whole objects taken one object down.
  method MoveDownObjects(ram: array<Word>, from: nat, count: nat) returns (ghost top: nat)
    requires 0 < count && from + 3 * count + 3 <= ram.Length
    modifies ram
    ensures ram[..] == MoveDown(old(ram[..]), from, 3, 3 * count)
    ensures top == from + 3 * count + 2
  {
    ghost var was := ram[..];
    var cnt, bound := from, count * 3;
    top := 0;
    while bound != 0
      invariant 0 <= bound && bound % 3 == 0 && cnt + bound == from + 3 * count && (cnt > from ==> top == cnt + 2)
      invariant forall j {:trigger ram[j]} :: from <= j < cnt ==> ram[j] == was[j + 3]
      invariant forall j {:trigger ram[j]} :: 0 <= j < ram.Length && !(from <= j < cnt) ==> ram[j] == was[j]
    {
      ram[cnt] := ram[cnt + 3];
      ram[cnt + 1] := ram[cnt + 4];
      ram[cnt + 2] := ram[cnt + 5];
      top := cnt + 5;
      bound := bound - 3;
      cnt := cnt + 3;
    }
  }

  // In now, xs sits at `at` and what was in [at, end) follows it.
  ghost predicate Carried(was: seq<Word>, now: seq<Word>, at: nat, xs: seq<Word>, end: nat)
    requires at <= end && end + |xs| <= |was| == |now|
  {
    && (forall j {:trigger now[j]} :: at <= j < at + |xs| ==> now[j] == xs[j - at])
    && (forall j {:trigger now[j]} :: at + |xs| <= j < end + |xs| ==> now[j] == was[j - |xs|])
    && (forall j {:trigger now[j]} :: 0 <= j < |now| && !(at <= j < end + |xs|) ==> now[j] == was[j])
  }

  lemma CarriedInserts(was: seq<Word>, now: seq<Word>, at: nat, xs: seq<Word>, end: nat)
    requires at <= end && end + |xs| <= |was| == |now|
    requires Carried(was, now, at, xs, end)
    ensures now == InsertWords(was, at, xs, end)
  {}

  lemma CarryStep(was: seq<Word>, now: seq<Word>, at: nat, xs: seq<Word>, end: nat)
    requires at <= end && end + 2 * |xs| <= |was| == |now|
    requires Carried(was, now, at, xs, end)
    ensures Carried(was, Overwrite(now, end + |xs|, was[end..end + |xs|]), at, xs, end + |xs|)
    ensures now[end + |xs|..end + 2 * |xs|] == was[end + |xs|..end + 2 * |xs|]
  {}

  // Adjacent assignments ram[at] = ws[0]; ram[at + 1] = ws[1]; ...
  method WriteWords(ram: array<Word>, at: nat, ws: seq<Word>)
    requires at + |ws| <= ram.Length
    modifies ram
    ensures ram[..] == Overwrite(old(ram[..]), at, ws)
  {
    ghost var was := ram[..];
    for i := 0 to |ws|
      invariant ram[..] == Overwrite(was, at, ws[..i])
    {
      assert ws[..i + 1] == ws[..i] + [ws[i]];
      ram[at + i] := ws[i];
    }
    assert ws[..|ws|] == ws;
  }

  // One round of the driver's carrying loops, |xs| words wide: buf holds the words displaced last.
  method CarryRound(ram: array<Word>, ghost was: seq<Word>, ghost at: nat, ghost xs: seq<Word>, ghost end: nat,
                    cnt1: nat, buf: seq<Word>)
    returns (tmp: seq<Word>)
    requires at <= end && cnt1 == end + |xs| && cnt1 + |xs| <= ram.Length == |was|
    requires buf == was[end..cnt1]
    requires Carried(was, ram[..], at, xs, end)
    modifies ram
    ensures tmp == was[cnt1..cnt1 + |xs|]
    ensures Carried(was, ram[..], at, xs, cnt1)
  {
    CarryStep(was, ram[..], at, xs, end);
    tmp := ram[cnt1..cnt1 + |buf|];
    WriteWords(ram, cnt1, buf);
  }

  // The first write of the carrying loops.
  method CarryStart(ram: array<Word>, at: nat, xs: seq<Word>) returns (buf: seq<Word>)
    requires at + |xs| <= ram.Length
    modifies ram
    ensures buf == old(ram[..])[at..at + |xs|]
    ensures Carried(old(ram[..]), ram[..], at, xs, at)
  {
    buf := ram[at..at + |xs|];
    WriteWords(ram, at, xs);
  }

  // lpc17xx_can.c:837-856 : a zeroed object opened at a word, `count` objects' worth of words moved up.
  method OpenObject(ram: array<Word>, at: nat, count: nat) returns (ghost top: nat)
    requires at + 3 * count + 3 <= ram.Length
    modifies ram
    ensures ram[..] == InsertWords(old(ram[..]), at, GAP, at + 3 * count)
    ensures top == at + 3 * count + 2
  {
    ghost var was := ram[..];
    hide Carried, InsertWords;
    ghost var xs := GAP;
    var buf := CarryStart(ram, at, GAP);
    top := at + 2;
    var cnt1, bound1 := at + 3, count;
    ghost var end := at;
    while bound1 > 0
      invariant 0 <= bound1 && at <= end && cnt1 == end + 3 && end + 3 * bound1 == at + 3 * count && top == end + 2
      invariant buf == was[end..cnt1]
      invariant Carried(was, ram[..], at, xs, end)
    {
      buf := CarryRound(ram, was, at, xs, end, cnt1, buf);
      end, top := cnt1, cnt1 + 2;
      bound1, cnt1 := bound1 - 1, cnt1 + 3;
    }
    assert end == at + 3 * count;
    CarriedInserts(was, ram[..], at, xs, end);
  }

  // lpc17xx_can.c:1026-1039 : two displaced words carried up two at a time over the n words from
  // `at`; an odd n moves one word more, so that the words up to `stop` move.
  method OpenPair(ram: array<Word>, at: nat, n: nat, first: Word, second: Word, ghost stop: nat)
    returns (ghost top: nat)
    requires n == stop - at || n + 1 == stop - at
    requires at <= stop && (stop - at) % 2 == 0 && stop + 2 <= ram.Length
    modifies ram
    ensures ram[..] == InsertWords(old(ram[..]), at, [first, second], stop)
    ensures top == stop + 1
  {
    ghost var was := ram[..];
    hide Carried, InsertWords;
    ghost var xs := [first, second];
    var buf := CarryStart(ram, at, [first, second]);
    top := at + 1;
    var cnt1, bound1 := at + 2, n;
    ghost var end, left := at, (stop - at) / 2;
    while bound1 > 0
      invariant 0 <= left && at <= end && cnt1 == end + 2 && end + 2 * left == stop && end + bound1 == at + n
          && top == end + 1
      invariant buf == was[end..cnt1]
      invariant Carried(was, ram[..], at, xs, end)
    {
      buf := CarryRound(ram, was, at, xs, end, cnt1, buf);
      end, left, top := cnt1, left - 1, cnt1 + 1;
      bound1, cnt1 := bound1 - 2, cnt1 + 2;
    }
    assert end == stop;
    CarriedInserts(was, ram[..], at, xs, end);
  }
}

/**
  The RAM side of each acceptance-filter call: methods that rewrite the look-up-table RAM in place,
  proved to turn a RAM that encodes a table into one that encodes the table the call specifies.
  The counters they use are parameters; the ghost table says what the RAM held before.
 */
module CanRam {
  import opened CanWords
  import opened CanSections
  import opened CanTable

  // The RAM ends here; `ram` below is the memory from its first word on, however much is modelled.
  const RAM_WORDS := 512

  // The RAM starts with the words of table t.
  ghost predicate InRam(ram: array<Word>, t: Table)
    reads ram
  {
    Encode(t) <= ram[..]
  }

  // The RAM words behind the table.
  ghost function WordsBehind(ram: array<Word>, t: Table): (ws: seq<Word>)
    reads ram
    requires InRam(ram, t)
    ensures Size(t) + |ws| == ram.Length
  {
    StartIs(t, 0);
    ram[..][Size(t)..]
  }

  // ---------- explicit standard identifiers ----------

  ghost function RamOpenedForStd(s: seq<Word>, t: Table): (r: seq<Word>)
    requires Start(t, 2) <= Size(t) < |s|
    ensures |r| == |s|
  {
    if |t.std| % 2 == 0 then InsertWords(s, Start(t, 2), [s[Start(t, 2)]], Size(t)) else s
  }

  // lpc17xx_can.c:525-537 : a word opened behind the standard section when its count is even.
  method OpenStandard(ram: array<Word>, ghost t: Table, fullCnt: nat, stdCnt: nat, total: nat) returns (ghost top: nat)
    requires InRam(ram, t) && fullCnt == |t.fullCan| && stdCnt == |t.std|
    requires Start(t, 2) <= total == Size(t) < ram.Length
    modifies ram
    ensures |t.std| % 2 == 0 ==> top == Size(t)
    ensures ram[..] == RamOpenedForStd(old(ram[..]), t)
    ensures ram[(fullCnt + 1) / 2..(fullCnt + 1) / 2 + (stdCnt + 1) / 2] == PackHalves(t.std)
  {
    hide Encode, PackHalves, Concat, InsertWords, Parts;
    StdThere(ram[..], t);
    top := 0;
    if stdCnt % 2 == 0 {
      ghost var s := ram[..];
      var cnt1 := (fullCnt + 1) / 2 + (stdCnt + 1) / 2;
      assert cnt1 == Start(t, 2);
      hide Start, Size;
      top := OpenGap(ram, cnt1, total - cnt1);
      InsertKeeps(s, cnt1, [s[cnt1]], total, (fullCnt + 1) / 2);
    }
  }

  lemma StdThere(s: seq<Word>, t: Table)
    requires Encode(t) <= s
    ensures Start(t, 1) == (|t.fullCan| + 1) / 2 && Start(t, 2) == Start(t, 1) + (|t.std| + 1) / 2 <= |s|
    ensures s[Start(t, 1)..Start(t, 2)] == PackHalves(t.std)
  {
    PartAt(s, t, 1);
  }

  lemma InsertKeeps(s: seq<Word>, p: nat, xs: seq<Word>, end: nat, a: nat)
    requires a <= p <= end && end + |xs| <= |s|
    ensures InsertWords(s, p, xs, end)[a..p] == s[a..p]
  {}

  lemma StdIdGrown(s: seq<Word>, s1: seq<Word>, t: Table, base: nat, std: seq<Half>)
    requires Encode(t) <= s && Start(t, 2) <= Size(t) < |s| && |std| == |t.std| + 1
    requires s1 == RamOpenedForStd(s, t) && base == Start(t, 1)
    ensures Encode(t.(std := std)) <= Overwrite(s1, base, PackHalves(std))
  {
    StdGrown(s, s1, t, std, Size(t));
  }

  // lpc17xx_can.c:525-627
  method LoadStandard(ram: array<Word>, ghost t: Table, fullCnt: nat, stdCnt: nat, entry: Half, total: nat)
    returns (ghost top: nat)
    requires InRam(ram, t) && fullCnt == |t.fullCan| && stdCnt == |t.std|
    requires total == Size(t) < ram.Length && entry < PAD
    modifies ram
    ensures InRam(ram, AddStd(t, entry))
    ensures |t.std| % 2 == 0 ==> top == Size(t)
  {
    ghost var s, t' := ram[..], AddStd(t, entry);
    assert t'.std == InsertAt(t.std, FirstAbove(t.std, entry), entry);
    hide Encode, FirstAbove, PackHalves, InsertAt, Concat, Parts, Overwrite, InsertWords, AddStd, RamOpenedForStd;
    top := OpenStandard(ram, t, fullCnt, stdCnt, total);
    ghost var s1 := ram[..];
    var base := (fullCnt + 1) / 2;
    InsertStd(ram, base, stdCnt, t.std, entry);
    StdIdGrown(s, s1, t, base, t'.std);
  }

  // ---------- explicit extended identifiers ----------

  // The first extended identifier above `value`, by word and by place in its section.
  method FindExt(ram: array<Word>, ghost ext: seq<Word>, base: nat, extCnt: nat, value: UInt32)
    returns (cnt1: nat, cnt2: nat)
    requires extCnt == |ext| && base + extCnt <= ram.Length && ram[base..base + extCnt] == ext
    ensures cnt2 == FirstAbove(Values(ext), value) && cnt1 == base + cnt2
  {
    cnt1, cnt2 := base, 0;
    while cnt2 < extCnt
      invariant cnt2 <= extCnt && cnt1 == base + cnt2
      invariant forall i :: 0 <= i < cnt2 ==> Values(ext)[i] <= value
    {
      SectionWord(ram[..], base, ext, cnt2);
      if ram[cnt1].Value() > value {
        break;
      }
      cnt1 := cnt1 + 1;
      cnt2 := cnt2 + 1;
    }
    FirstAboveIs(Values(ext), value, cnt2);
  }

  // The memory after an extended load: the shift moves `total` words from the section start on.
  function ExtLoaded(s: seq<Word>, t: Table, entry: Word): (r: seq<Word>)
    requires Start(t, 3) + Size(t) < |s|
    ensures |r| == |s|
  {
    InsertWords(s, Start(t, 3) + FirstAbove(Values(t.ext), entry.Value()), [entry], Start(t, 3) + Size(t))
  }

  lemma ExtInserted(s: seq<Word>, t: Table, entry: Word)
    requires Encode(t) <= s && Start(t, 3) + Size(t) < |s|
    ensures Encode(AddExt(t, entry)) <= ExtLoaded(s, t, entry)
  {
    var k := FirstAbove(Values(t.ext), entry.Value());
    hide Encode, FirstAbove, Values, InsertWords;
    PartInserted(s, t, AddExt(t, entry), 3, k, [entry], Start(t, 3) + Size(t));
  }

  // lpc17xx_can.c:642-669 : `total` words are moved, whatever the length of the sections behind.
  method LoadExtended(ram: array<Word>, ghost t: Table, base: nat, extCnt: nat, entry: Word, total: nat)
    returns (ghost top: nat)
    requires InRam(ram, t) && base == Start(t, 3) && extCnt == |t.ext|
    requires total == Size(t) && base + total < ram.Length
    modifies ram
    ensures InRam(ram, AddExt(t, entry))
    ensures top == Start(t, 3) + Size(t)
    ensures ram[..] == ExtLoaded(old(ram[..]), t, entry)
  {
    hide Encode, FirstAbove, Values, InsertWords, AddExt;
    PartAt(ram[..], t, 3);
    hide Start, Size;
    var cnt1, cnt2 := FindExt(ram, t.ext, base, extCnt, entry.Value());
    ExtInserted(ram[..], t, entry);
    top := InsertWord(ram, cnt1, entry, base + total);
  }

  // ---------- FullCAN entries ----------

  // A FullCAN load with an even count shifts as far as this.
  function FullCanShift(t: Table): (end: nat) {
    if |t.fullCan| % 2 == 0 && Size(t) != 0 then Start(t, 1) + Size(t) else 0
  }

  ghost function RamOpenedForFullCan(s: seq<Word>, t: Table): (r: seq<Word>)
    requires Start(t, 1) <= Size(t) < |s| && FullCanShift(t) < |s|
    ensures |r| == |s|
  {
    if |t.fullCan| % 2 == 0 && Size(t) != 0
    then InsertWords(s, Start(t, 1), [s[Start(t, 1)]], Start(t, 1) + Size(t)) else s
  }

  // lpc17xx_can.c:732-746 : with an even count, everything from the end of the FullCAN section on
  // moves one word up, and with it as many words again as the section has.
  method OpenFullCan(ram: array<Word>, ghost t: Table, fullCnt: nat, total: nat) returns (ghost top: nat)
    requires InRam(ram, t) && fullCnt == |t.fullCan|
    requires Start(t, 1) <= total == Size(t) < ram.Length && FullCanShift(t) < ram.Length
    modifies ram
    ensures ram[..] == RamOpenedForFullCan(old(ram[..]), t)
    ensures ram[..(fullCnt + 1) / 2] == PackHalves(t.fullCan)
    ensures top == FullCanShift(t)
  {
    hide Encode, PackHalves, Concat;
    PartAt(ram[..], t, 0);
    assert Start(t, 0) == 0 && Start(t, 1) == (fullCnt + 1) / 2;
    top := 0;
    if fullCnt % 2 == 0 && total != 0 {
      ghost var s := ram[..];
      assert fullCnt / 2 == Start(t, 1) && FullCanShift(t) == fullCnt / 2 + total;
      hide InsertWords, Start, Size, FullCanShift;
      top := OpenGap(ram, fullCnt / 2, total);
      InsertKeeps(s, fullCnt / 2, [s[fullCnt / 2]], fullCnt / 2 + total, 0);
    }
  }

  lemma FullCanIdGrown(s: seq<Word>, s1: seq<Word>, t: Table, fc: seq<Half>)
    requires Encode(t) <= s && Start(t, 1) <= Size(t) < |s| && |fc| == |t.fullCan| + 1
    requires FullCanShift(t) < |s| && s1 == RamOpenedForFullCan(s, t)
    ensures Encode(t.(fullCan := fc)) <= Overwrite(s1, 0, PackHalves(fc))
    ensures |t.fullCan| % 2 == 1 ==> Overwrite(s1, 0, PackHalves(fc))[Size(t)] == s[Size(t)]
  {
    assert |t.fullCan| % 2 == 1 ==> |PackHalves(fc)| <= Size(t);
    hide Encode, PackHalves, Halfwords;
    if |t.fullCan| % 2 == 0 && Size(t) == 0 {
      assert s == InsertWords(s, 0, [s[0]], 0);
      FullCanGrown(s, s1, t, fc, 0);
    } else {
      FullCanGrown(s, s1, t, fc, if |t.fullCan| % 2 == 0 then Start(t, 1) + Size(t) else Size(t));
    }
  }

  // The memory after the identifier step.
  ghost function FullCanIdLoaded(s: seq<Word>, t: Table, entry: Half): (r: seq<Word>)
    requires Size(t) < |s| && FullCanShift(t) < |s|
    ensures |r| == |s|
  {
    Overwrite(RamOpenedForFullCan(s, t), 0, PackHalves(InsertAt(t.fullCan, FirstAbove(t.fullCan, entry), entry)))
  }

  // lpc17xx_can.c:732-835 : the identifier step of a FullCAN load.
  method LoadFullCanId(ram: array<Word>, ghost t: Table, fullCnt: nat, entry: Half, total: nat, ghost after: Word)
    returns (cnt2: nat, ghost top: nat)
    requires InRam(ram, t) && fullCnt == |t.fullCan|
    requires total == Size(t) < ram.Length && entry < PAD && FullCanShift(t) < ram.Length
    requires ram[..][total] == after
    modifies ram
    ensures InRam(ram, AddFullCanId(t, entry))
    ensures ram[..] == FullCanIdLoaded(old(ram[..]), t, entry)
    ensures fullCnt % 2 == 1 ==> ram[..][total] == after
    ensures cnt2 == FullCanPlace(t, entry)
    ensures top == FullCanShift(t)
  {
    ghost var s, t' := ram[..], AddFullCanId(t, entry);
    assert t'.fullCan == InsertAt(t.fullCan, FirstAbove(t.fullCan, entry), entry);
    hide Encode, FirstAbove, PackHalves, InsertAt, Concat, Parts, Overwrite, InsertWords, AddFullCanId,
        RamOpenedForFullCan;
    PartAt(s, t, 0);
    top := OpenFullCan(ram, t, fullCnt, total);
    ghost var s1 := ram[..];
    cnt2 := InsertFullCan(ram, fullCnt, t.fullCan, entry);
    FullCanIdGrown(s, s1, t, t'.fullCan);
  }

  // The place the object step works with.
  function FullCanPlace(t: Table, entry: Half): (cnt2: nat)
    ensures cnt2 <= |t.fullCan|
  {
    if |t.fullCan| == 1 then 0 else FirstAbove(t.fullCan, entry)
  }

  // The first word of the new object.
  function ObjectWord(t: Table, cnt2: nat): int { Size(t) - |t.fullCan| * 3 + cnt2 * 3 + 1 }

  lemma FullCanAddition(s: seq<Word>, t: Table, t1: Table, entry: Half, after: Word, cnt2: nat)
    requires t1 == AddFullCanId(t, entry) && Encode(t1) <= s
    requires Size(t) + 3 < |s| && |t.objects| == 3 * |t.fullCan|
    requires |t.fullCan| % 2 == 1 ==> s[Size(t)] == after
    requires cnt2 == FullCanPlace(t, entry)
    ensures cnt2 <= |t.fullCan| && 0 <= ObjectWord(t, cnt2)
    ensures ObjectWord(t, cnt2) + 3 * (|t.fullCan| - cnt2) + 3 == Size(t) + 4 <= |s|
    ensures Encode(AddFullCan(t, entry, after))
         <= InsertWords(s, ObjectWord(t, cnt2), GAP, ObjectWord(t, cnt2) + 3 * (|t.fullCan| - cnt2))
  {
    hide InsertWords, OpenObjectAt, Encode, ObjectSlot, AddFullCanId, Halfwords, FullCanPlace;
    var at := ObjectSlot(t.fullCan, entry);
    NewObjectWord(t, t1, entry, cnt2);
    assert AddFullCan(t, entry, after) == t1.(objects := OpenObjectAt(t1.objects, after, at));
    if |t.fullCan| % 2 == 0 {
      ObjectOpenedAligned(s, t1, at, after);
    } else {
      ObjectOpenedLate(s, t1, at, after);
    }
  }

  lemma NewObjectWord(t: Table, t1: Table, entry: Half, cnt2: nat)
    requires t1 == t.(fullCan := t1.fullCan) && |t1.fullCan| == |t.fullCan| + 1 && |t.objects| == 3 * |t.fullCan|
    requires cnt2 == FullCanPlace(t, entry)
    ensures Size(t1) == Size(t) + 1 - |t.fullCan| % 2
    ensures Start(t1, 5) + |t1.objects| == Size(t1)
    ensures Start(t1, 5) + ObjectSlot(t.fullCan, entry) == ObjectWord(t, cnt2)
    ensures ObjectSlot(t.fullCan, entry) == 3 * cnt2 + |t.fullCan| % 2
  {}

  function Max(a: nat, b: nat): nat { if a < b then b else a }

  // The shift of a FullCAN load, or its new object.
  function FullCanReach(t: Table): nat { Max(FullCanShift(t), Size(t) + 3) }

  // The memory after a FullCAN load.
  ghost function FullCanLoaded(s: seq<Word>, t: Table, entry: Half): (r: seq<Word>)
    requires |t.objects| == 3 * |t.fullCan| && FullCanReach(t) < |s|
    ensures |r| == |s|
  {
    var at := ObjectWord(t, FullCanPlace(t, entry));
    InsertWords(FullCanIdLoaded(s, t, entry), at, GAP, at + 3 * (|t.fullCan| - FullCanPlace(t, entry)))
  }

  // lpc17xx_can.c:732-856 : identifier and object steps together.
  method LoadFullCan(ram: array<Word>, ghost t: Table, fullCnt: nat, entry: Half, total: nat, ghost behind: seq<Word>)
    returns (ghost top: nat)
    requires InRam(ram, t) && behind == WordsBehind(ram, t) && fullCnt == |t.fullCan| && |t.objects| == 3 * |t.fullCan|
    requires total == Size(t) && FullCanReach(t) < ram.Length && entry < PAD
    modifies ram
    ensures InRam(ram, AddFullCan(t, entry, behind[0]))
    ensures ram[..] == FullCanLoaded(old(ram[..]), t, entry)
    ensures top == FullCanReach(t)
  {
    hide Encode, AddFullCanId, AddFullCan, FirstAbove, FullCanIdLoaded, FullCanPlace, ObjectWord, InsertWords;
    ghost var after := behind[0];
    assert ram[..][total] == after;
    assert FullCanReach(t) == Max(FullCanShift(t), total + 3);
    hide WordsBehind, FullCanReach, FullCanShift, Start, IdSize;
    var cnt2;
    cnt2, top := LoadFullCanId(ram, t, fullCnt, entry, total, after);
    ghost var top2 := OpenFullCanObject(ram, t, fullCnt, entry, total, after, cnt2);
    top := Max(top, top2);
  }

  // lpc17xx_can.c:837-856
  method OpenFullCanObject(ram: array<Word>, ghost t: Table, fullCnt: nat, ghost entry: Half, total: nat,
      ghost after: Word, cnt2: nat)
    returns (ghost top: nat)
    requires InRam(ram, AddFullCanId(t, entry)) && fullCnt == |t.fullCan| && |t.objects| == 3 * |t.fullCan|
    requires total == Size(t) && total + 3 < ram.Length
    requires fullCnt % 2 == 1 ==> ram[..][total] == after
    requires cnt2 == FullCanPlace(t, entry)
    modifies ram
    ensures InRam(ram, AddFullCan(t, entry, after))
    ensures 0 <= ObjectWord(t, cnt2) && ObjectWord(t, cnt2) + 3 * (|t.fullCan| - cnt2) + 3 <= ram.Length
    ensures ram[..] == InsertWords(old(ram[..]), ObjectWord(t, cnt2), GAP,
        ObjectWord(t, cnt2) + 3 * (|t.fullCan| - cnt2))
    ensures top == total + 3
  {
    FullCanAddition(ram[..], t, AddFullCanId(t, entry), entry, after, cnt2);
    hide Encode, AddFullCanId, AddFullCan, OpenObjectAt, InsertWords, FirstAbove, Size, Halfwords, FullCanPlace;
    var cnt1 := total - fullCnt * 3 + cnt2 * 3 + 1;
    assert cnt1 == ObjectWord(t, cnt2);
    top := OpenObject(ram, cnt1, fullCnt - cnt2);
  }

  // ---------- groups ----------

  // lpc17xx_can.c:929-948 : the walk over the standard groups.
  method FindGroup(ram: array<Word>, ghost groups: seq<Word>, base: nat, gstdCnt: nat, lower: nat, upper: nat)
    returns (cnt1: nat, conflict: bool)
    requires gstdCnt == |groups| && base + gstdCnt <= ram.Length && ram[base..base + gstdCnt] == groups
    ensures match FindSlot(StdRanges(groups), lower, upper)
            case At(k) => !conflict && cnt1 == base + k
            case Conflict => conflict
  {
    ghost var rs, i := StdRanges(groups), 0;
    cnt1, conflict := base, false;
    var bound1 := base + gstdCnt;
    assert rs[0..] == rs;
    hide Id11, FindSlot;
    while cnt1 < bound1
      invariant cnt1 == base + i && i <= |rs|
      invariant FindSlot(rs, lower, upper) == Later(FindSlot(rs[i..], lower, upper), i)
    {
      SectionWord(ram[..], base, groups, i);
      SlotStep(rs, i, lower, upper);
      var buf0 := ram[cnt1];
      assert rs[i] == StdRange(buf0);
      if upper <= Id11(buf0.hi) {
        return;
      } else if lower >= Id11(buf0.lo) {
        cnt1, i := cnt1 + 1, i + 1;
      } else {
        return cnt1, true;
      }
    }
    SlotStep(rs, i, lower, upper);
  }

  lemma FlattenAt(gs: seq<ExtGroup>, i: nat)
    requires i < |gs|
    ensures Flatten(gs)[2 * i] == gs[i].lower && Flatten(gs)[2 * i + 1] == gs[i].upper
    ensures ExtRanges(gs)[i] == Range(Id29(gs[i].lower), Id29(gs[i].upper))
  {}

  // lpc17xx_can.c:995-1017 : the walk over the extended groups.
  method FindExtGroup(ram: array<Word>, ghost gs: seq<ExtGroup>, base: nat, gextCnt: nat, lower: nat, upper: nat)
    returns (cnt1: nat, conflict: bool, ghost i: nat)
    requires gextCnt == |gs| && base + 2 * gextCnt <= ram.Length && ram[base..base + 2 * gextCnt] == Flatten(gs)
    ensures match FindSlot(ExtRanges(gs), lower, upper)
            case At(k) => !conflict && cnt1 == base + 2 * k
            case Conflict => conflict
    ensures !conflict ==> i <= |gs| && cnt1 == base + 2 * i
  {
    ghost var rs := ExtRanges(gs);
    cnt1, conflict, i := base, false, 0;
    var bound1 := base + 2 * gextCnt;
    assert rs[0..] == rs;
    hide Flatten, ExtRanges, Id29, FindSlot;
    while cnt1 < bound1
      invariant cnt1 == base + 2 * i && i <= |rs|
      invariant FindSlot(rs, lower, upper) == Later(FindSlot(rs[i..], lower, upper), i)
    {
      SectionWord(ram[..], base, Flatten(gs), 2 * i);
      SectionWord(ram[..], base, Flatten(gs), 2 * i + 1);
      FlattenAt(gs, i);
      SlotStep(rs, i, lower, upper);
      var buf0, buf1 := ram[cnt1], ram[cnt1 + 1];
      if upper <= Id29(buf0) {
        return;
      } else if lower >= Id29(buf1) {
        cnt1, i := cnt1 + 2, i + 1;
      } else {
        conflict := true;
        return;
      }
    }
    SlotStep(rs, i, lower, upper);
  }

  // The table after a group load; `after` is the RAM word behind the table.
  function LoadedStdGroup(t: Table, entry: Word, lower: nat, upper: nat, after: Word): (t': Table)
    ensures |t'.groups| == (if t.groups == [] || FindSlot(StdRanges(t.groups), lower, upper).At? then |t.groups| + 1
        else |t.groups|)
    ensures t'.fullCan == t.fullCan && t'.std == t.std
    ensures |t'.ext| == |t.ext| && |t'.extGroups| == |t.extGroups| && |t'.objects| == |t.objects|
  {
    if t.groups == [] then AddFirstGroup(t, entry, after)
    else match FindSlot(StdRanges(t.groups), lower, upper)
         case At(k) => AddGroupAt(t, k, entry)
         case Conflict => t
  }

  function LoadedExtGroup(t: Table, entry: ExtGroup, lower: nat, upper: nat, after: seq<Word>): (t': Table)
    requires |after| == 2
    ensures |t'.extGroups| == (if t.extGroups == [] || FindSlot(ExtRanges(t.extGroups), lower, upper).At?
        then |t.extGroups| + 1 else |t.extGroups|)
    ensures t' == t.(extGroups := t'.extGroups, objects := t'.objects) && |t'.objects| == |t.objects|
  {
    if t.extGroups == [] then AddFirstExtGroup(t, entry, after)
    else match FindSlot(ExtRanges(t.extGroups), lower, upper)
         case At(k) => AddExtGroupAt(t, k, entry)
         case Conflict => t
  }

  lemma GroupInserted(s: seq<Word>, t: Table, k: nat, entry: Word)
    requires Encode(t) <= s && k <= |t.groups| && Size(t) < |s| && Start(t, 2) + |t.groups| <= Size(t)
    ensures Encode(AddGroupAt(t, k, entry)) <= InsertWords(s, Start(t, 2) + k, [entry], Size(t))
  {
    PartInserted(s, t, AddGroupAt(t, k, entry), 2, k, [entry], Size(t));
  }

  lemma ExtGroupInserted(s: seq<Word>, t: Table, k: nat, g: ExtGroup, end: nat)
    requires Encode(t) <= s && k <= |t.extGroups| && Size(t) <= end && end + 2 <= |s|
        && Start(t, 4) + 2 * |t.extGroups| <= Size(t)
    ensures Encode(AddExtGroupAt(t, k, g)) <= InsertWords(s, Start(t, 4) + 2 * k, [g.lower, g.upper], end)
  {
    FlattenInsert(t.extGroups, k, g);
    PartInserted(s, t, AddExtGroupAt(t, k, g), 4, 2 * k, [g.lower, g.upper], end);
  }

  // lpc17xx_can.c:919-965
  method LoadStdGroup(ram: array<Word>, ghost t: Table, base: nat, gstdCnt: nat, entry: Word, lower: nat, upper: nat,
                      total: nat, ghost behind: seq<Word>)
    returns (conflict: bool, ghost top: nat)
    requires InRam(ram, t) && base == Start(t, 2) && gstdCnt == |t.groups| && total == Size(t) < ram.Length
    requires behind == WordsBehind(ram, t)
    modifies ram
    ensures conflict == (t.groups != [] && FindSlot(StdRanges(t.groups), lower, upper).Conflict?)
    ensures conflict ==> ram[..] == old(ram[..]) && InRam(ram, t)
    ensures InRam(ram, LoadedStdGroup(t, entry, lower, upper, behind[0]))
    ensures !conflict ==> top == if t.groups == [] then Start(t, 2) else Size(t)
  {
    PartAt(ram[..], t, 2);
    hide Encode, PackHalves, Concat, AddFirstGroup, AddGroupAt, InsertWords, StdRanges, FindSlot;
    conflict, top := false, 0;
    if gstdCnt == 0 {
      FirstGroupEncoded(ram[..], t, entry, behind[0]);
      ram[base] := entry;
      top := base;
    } else {
      var cnt1;
      cnt1, conflict := FindGroup(ram, t.groups, base, gstdCnt, lower, upper);
      if !conflict {
        GroupInserted(ram[..], t, cnt1 - base, entry);
        top := InsertWord(ram, cnt1, entry, total);
      }
    }
  }

  lemma OddWordsBehind(t: Table, k: nat, n: nat)
    requires k <= |t.extGroups| && |t.objects| == 3 * |t.fullCan| && n == Size(t) - Start(t, 4) - 2 * k
    ensures n % 2 == |t.fullCan| % 2
    ensures (n + |t.fullCan| % 2) % 2 == 0
  {
    assert n == 2 * (|t.extGroups| - k + |t.fullCan|) + |t.fullCan|;
  }

  // lpc17xx_can.c:987-991
  method WriteFirstExtGroup(ram: array<Word>, ghost t: Table, base: nat, entry: ExtGroup, ghost after: seq<Word>)
    requires InRam(ram, t) && base == Start(t, 4) && t.extGroups == [] && Size(t) + 2 <= ram.Length
    requires ram[..][Size(t)..Size(t) + 2] == after
    modifies ram
    ensures InRam(ram, AddFirstExtGroup(t, entry, after))
  {
    FirstExtGroupEncoded(ram[..], t, entry, after);
    hide Encode, AddFirstExtGroup;
    ram[base] := entry.lower;
    ram[base + 1] := entry.upper;
  }

  // Moving words two at a time goes two words behind the table, or three.
  function PairReach(t: Table): nat { Size(t) + 1 + |t.fullCan| % 2 }

  // The memory after an extended group is inserted at place k.
  function PairLoaded(s: seq<Word>, t: Table, k: nat, g: ExtGroup): (r: seq<Word>)
    requires k <= |t.extGroups| && PairReach(t) < |s|
    ensures |r| == |s|
  {
    InsertWords(s, Start(t, 4) + 2 * k, [g.lower, g.upper], Size(t) + |t.fullCan| % 2)
  }

  // lpc17xx_can.c:1018-1039 : an odd number of words behind the insertion point moves one word more.
  method InsertExtGroup(ram: array<Word>, ghost t: Table, ghost k: nat, cnt1: nat, entry: ExtGroup, total: nat)
    returns (ghost top: nat)
    requires InRam(ram, t) && k <= |t.extGroups| && |t.objects| == 3 * |t.fullCan|
    requires cnt1 == Start(t, 4) + 2 * k && Start(t, 4) + 2 * |t.extGroups| <= total
    requires total == Size(t) && PairReach(t) < ram.Length
    modifies ram
    ensures InRam(ram, AddExtGroupAt(t, k, entry))
    ensures ram[..] == PairLoaded(old(ram[..]), t, k, entry)
    ensures top == PairReach(t)
  {
    hide Encode, InsertWords, AddExtGroupAt, Start, Size, PairLoaded, PairReach;
    PairInserted(ram[..], t, k, entry);
    top := OpenPair(ram, cnt1, total - cnt1, entry.lower, entry.upper, total + |t.fullCan| % 2);
  }

  lemma PairInserted(s: seq<Word>, t: Table, k: nat, g: ExtGroup)
    requires Encode(t) <= s && k <= |t.extGroups| && |t.objects| == 3 * |t.fullCan| && PairReach(t) < |s|
    ensures var at, stop := Start(t, 4) + 2 * k, Size(t) + |t.fullCan| % 2;
            && at <= Size(t) && (stop - at) % 2 == 0 && PairReach(t) == stop + 1
            && PairLoaded(s, t, k, g) == InsertWords(s, at, [g.lower, g.upper], stop)
    ensures Encode(AddExtGroupAt(t, k, g)) <= PairLoaded(s, t, k, g)
  {
    hide Encode, InsertWords, AddExtGroupAt, Halfwords;
    var stop := Size(t) + |t.fullCan| % 2;
    OddWordsBehind(t, k, Size(t) - Start(t, 4) - 2 * k);
    assert Start(t, 4) + 2 * |t.extGroups| <= Size(t);
    hide Start, Size;
    ExtGroupInserted(s, t, k, g, stop);
  }

  // lpc17xx_can.c:985-1040
  method LoadExtGroup(ram: array<Word>, ghost t: Table, base: nat, gextCnt: nat, entry: ExtGroup,
                      lower: nat, upper: nat, total: nat, ghost behind: seq<Word>)
    returns (conflict: bool, ghost top: nat)
    requires InRam(ram, t) && base == Start(t, 4) && gextCnt == |t.extGroups| && |t.objects| == 3 * |t.fullCan|
    requires total == Size(t) && total + 2 <= ram.Length && behind == WordsBehind(ram, t)
    requires t.extGroups != [] && FindSlot(ExtRanges(t.extGroups), lower, upper).At? ==> PairReach(t) < ram.Length
    modifies ram
    ensures conflict == (t.extGroups != [] && FindSlot(ExtRanges(t.extGroups), lower, upper).Conflict?)
    ensures conflict ==> ram[..] == old(ram[..]) && InRam(ram, t)
    ensures InRam(ram, LoadedExtGroup(t, entry, lower, upper, behind[..2]))
    ensures !conflict ==> top == if t.extGroups == [] then Start(t, 4) + 1 else PairReach(t)
    ensures !conflict && t.extGroups != [] ==>
              ram[..] == PairLoaded(old(ram[..]), t, FindSlot(ExtRanges(t.extGroups), lower, upper).index, entry)
  {
    hide Encode, PackHalves, Concat, AddFirstExtGroup, AddExtGroupAt, InsertWords, ExtRanges, FindSlot, Flatten,
        PairLoaded;
    PartAt(ram[..], t, 4);
    assert Start(t, 4) + 2 * |t.extGroups| <= total && ram[base..base + 2 * gextCnt] == Flatten(t.extGroups);
    hide Parts, Start, Size, Halfwords, PairReach;
    conflict, top := false, 0;
    if gextCnt == 0 {
      WriteFirstExtGroup(ram, t, base, entry, behind[..2]);
      top := base + 1;
    } else {
      var cnt1;
      ghost var k;
      cnt1, conflict, k := FindExtGroup(ram, t.extGroups, base, gextCnt, lower, upper);
      if !conflict {
        top := InsertExtGroup(ram, t, k, cnt1, entry, total);
      }
    }
  }

  // ---------- removal ----------

  // lpc17xx_can.c:1086-1129 and 1164-1207 : position `position` of the n-entry halfword section that
  // is part i and starts at word base; `end` is the end of everything in use.
  method RemoveFromHalves(ram: array<Word>, ghost t: Table, ghost t': Table, ghost i: nat, ghost hs: seq<Half>,
                          base: nat, n: nat, position: nat, end: nat)
    requires InRam(ram, t) && i < 6 && |hs| == n && Parts(t)[i] == PackHalves(hs)
    requires position < n && base == Start(t, i) && end == Size(t)
    requires Parts(t') == Parts(t)[i := PackHalves(RemoveHalf(hs, position))]
    modifies ram
    ensures InRam(ram, t')
  {
    hide Encode, Parts, PackHalves, RemoveHalf, Start, Size, MoveDown, Repacked;
    ghost var s := ram[..];
    HalvesThere(s, t, i, hs);
    RepackWithout(ram, hs, base, n, position);
    HalvesShrunk(s, ram[..], t, t', i, hs, position, base, n / 2, n % 2);
    if n % 2 == 1 {
      CloseGap(ram, base + n / 2, end);
    }
  }

  lemma HalvesThere(s: seq<Word>, t: Table, i: nat, hs: seq<Half>)
    requires Encode(t) <= s && i < 6 && Parts(t)[i] == PackHalves(hs)
    ensures Start(t, i) + (|hs| + 1) / 2 <= |s| && s[Start(t, i)..Start(t, i) + (|hs| + 1) / 2] == PackHalves(hs)
  {
    PartAt(s, t, i);
  }

  lemma HalvesShrunk(s: seq<Word>, s1: seq<Word>, t: Table, t': Table, i: nat, hs: seq<Half>, p: nat, b: nat, m: nat,
      odd: nat)
    requires Encode(t) <= s && i < 6 && Parts(t)[i] == PackHalves(hs) && p < |hs| == 2 * m + odd && odd <= 1
    requires b == Start(t, i) && Repacked(s, s1, b, hs, p)
    requires Parts(t') == Parts(t)[i := PackHalves(RemoveHalf(hs, p))]
    ensures odd == 0 ==> Encode(t') <= s1
    ensures odd == 1 ==>
              b + m < Size(t) <= |s1| && Encode(t') <= MoveDown(s1, b + m, 1, Size(t) - b - m - 1)[Size(t) - 1 := ZERO]
  {
    hide Encode, Parts, PackHalves, RemoveHalf, Start, Size, MoveDown, Repacked;
    var left := PackHalves(RemoveHalf(hs, p));
    RepackedIs(s, s1, b, hs, p, m, odd);
    PartAt(s, t, i);
    PartShrunk(s, s1, t, t', i, left);
  }

  lemma RepackedIs(s: seq<Word>, s1: seq<Word>, b: nat, hs: seq<Half>, p: nat, m: nat, odd: nat)
    requires p < |hs| == 2 * m + odd && odd <= 1 && Repacked(s, s1, b, hs, p)
    ensures |PackHalves(RemoveHalf(hs, p))| == m && |PackHalves(hs)| == m + odd && b + m + odd <= |s| == |s1|
    ensures s1[..b] == s[..b] && s1[b..b + m] == PackHalves(RemoveHalf(hs, p)) && s1[b + m + odd..] == s[b + m + odd..]
  {
    assert (|hs| + 1) / 2 == m + odd && |hs| / 2 == m && |RemoveHalf(hs, p)| == |hs| - 1;
    hide PackHalves, RemoveHalf;
  }

  method RemoveStdEntry(ram: array<Word>, ghost t: Table, base: nat, stdCnt: nat, position: nat, end: nat)
    requires InRam(ram, t) && base == Start(t, 1) && stdCnt == |t.std| && position < stdCnt && end == Size(t)
    modifies ram
    ensures InRam(ram, RemoveStd(t, position))
  {
    assert Parts(RemoveStd(t, position)) == Parts(t)[1 := PackHalves(RemoveHalf(t.std, position))];
    RemoveFromHalves(ram, t, RemoveStd(t, position), 1, t.std, base, stdCnt, position, end);
  }

  // lpc17xx_can.c:1086-1152 : idTotal is the size of the identifier sections before the removal.
  method RemoveFullCanEntry(ram: array<Word>, ghost t: Table, fullCnt: nat, position: nat, idTotal: nat)
    returns (ghost top: nat)
    requires InRam(ram, t) && fullCnt == |t.fullCan| && |t.objects| == 3 * fullCnt && position < fullCnt
    requires idTotal == IdSize(t) && Size(t) + 2 < ram.Length
    modifies ram
    ensures InRam(ram, RemoveFullCan(t, position))
    ensures top == Size(t) + 2
  {
    assert Size(t) == idTotal + 3 * fullCnt;
    hide Encode, MoveDown, CloseObjectAt, RemoveFullCan, RemoveFullCanId, IdSize, Size, Halfwords;
    RemoveFullCanIdEntry(ram, t, fullCnt, position, idTotal + fullCnt * 3);
    top := CloseFullCanObject(ram, t, fullCnt, position, idTotal);
  }

  // lpc17xx_can.c:1139-1151
  method CloseFullCanObject(ram: array<Word>, ghost t: Table, fullCnt: nat, position: nat, idTotal: nat)
    returns (ghost top: nat)
    requires fullCnt == |t.fullCan| && |t.objects| == 3 * fullCnt && position < fullCnt
    requires InRam(ram, RemoveFullCanId(t, position)) && idTotal == IdSize(t) && Size(t) + 2 < ram.Length
    modifies ram
    ensures InRam(ram, RemoveFullCan(t, position))
    ensures top == Size(t) + 2
  {
    assert Size(t) == idTotal + 3 * fullCnt;
    hide Encode, MoveDown, CloseObjectAt, RemoveFullCan, RemoveFullCanId, IdSize, Size, Halfwords;
    ObjectRemoval(ram[..], t, RemoveFullCanId(t, position), position);
    top := MoveDownObjects(ram, idTotal + position * 3, fullCnt - position);
  }

  // lpc17xx_can.c:1086-1136
  method RemoveFullCanIdEntry(ram: array<Word>, ghost t: Table, fullCnt: nat, position: nat, end: nat)
    requires InRam(ram, t) && fullCnt == |t.fullCan| && position < fullCnt && end == Size(t)
    modifies ram
    ensures InRam(ram, RemoveFullCanId(t, position))
  {
    ghost var t1 := RemoveFullCanId(t, position);
    assert Parts(t1) == Parts(t)[0 := PackHalves(RemoveHalf(t.fullCan, position))];
    RemoveFromHalves(ram, t, t1, 0, t.fullCan, 0, fullCnt, position, end);
  }

  lemma ObjectRemoval(s: seq<Word>, t: Table, t1: Table, p: nat)
    requires p < |t.fullCan| && |t.objects| == 3 * |t.fullCan| && t1 == RemoveFullCanId(t, p)
    requires Encode(t1) <= s && Size(t) + 3 <= |s|
    ensures Encode(RemoveFullCan(t, p)) <= MoveDown(s, IdSize(t) + p * 3, 3, 3 * (|t.fullCan| - p))
  {
    var at := 3 * p + |t.fullCan| % 2;
    assert Start(t1, 5) + at == IdSize(t) + p * 3;
    hide MoveDown, CloseObjectAt, Encode;
    ObjectClosed(s, t1, at, 3 * (|t.fullCan| - p));
  }

  // lpc17xx_can.c:1227-1234
  method RemoveGroupEntry(ram: array<Word>, ghost t: Table, base: nat, position: nat, end: nat)
    requires InRam(ram, t) && base == Start(t, 2) && position < |t.groups| && end == Size(t)
    modifies ram
    ensures InRam(ram, t.(groups := RemoveAt(t.groups, position)))
  {
    WordRemoved(ram[..], t, t.(groups := RemoveAt(t.groups, position)), 2, position);
    hide Encode, MoveDown, Start, Size;
    CloseGap(ram, base + position, end);
  }

  // lpc17xx_can.c:1252-1259
  method RemoveExtEntry(ram: array<Word>, ghost t: Table, base: nat, position: nat, end: nat)
    requires InRam(ram, t) && base == Start(t, 3) && position < |t.ext| && end == Size(t)
    modifies ram
    ensures InRam(ram, t.(ext := RemoveAt(t.ext, position)))
  {
    WordRemoved(ram[..], t, t.(ext := RemoveAt(t.ext, position)), 3, position);
    hide Encode, MoveDown, Start, Size;
    CloseGap(ram, base + position, end);
  }

  // One word taken out of part i, and the word freed at the end cleared.
  lemma WordRemoved(s: seq<Word>, t: Table, t': Table, i: nat, k: nat)
    requires Encode(t) <= s && i < 6 && k < |Parts(t)[i]|
    requires Parts(t') == Parts(t)[i := Parts(t)[i][..k] + Parts(t)[i][k + 1..]] && Size(t') == Size(t) - 1
    ensures Start(t, i) + k < Size(t) <= |s|
    ensures Encode(t') <= MoveDown(s, Start(t, i) + k, 1, Size(t) - Start(t, i) - k - 1)[Size(t) - 1 := ZERO]
  {
    PartAt(s, t, i);
    hide Parts, Encode, MoveDown;
    PartRemoved(s, t, t', i, k, 1, Size(t) - Start(t, i) - k - 1);
    StartIs(t', i);
  }

  // lpc17xx_can.c:1275-1283 : reads two words behind the last one in use, or three.
  method RemoveExtGroupEntry(ram: array<Word>, ghost t: Table, base: nat, position: nat, end: nat)
      returns (ghost top: nat)
    requires InRam(ram, t) && base == Start(t, 4) && position < |t.extGroups| && end == Size(t)
    requires |t.objects| == 3 * |t.fullCan| && PairReach(t) < ram.Length
    modifies ram
    ensures InRam(ram, t.(extGroups := RemoveAt(t.extGroups, position)))
    ensures top == PairReach(t)
  {
    ghost var stop := end + |t.fullCan| % 2;
    ExtGroupRemoved(ram[..], t, position, stop);
    hide Encode, MoveDown, RemoveAt, Start, Size;
    top := MoveDownPairs(ram, base + 2 * position, end, stop);
  }

  lemma ExtGroupRemoved(s: seq<Word>, t: Table, p: nat, stop: nat)
    requires Encode(t) <= s && p < |t.extGroups| && |t.objects| == 3 * |t.fullCan|
    requires stop == Size(t) + |t.fullCan| % 2 && stop + 2 <= |s|
    ensures Start(t, 4) + 2 * p + 2 <= Size(t) && (stop - Start(t, 4) - 2 * p) % 2 == 0
    ensures Encode(t.(extGroups := RemoveAt(t.extGroups, p)))
        <= MoveDown(s, Start(t, 4) + 2 * p, 2, stop - Start(t, 4) - 2 * p)
  {
    hide Flatten, RemoveAt, MoveDown, Encode, Start, Size, Parts;
    PartAt(s, t, 4);
    ExtPartsWithout(t, p);
    OddWordsBehind(t, p, Size(t) - Start(t, 4) - 2 * p);
    PartRemoved(s, t, t.(extGroups := RemoveAt(t.extGroups, p)), 4, 2 * p, 2, stop - Start(t, 4) - 2 * p);
  }

  lemma ExtPartsWithout(t: Table, p: nat)
    requires p < |t.extGroups|
    ensures |Parts(t)[4]| == 2 * |t.extGroups|
    ensures Parts(t.(extGroups := RemoveAt(t.extGroups, p)))
        == Parts(t)[4 := Parts(t)[4][..2 * p] + Parts(t)[4][2 * p + 2..]]
  {
    FlattenRemove(t.extGroups, p);
    hide Flatten, RemoveAt, PackHalves;
  }
}

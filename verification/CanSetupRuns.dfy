/**
  What the set-up of CanSetup means: which lists its order check lets through, what it leaves in RAM
  for any lists, and when the table it leaves is one the loads and removals of CanRuns keep in order.
 */
module CanSetupRuns {
  import opened CanWords
  import opened CanTable
  import opened CanRam
  import opened CanCalls
  import opened CanSetup
  import opened CanRuns

  // ---------- what the order check means ----------

  lemma KeyOfHalf(d: StdDef)
    ensures HalfKey(DefHalf(d, 0), 0x1000) == d.id
    ensures HalfKey(DefHalf(d, 0x800), 0x400) == d.id % 0x400
  {}

  lemma KeyOfWord(d: ExtDef)
    ensures WordKey(DefWord(d)) == d.id % 0x1000_0000
  {
    var c, w := d.ctrl.Number(), DefWord(d);
    assert w.Value() == c * 0x2000_0000 + d.id;
    if d.id < 0x1000_0000 {
      assert w.Value() == (2 * c) * 0x1000_0000 + d.id;
    } else {
      assert w.Value() == (2 * c + 1) * 0x1000_0000 + (d.id - 0x1000_0000);
    }
  }

  lemma {:induction false} AdjacentAscends(ids: seq<nat>, i: nat, j: nat)
    requires forall k :: 0 < k < |ids| ==> ids[k - 1] <= ids[k]
    requires i <= j < |ids|
    ensures ids[i] <= ids[j]
  {
    if i < j {
      AdjacentAscends(ids, i, j - 1);
    }
  }

  // Identifiers cut down to a compare mask.
  function Cut(ids: seq<nat>, mask: nat): (ks: seq<nat>)
    requires mask > 0
    ensures |ks| == |ids|
  {
    seq(|ids|, i requires 0 <= i < |ids| => ids[i] % mask)
  }

  // ---------- lists under a compare mask ----------

  // The check asks for ascending identifiers as long as the mask cuts none but the last, which is
  // never read back.
  lemma OrderIff(ids: seq<nat>, mask: nat)
    requires mask > 0 && forall k :: 0 <= k < |ids| - 1 ==> ids[k] < mask
    ensures InOrder(Cut(ids, mask), ids, |ids|) <==> Ascending(ids)
  {
    assert forall k :: 0 <= k < |ids| - 1 ==> Cut(ids, mask)[k] == ids[k];
    if InOrder(Cut(ids, mask), ids, |ids|) {
      forall i, j | 0 <= i < j < |ids| ensures ids[i] <= ids[j] {
        AdjacentAscends(ids, i, j);
      }
    }
  }

  lemma CutBelow(x: nat, mask: nat)
    requires mask > 0
    ensures x % mask <= x
  {}

  // Ascending lists always pass.
  lemma AscendingPasses(ids: seq<nat>, mask: nat)
    requires mask > 0 && Ascending(ids)
    ensures InOrder(Cut(ids, mask), ids, |ids|)
  {
    forall k | 0 < k < |ids| ensures Cut(ids, mask)[k - 1] <= ids[k] {
      CutBelow(ids[k - 1], mask);
    }
  }

  // The check judges x before y rightly.
  predicate JudgedRight(x: nat, y: nat, mask: nat)
    requires mask > 0
  {
    InOrder(Cut([x, y], mask), [x, y], 2) <==> Ascending([x, y])
  }

  /** An identifier is judged rightly before every other one exactly when it is below the mask. */
  lemma JudgedRightIff(x: nat, mask: nat)
    requires mask > 0
    ensures (forall y: nat :: JudgedRight(x, y, mask)) <==> x < mask
  {
    if x < mask {
      forall y: nat ensures JudgedRight(x, y, mask) {
        OrderIff([x, y], mask);
      }
    } else {
      var y := x % mask;
      assert y < x;
      assert Cut([x, y], mask)[0] <= [x, y][1] && [x, y][0] > [x, y][1];
      assert !JudgedRight(x, y, mask);
    }
  }

  /** The standard mask never cuts: a standard list passes exactly when its identifiers ascend. */
  lemma StdOrderIff(ds: seq<StdDef>)
    ensures HalfKeys(DefHalves(ds, 0), 0x1000) == Cut(DefIds(ds), 0x1000)
    ensures InOrder(HalfKeys(DefHalves(ds, 0), 0x1000), DefIds(ds), |ds|) <==> Ascending(DefIds(ds))
  {
    forall k | 0 <= k < |ds| ensures HalfKeys(DefHalves(ds, 0), 0x1000)[k] == Cut(DefIds(ds), 0x1000)[k] {
      KeyOfHalf(ds[k]);
    }
    hide HalfKeys, DefHalves;
    OrderIff(DefIds(ds), 0x1000);
  }

  /**
    The FullCAN mask has ten bits of the eleven: ascending lists pass, and only those as long as every
    identifier but the last is inside the mask.  JudgedRightIff says that no identifier outside is safe.
   */
  lemma FullCanOrderIff(ds: seq<StdDef>)
    ensures HalfKeys(DefHalves(ds, 0x800), 0x400) == Cut(DefIds(ds), 0x400)
    ensures Ascending(DefIds(ds)) ==> InOrder(HalfKeys(DefHalves(ds, 0x800), 0x400), DefIds(ds), |ds|)
    ensures (forall k :: 0 <= k < |ds| - 1 ==> ds[k].id < 0x400) ==>
              (InOrder(HalfKeys(DefHalves(ds, 0x800), 0x400), DefIds(ds), |ds|) <==> Ascending(DefIds(ds)))
  {
    forall k | 0 <= k < |ds| ensures HalfKeys(DefHalves(ds, 0x800), 0x400)[k] == Cut(DefIds(ds), 0x400)[k] {
      KeyOfHalf(ds[k]);
    }
    hide HalfKeys, DefHalves;
    if Ascending(DefIds(ds)) {
      AscendingPasses(DefIds(ds), 0x400);
    }
    if forall k :: 0 <= k < |ds| - 1 ==> ds[k].id < 0x400 {
      OrderIff(DefIds(ds), 0x400);
    }
  }

  /** The same for the extended list, whose mask has 28 bits of the 29. */
  lemma ExtOrderIff(ds: seq<ExtDef>)
    ensures ExtKeys(DefWords(ds)) == Cut(ExtIds(ds), 0x1000_0000)
    ensures Ascending(ExtIds(ds)) ==> InOrder(ExtKeys(DefWords(ds)), ExtIds(ds), |ds|)
    ensures (forall k :: 0 <= k < |ds| - 1 ==> ds[k].id < 0x1000_0000) ==>
              (InOrder(ExtKeys(DefWords(ds)), ExtIds(ds), |ds|) <==> Ascending(ExtIds(ds)))
  {
    hide WordKey, DefWord;
    forall k | 0 <= k < |ds| ensures ExtKeys(DefWords(ds))[k] == Cut(ExtIds(ds), 0x1000_0000)[k] {
      KeyOfWord(ds[k]);
    }
    if Ascending(ExtIds(ds)) {
      AscendingPasses(ExtIds(ds), 0x1000_0000);
    }
    if forall k :: 0 <= k < |ds| - 1 ==> ds[k].id < 0x1000_0000 {
      OrderIff(ExtIds(ds), 0x1000_0000);
    }
  }

  /** In the group lists the end of each range is compared with the start of the next. */
  lemma GroupOrderIs(ds: seq<GroupDef>)
    ensures forall k :: 0 <= k < |ds| ==> GroupKeys(DefGroups(ds))[k] == ds[k].upper.id
  {
    forall k | 0 <= k < |ds| ensures GroupKeys(DefGroups(ds))[k] == ds[k].upper.id {
      KeyOfHalf(ds[k].upper);
    }
  }

  lemma ExtGroupOrderIs(ds: seq<ExtGroupDef>)
    ensures forall k :: 0 <= k < |ds| ==> ExtGroupKeys(DefExtGroups(ds))[k] == ds[k].upper.id % 0x1000_0000
  {
    hide WordKey, DefWord;
    forall k | 0 <= k < |ds| ensures ExtGroupKeys(DefExtGroups(ds))[k] == ds[k].upper.id % 0x1000_0000 {
      KeyOfWord(ds[k].upper);
    }
  }

  /** Descending lists that the masks let through: FullCAN, extended, and overlapping extended groups. */
  lemma FullCanMaskAdmitsDescent(c: Controller)
    ensures var ds := [StdDef(c, false, 0x400), StdDef(c, false, 0)];
            InOrder(HalfKeys(DefHalves(ds, 0x800), 0x400), DefIds(ds), 2) && !Ascending(DefIds(ds))
  {
    hide HalfKeys, DefHalves;
    var ds := [StdDef(c, false, 0x400), StdDef(c, false, 0)];
    FullCanOrderIff(ds);
    assert DefIds(ds)[0] > DefIds(ds)[1];
  }

  lemma ExtMaskAdmitsDescent(c: Controller)
    ensures var ds := [ExtDef(c, 0x1000_0000), ExtDef(c, 0)];
            InOrder(ExtKeys(DefWords(ds)), ExtIds(ds), 2) && !Ascending(ExtIds(ds))
  {
    hide ExtKeys, DefWords;
    var ds := [ExtDef(c, 0x1000_0000), ExtDef(c, 0)];
    ExtOrderIff(ds);
    assert ExtIds(ds)[0] > ExtIds(ds)[1];
  }

  lemma ExtMaskAdmitsOverlap(c: Controller)
    ensures var ds := [ExtGroupDef(ExtDef(c, 0), ExtDef(c, 0x1000_0000)), ExtGroupDef(ExtDef(c, 0), ExtDef(c, 0))];
            InOrder(ExtGroupKeys(DefExtGroups(ds)), ExtGroupIds(ds), 2) && ds[0].upper.id > ds[1].lower.id
  {
    hide ExtGroupKeys, DefExtGroups;
    ExtGroupOrderIs([ExtGroupDef(ExtDef(c, 0), ExtDef(c, 0x1000_0000)), ExtGroupDef(ExtDef(c, 0), ExtDef(c, 0))]);
  }

  // ---------- the order the loads rely on ----------

  function Owner(d: StdDef): nat { 2 * d.ctrl.Number() + if d.disable then 1 else 0 }

  // By controller, then disable bit, then identifier.
  predicate UpTo(a: StdDef, b: StdDef) {
    Owner(a) < Owner(b) || (Owner(a) == Owner(b) && a.id <= b.id)
  }

  predicate ExtUpTo(a: ExtDef, b: ExtDef) {
    a.ctrl.Number() < b.ctrl.Number() || (a.ctrl == b.ctrl && a.id <= b.id)
  }

  predicate Sorted(ds: seq<StdDef>) { forall i, j :: 0 <= i < j < |ds| ==> UpTo(ds[i], ds[j]) }

  predicate ExtSorted(ds: seq<ExtDef>) { forall i, j :: 0 <= i < j < |ds| ==> ExtUpTo(ds[i], ds[j]) }

  lemma HalfUpTo(a: StdDef, b: StdDef, flag: Half)
    requires flag == 0 || flag == 0x800
    ensures DefHalf(a, flag) <= DefHalf(b, flag) <==> UpTo(a, b)
  {}

  lemma WordUpTo(a: ExtDef, b: ExtDef)
    ensures DefWord(a).Value() <= DefWord(b).Value() <==> ExtUpTo(a, b)
  {}

  /** The packed entries ascend, as the loads expect, exactly when the list is sorted by controller first. */
  lemma EntriesAscendIff(ds: seq<StdDef>, flag: Half)
    requires flag == 0 || flag == 0x800
    ensures Ascending(DefHalves(ds, flag)) <==> Sorted(ds)
  {
    forall i, j | 0 <= i < j < |ds| ensures DefHalves(ds, flag)[i] <= DefHalves(ds, flag)[j] <==> UpTo(ds[i], ds[j]) {
      HalfUpTo(ds[i], ds[j], flag);
    }
  }

  lemma ExtEntriesAscendIff(ds: seq<ExtDef>)
    ensures Ascending(Values(DefWords(ds))) <==> ExtSorted(ds)
  {
    hide DefWord;
    forall i, j | 0 <= i < j < |ds| ensures Values(DefWords(ds))[i] <= Values(DefWords(ds))[j]
        <==> ExtUpTo(ds[i], ds[j]) {
      WordUpTo(ds[i], ds[j]);
    }
  }

  /**
    The set-up compares identifiers alone.  A standard list it lets through leaves a section the loads
    find sorted exactly when no entry of one controller and disable bit follows one of a higher.
   */
  lemma SetupOrderIsLoadOrderIff(ds: seq<StdDef>)
    requires InOrder(HalfKeys(DefHalves(ds, 0), 0x1000), DefIds(ds), |ds|)
    ensures Ascending(DefHalves(ds, 0)) <==> forall i, j :: 0 <= i < j < |ds| ==> Owner(ds[i]) <= Owner(ds[j])
  {
    StdOrderIff(ds);
    EntriesAscendIff(ds, 0);
    hide HalfKeys, DefHalves, Owner;
    assert forall i, j :: 0 <= i < j < |ds| ==> DefIds(ds)[i] <= DefIds(ds)[j];
    forall i, j | 0 <= i < j < |ds| ensures UpTo(ds[i], ds[j]) <==> Owner(ds[i]) <= Owner(ds[j]) {
      assert DefIds(ds)[i] <= DefIds(ds)[j];
    }
  }

  /** A list the set-up accepts and the loads then find unsorted. */
  lemma SetupOrderIsNotLoadOrder()
    ensures var ds := [StdDef(Can2, false, 1), StdDef(Can1, false, 2)];
            InOrder(HalfKeys(DefHalves(ds, 0), 0x1000), DefIds(ds), 2) && !Ascending(DefHalves(ds, 0))
  {
    var ds := [StdDef(Can2, false, 1), StdDef(Can1, false, 2)];
    StdOrderIff(ds);
    assert DefHalves(ds, 0)[0] > DefHalves(ds, 0)[1];
  }

  // ---------- what the set-up lays out ----------

  // Whole words from the start of RAM on, and at most one more of which only the high half was written.
  datatype Laid = Laid(full: seq<Word>, part: seq<Word>) {
    function Words(): seq<Word> { full + part }
  }

  // The even part of a halfword list fills words; an odd last entry leaves half a word, which the next
  // section starts in.
  function HalvesLaid(a: Laid, hs: seq<Half>): Laid {
    Laid(a.full + PackHalves(hs[..|hs| - |hs| % 2]),
         if |hs| % 2 == 1 then [Word(hs[|hs| - 1], 0)] else if hs == [] then a.part else [])
  }

  function WordsLaid(a: Laid, ws: seq<Word>): Laid {
    Laid(a.full + ws, if ws == [] then a.part else [])
  }

  function LaidHalves(l: Lists): Laid {
    HalvesLaid(HalvesLaid(Laid([], []), DefHalves(l.FullCan(), 0x800)), DefHalves(l.std, 0))
  }

  // The words of the sections behind the halfword sections.
  function Behind(l: Lists): seq<Word> {
    DefGroups(l.groups) + DefWords(l.ext) + Flatten(DefExtGroups(l.extGroups))
  }

  function LaidOut(l: Lists): Laid { WordsLaid(LaidHalves(l), Behind(l)) }

  ghost predicate Cleared(was: seq<Word>) {
    RAM_WORDS <= |was| && forall j :: 0 <= j < RAM_WORDS ==> was[j] == ZERO
  }

  // At most one half-filled word, whose low half is clear, and all inside RAM.
  predicate Fitting(a: Laid) {
    |a.part| <= 1 && |a.full| + |a.part| <= RAM_WORDS && (a.part != [] ==> a.part[0].lo == 0)
  }

  lemma HalvesLaidOn(was: seq<Word>, a: Laid, hs: seq<Half>)
    requires Cleared(was) && Fitting(a) && Fitting(HalvesLaid(a, hs))
    ensures StoreHalves(Overwrite(was, 0, a.Words()), |a.full|, hs, |hs|)
        == Overwrite(was, 0, HalvesLaid(a, hs).Words())
  {
    var before, after := Overwrite(was, 0, a.Words()), Overwrite(was, 0, HalvesLaid(a, hs).Words());
    forall j | 0 <= j < |was| ensures StoredWord(before, |a.full|, hs, |hs|, j) == after[j] {
      HalvesLaidAt(was, a, hs, j);
    }
    hide Overwrite, HalvesLaid, StoredWord;
  }

  lemma HalvesLaidAt(was: seq<Word>, a: Laid, hs: seq<Half>, j: nat)
    requires Cleared(was) && Fitting(a) && Fitting(HalvesLaid(a, hs)) && j < |was|
    ensures StoredWord(Overwrite(was, 0, a.Words()), |a.full|, hs, |hs|, j)
        == Overwrite(was, 0, HalvesLaid(a, hs).Words())[j]
  {
    var b := HalvesLaid(a, hs);
    var base, m, odd := |a.full|, |hs| / 2, |hs| % 2;
    assert |b.full| == base + m;
    if base <= j < base + m {
      PackedPair(hs, j - base);
      hide PackHalves;
      assert b.full[j] == PackHalves(hs[..|hs| - odd])[j - base];
    } else if j == base + m && odd == 1 {
      assert Overwrite(was, 0, a.Words())[j].lo == 0;
      assert Overwrite(was, 0, b.Words())[j] == b.part[0];
    }
  }

  lemma PackedPair(hs: seq<Half>, k: nat)
    requires k < |hs| / 2
    ensures PackHalves(hs[..|hs| - |hs| % 2])[k] == Word(hs[2 * k], hs[2 * k + 1])
  {}

  lemma WordsLaidOn(was: seq<Word>, a: Laid, ws: seq<Word>)
    requires Cleared(was) && Fitting(a) && Fitting(WordsLaid(a, ws))
    ensures Overwrite(Overwrite(was, 0, a.Words()), |a.full|, ws) == Overwrite(was, 0, WordsLaid(a, ws).Words())
  {
    var before, b := Overwrite(was, 0, a.Words()), WordsLaid(a, ws);
    var after := Overwrite(was, 0, b.Words());
    forall j | 0 <= j < |was| ensures after[j] == Overwrite(before, |a.full|, ws)[j] {
      if j < |a.full| {
        assert after[j] == a.full[j] == before[j];
      } else if |a.full| + |ws| <= j {
        assert ws != [] ==> after[j] == was[j];
      }
    }
  }

  // Room for five lists as the driver counts: 64 words of FullCAN entries and 512 words in all, where an
  // odd standard entry takes a word of its own only while it is the last.
  predicate Counted(f: nat, s: nat, g: nat, e: nat, x: nat) {
    f <= 128 && f / 2 + s / 2 + s % 2 <= 512 && f / 2 + s / 2 + g + e + 2 * x <= 512
  }

  lemma AcceptableFits(l: Lists)
    requires Acceptable(l)
    ensures Within(l, Whole(l)) && Counted(|l.FullCan()|, |l.std|, |l.groups|, |l.ext|, |l.extGroups|)
  {
    hide InOrder;
    var n := Whole(l);
    assert SectionStopped(l, 0, n, Ok) && SectionStopped(l, 1, n, Ok) && SectionStopped(l, 2, n, Ok);
    assert SectionStopped(l, 3, n, Ok) && SectionStopped(l, 4, n, Ok);
  }

  lemma HalvesFitting(a: Laid, hs: seq<Half>)
    requires Fitting(a) && |a.full| + |hs| / 2 + |hs| % 2 <= RAM_WORDS
    ensures Fitting(HalvesLaid(a, hs)) && |HalvesLaid(a, hs).full| == |a.full| + |hs| / 2
  {}

  lemma WordsLaidTwice(a: Laid, x: seq<Word>, y: seq<Word>)
    ensures WordsLaid(WordsLaid(a, x), y) == WordsLaid(a, x + y)
  {
    assert a.full + x + y == a.full + (x + y);
  }

  /** For any acceptable lists, on a cleared RAM: every word the set-up leaves. */
  lemma SetUpLays(was: seq<Word>, l: Lists)
    requires Cleared(was) && Acceptable(l)
    ensures Within(l, Whole(l)) && Fitting(LaidOut(l))
    ensures Filled(was, l, Whole(l), 5) == Overwrite(was, 0, LaidOut(l).Words())
  {
    hide Acceptable, DefHalves, DefGroups, DefWords, DefExtGroups, Flatten, Filled, StoreHalves, Overwrite, HalvesLaid,
        Fitting;
    AcceptableFits(l);
    FilledInTurn(was, l);
    var fc, st, n := DefHalves(l.FullCan(), 0x800), DefHalves(l.std, 0), Whole(l);
    HalvesLaidTwice(was, fc, st);
    BehindLaid(was, LaidHalves(l), DefGroups(l.groups), DefWords(l.ext), Flatten(DefExtGroups(l.extGroups)));
  }

  lemma HalvesLaidTwice(was: seq<Word>, fc: seq<Half>, st: seq<Half>)
    requires Cleared(was) && |fc| <= 128 && |fc| / 2 + |st| / 2 + |st| % 2 <= RAM_WORDS
    ensures var a := HalvesLaid(HalvesLaid(Laid([], []), fc), st);
            && Fitting(a) && |a.full| == |fc| / 2 + |st| / 2
            && StoreHalves(StoreHalves(was, 0, fc, |fc|), |fc| / 2, st, |st|) == Overwrite(was, 0, a.Words())
  {
    hide StoreHalves, Overwrite;
    var a0 := Laid([], []);
    var a1 := HalvesLaid(a0, fc);
    HalvesFitting(a0, fc);
    HalvesFitting(a1, st);
    OverwriteEmpty(was);
    hide HalvesLaid;
    HalvesLaidOn(was, a0, fc);
    HalvesLaidOn(was, a1, st);
  }

  lemma OverwriteEmpty(was: seq<Word>)
    ensures Overwrite(was, 0, Laid([], []).Words()) == was
  {}

  lemma BehindLaid(was: seq<Word>, a: Laid, gs: seq<Word>, ex: seq<Word>, xg: seq<Word>)
    requires Cleared(was) && Fitting(a) && |a.full| + |gs| + |ex| + |xg| <= RAM_WORDS
    ensures Fitting(WordsLaid(a, gs + ex + xg))
    ensures Overwrite(Overwrite(Overwrite(Overwrite(was, 0, a.Words()), |a.full|, gs), |a.full| + |gs|, ex),
        |a.full| + |gs| + |ex|, xg)
         == Overwrite(was, 0, WordsLaid(a, gs + ex + xg).Words())
  {
    hide Overwrite;
    var b := WordsLaid(a, gs);
    var c := WordsLaid(b, ex);
    WordsLaidOn(was, a, gs);
    WordsLaidOn(was, b, ex);
    WordsLaidOn(was, c, xg);
    WordsLaidTwice(a, gs, ex);
    WordsLaidTwice(a, gs + ex, xg);
  }

  // ---------- odd lists ----------

  // Words behind x cannot be both where x pushes them and where they would start without it, with
  // cleared words behind.
  lemma {:induction false} PaddedUpTo(x: seq<Word>, w: seq<Word>, m: seq<Word>, p: nat)
    requires forall i :: 0 <= i < |x| ==> x[i].lo == PAD
    requires x != [] && x + w <= m && w <= m && p < |x| + |w|
    ensures (x + w)[p].lo == PAD
  {
    if p >= |x| {
      PaddedUpTo(x, w, m, p - |x|);
      assert (x + w)[p] == w[p - |x|] == m[p - |x|] == (x + w)[p - |x|];
    }
  }

  lemma ShiftClash(x: seq<Word>, w: seq<Word>, m: seq<Word>)
    requires forall i :: 0 <= i < |x| ==> x[i].lo == PAD
    requires x != [] && w <= m && |w| < |m| && m[|w|] == ZERO
    ensures !(x + w <= m)
  {
    if x + w <= m {
      PaddedUpTo(x, w, m, |w|);
    }
  }

  // Bit 11 tells a FullCAN entry from a standard one.
  lemma FlagTells(a: StdDef, b: StdDef)
    ensures DefHalf(a, 0x800) != DefHalf(b, 0)
  {
    assert DefHalf(a, 0x800) % 0x1000 >= 0x800 > DefHalf(b, 0) % 0x1000;
  }

  // The pad words of odd lists, which the driver's set-up never writes.
  function Padded(hs: seq<Half>): (ws: seq<Word>)
    ensures |ws| == |hs| % 2 && forall i :: 0 <= i < |ws| ==> ws[i].lo == PAD
  {
    if |hs| % 2 == 1 then [Word(hs[|hs| - 1], PAD)] else []
  }

  function EvenPart(hs: seq<Half>): (ws: seq<Word>)
    ensures |ws| == |hs| / 2
  {
    PackHalves(hs[..|hs| - |hs| % 2])
  }

  lemma PackedSplits(hs: seq<Half>)
    ensures PackHalves(hs) == EvenPart(hs) + Padded(hs)
  {
    var ws := EvenPart(hs) + Padded(hs);
    assert forall i :: 0 <= i < |ws| ==> ws[i] == PackHalves(hs)[i];
  }

  lemma WordClash(head: seq<Word>, x: seq<Word>, m: seq<Word>)
    requires x != [] && |head| < |m| && m[|head|] != x[0]
    ensures !(head + x <= m)
  {
    assert (head + x)[|head|] == x[0];
  }

  lemma ShiftClashBehind(head: seq<Word>, x: seq<Word>, w: seq<Word>, m: seq<Word>)
    requires forall i :: 0 <= i < |x| ==> x[i].lo == PAD
    requires x != [] && head + w <= m && |head| + |w| < |m| && m[|head| + |w|] == ZERO
    ensures !(head + (x + w) <= m)
  {
    if head + (x + w) <= m {
      var tail := m[|head|..];
      assert w == (head + w)[|head|..] <= tail && x + w == (head + (x + w))[|head|..] <= tail;
      ShiftClash(x, w, tail);
    }
  }

  lemma Regroup(a: seq<Word>, x: seq<Word>, b: seq<Word>, y: seq<Word>, w: seq<Word>)
    ensures a + x + (b + y) + w == a + (x + (b + y + w))
    ensures x == [] || b == [] ==> a + x + (b + y) + w == a + b + (x + y + w)
  {
    if b == [] {
      assert a + b == a && b + y == y;
    }
  }

  lemma LaidForms(fc: seq<Half>, st: seq<Half>, w: seq<Word>)
    ensures var pf, ps, xf, xs := EvenPart(fc), EvenPart(st), Padded(fc), Padded(st);
            var a := WordsLaid(HalvesLaid(HalvesLaid(Laid([], []), fc), st), w);
            && a.full == pf + ps + w
            && (xf != [] ==> xf[0].hi == fc[|fc| - 1]) && (|st| >= 2 ==> ps != [] && ps[0].hi == st[0])
                && (|st| == 1 ==> xs != [])
            && (|st| < 2 ==> ps == []) && (xf == [] <==> |fc| % 2 == 0) && (xs == [] <==> |st| % 2 == 0)
            && a.part == if w != [] then [] else if xs != [] then [Word(xs[0].hi, 0)] else if st == [] && xf != []
                then [Word(xf[0].hi, 0)] else []
  {}

  // The words laid out, and behind them cleared RAM, against the table that the lists describe.
  lemma OddListsClash(fc: seq<Half>, st: seq<Half>, w: seq<Word>, m: seq<Word>)
    requires |fc| % 2 == 1 || |st| % 2 == 1
    requires |fc| > 0 && |st| > 0 ==> fc[|fc| - 1] != st[0]
    requires var a := WordsLaid(HalvesLaid(HalvesLaid(Laid([], []), fc), st), w);
             a.Words() <= m && |a.full| < |m| && (a.part == [] ==> m[|a.full|] == ZERO)
    ensures !(PackHalves(fc) + PackHalves(st) + w <= m)
  {
    hide PackHalves, EvenPart, Padded, HalvesLaid, WordsLaid;
    var pf, ps, xf, xs := EvenPart(fc), EvenPart(st), Padded(fc), Padded(st);
    var a := WordsLaid(HalvesLaid(HalvesLaid(Laid([], []), fc), st), w);
    PackedSplits(fc);
    PackedSplits(st);
    LaidForms(fc, st, w);
    Regroup(pf, xf, ps, xs, w);
    if xf != [] && |st| >= 2 {
      assert a.full[|pf|] == ps[0] && m[|pf|] == a.Words()[|pf|];
      WordClash(pf, xf + (ps + xs + w), m);
    } else if w == [] {
      OnlyHalvesClash(pf, ps, xf, xs, a, m);
    } else {
      ShiftClashBehind(pf + ps, xf + xs, w, m);
    }
  }

  lemma OnlyHalvesClash(pf: seq<Word>, ps: seq<Word>, xf: seq<Word>, xs: seq<Word>, a: Laid, m: seq<Word>)
    requires a.full == pf + ps && a.Words() <= m && (xf != [] ==> ps == []) && xf + xs != []
    requires a.part != [] && a.part[0].lo == 0 && forall i :: 0 <= i < |xf + xs| ==> (xf + xs)[i].lo == PAD
    ensures !(pf + xf + (ps + xs) + [] <= m)
  {
    var head := pf + ps;
    assert m[|head|] == a.Words()[|head|] == a.part[0];
    assert (xf + xs)[0].lo == PAD;
    WordClash(head, xf + xs, m);
    assert pf + xf + (ps + xs) + [] == head + (xf + xs);
  }

  /**
    On a cleared RAM, an accepted set-up leaves RAM starting with the table of its lists exactly when
    both halfword lists have even length.  After an odd one the next section starts in the half-filled
    word, or the pad is missing.
   */
  lemma SetUpIsTableIff(was: seq<Word>, l: Lists)
    requires Cleared(was) && Acceptable(l)
    ensures Within(l, Whole(l))
    ensures Encode(TableOf(l, [])) <= Filled(was, l, Whole(l), 5)[..RAM_WORDS] <==> Even(l)
  {
    AcceptableFits(l);
    if Even(l) {
      hide Acceptable, Encode, Filled, Within, Cleared;
      FilledEncodes(was, l);
      OverwrittenPrefix(was, Encode(TableOf(l, [])));
    } else {
      OddIsNoTable(was, l);
    }
  }

  lemma OverwrittenPrefix(was: seq<Word>, ws: seq<Word>)
    requires |ws| <= RAM_WORDS <= |was|
    ensures ws <= Overwrite(was, 0, ws)[..RAM_WORDS]
  {}

  lemma OddIsNoTable(was: seq<Word>, l: Lists)
    requires Cleared(was) && Acceptable(l) && !Even(l) && Within(l, Whole(l))
    ensures !(Encode(TableOf(l, [])) <= Filled(was, l, Whole(l), 5)[..RAM_WORDS])
  {
    hide Acceptable, Encode, Filled, DefHalves, PackHalves, Flatten, Overwrite, HalvesLaid, WordsLaid, StoreHalves,
        Within, InOrder, IdSize;
    var fc, st := DefHalves(l.FullCan(), 0x800), DefHalves(l.std, 0);
    SetUpLays(was, l);
    EncodedLists(l);
    FlagsDiffer(l);
    LaidLength(l);
    OddSequences(was, fc, st, Behind(l), Encode(TableOf(l, [])));
  }

  lemma FlagsDiffer(l: Lists)
    ensures l.FullCan() != [] && l.std != [] ==>
        DefHalves(l.FullCan(), 0x800)[|l.FullCan()| - 1] != DefHalves(l.std, 0)[0]
  {
    if l.FullCan() != [] && l.std != [] {
      FlagTells(l.FullCan()[|l.FullCan()| - 1], l.std[0]);
    }
  }

  lemma EncodedLists(l: Lists)
    ensures var e := Encode(TableOf(l, []));
            e == PackHalves(DefHalves(l.FullCan(), 0x800)) + PackHalves(DefHalves(l.std, 0)) + Behind(l)
                && |e| == IdSize(TableOf(l, []))
  {
    var t := TableOf(l, []);
    FiveParts(t);
    StartIs(t, 0);
    hide PackHalves, Flatten, DefHalves, DefGroups, DefWords, DefExtGroups, Encode;
    AssociateFive(PackHalves(t.fullCan), PackHalves(t.std), t.groups, t.ext, Flatten(t.extGroups));
  }

  lemma OddSequences(was: seq<Word>, fc: seq<Half>, st: seq<Half>, w: seq<Word>, e: seq<Word>)
    requires Cleared(was) && (|fc| % 2 == 1 || |st| % 2 == 1) && (fc != [] && st != [] ==> fc[|fc| - 1] != st[0])
    requires e == PackHalves(fc) + PackHalves(st) + w
    requires var a := WordsLaid(HalvesLaid(HalvesLaid(Laid([], []), fc), st), w); Fitting(a) && |a.full| < |e|
    ensures var a := WordsLaid(HalvesLaid(HalvesLaid(Laid([], []), fc), st), w);
            !(e <= Overwrite(was, 0, a.Words())[..RAM_WORDS])
  {
    hide PackHalves, HalvesLaid, WordsLaid;
    var a := WordsLaid(HalvesLaid(HalvesLaid(Laid([], []), fc), st), w);
    var m := Overwrite(was, 0, a.Words())[..RAM_WORDS];
    LaidBelow(was, a);
    hide Overwrite;
    if e <= m {
      OddListsClash(fc, st, w, m);
    }
  }

  lemma AssociateFive(a: seq<Word>, b: seq<Word>, c: seq<Word>, d: seq<Word>, e: seq<Word>)
    ensures a + b + c + d + e == a + b + (c + d + e)
  {}

  lemma LaidBelow(was: seq<Word>, a: Laid)
    requires Cleared(was) && Fitting(a)
    ensures a.Words() <= Overwrite(was, 0, a.Words())[..RAM_WORDS]
    ensures |a.full| < RAM_WORDS && a.part == [] ==> Overwrite(was, 0, a.Words())[|a.full|] == ZERO
  {}

  // The table of odd lists is longer than what was laid out.
  lemma LaidLength(l: Lists)
    requires !Even(l)
    ensures |LaidOut(l).full| < IdSize(TableOf(l, []))
  {}

  /** After an odd FullCAN list, whatever RAM held, the first standard entry overwrites the last FullCAN entry. */
  lemma OddFullCanOverwritten(was: seq<Word>, l: Lists, n: Taken)
    requires RAM_WORDS <= |was| && Within(l, n) && n.fullCan % 2 == 1 && n.std > 0 && n.fullCan / 2 < RAM_WORDS
    ensures var now := Filled(was, l, n, 2);
        now[n.fullCan / 2].hi == DefHalf(l.std[0], 0) != DefHalf(l.FullCan()[n.fullCan - 1], 0x800)
  {
    FlagTells(l.FullCan()[n.fullCan - 1], l.std[0]);
  }

  // ---------- runs from a set-up table ----------

  predicate GroupsOrdered(ds: seq<GroupDef>) {
    && (forall i :: 0 <= i < |ds| ==> ds[i].lower.id <= ds[i].upper.id)
    && (forall i, j :: 0 <= i < j < |ds| ==> ds[i].upper.id <= ds[j].lower.id)
  }

  predicate ExtGroupsOrdered(ds: seq<ExtGroupDef>) {
    && (forall i :: 0 <= i < |ds| ==> ds[i].lower.id <= ds[i].upper.id)
    && (forall i, j :: 0 <= i < j < |ds| ==> ds[i].upper.id <= ds[j].lower.id)
  }

  // What the loads and removals ask of lists set up before them.
  predicate Loadable(l: Lists) {
    && Sorted(l.FullCan()) && Sorted(l.std) && ExtSorted(l.ext) && GroupsOrdered(l.groups)
        && ExtGroupsOrdered(l.extGroups)
    && Halfwords(|l.FullCan()|) + Halfwords(|l.std|) + |l.groups| + |l.ext| + 2 * |l.extGroups| + 3 * |l.FullCan()|
        <= RAM_WORDS
  }

  lemma GroupRangeIs(d: GroupDef)
    ensures StdRange(DefGroup(d)) == Range(d.lower.id, d.upper.id)
  {}

  lemma ExtGroupRangeIs(d: ExtGroupDef)
    ensures ExtRange(DefExtGroup(d)) == Range(d.lower.id, d.upper.id)
  {
    var g := DefExtGroup(d);
    Id29Of(d.lower.id, d.lower.ctrl.Number(), g.lower);
    Id29Of(d.upper.id, d.upper.ctrl.Number(), g.upper);
    hide Id29;
  }

  lemma GroupsDisjointIff(ds: seq<GroupDef>)
    ensures Disjoint(StdRanges(DefGroups(ds))) <==> GroupsOrdered(ds)
  {
    hide StdRange, DefGroup;
    forall i | 0 <= i < |ds| ensures StdRanges(DefGroups(ds))[i] == Range(ds[i].lower.id, ds[i].upper.id) {
      GroupRangeIs(ds[i]);
    }
  }

  lemma ExtGroupsDisjointIff(ds: seq<ExtGroupDef>)
    ensures Disjoint(ExtRanges(DefExtGroups(ds))) <==> ExtGroupsOrdered(ds)
  {
    hide ExtRange, DefExtGroup;
    forall i | 0 <= i < |ds| ensures ExtRanges(DefExtGroups(ds))[i] == Range(ds[i].lower.id, ds[i].upper.id) {
      ExtGroupRangeIs(ds[i]);
    }
  }

  /**
    The table of a set-up is well formed exactly when the lists are sorted as the loads sort, the groups
    are ranges in order, and everything fits with its objects.  The set-up checks none of these in full:
    it compares identifiers without their controllers, and not the two ends of a range.
   */
  lemma SetUpWellFormedIff(l: Lists, objects: seq<Word>)
    requires |objects| == 3 * |l.FullCan()|
    ensures WellFormed(TableOf(l, objects)) <==> Loadable(l)
  {
    EntriesAscendIff(l.FullCan(), 0x800);
    EntriesAscendIff(l.std, 0);
    ExtEntriesAscendIff(l.ext);
    GroupsDisjointIff(l.groups);
    ExtGroupsDisjointIff(l.extGroups);
    BelowPad(l.FullCan(), 0x800);
    BelowPad(l.std, 0);
    hide DefHalves, DefWords, DefGroups, DefExtGroups, StdRanges, ExtRanges, Values, Sorted, ExtSorted, GroupsOrdered,
        ExtGroupsOrdered;
  }

  lemma BelowPad(ds: seq<StdDef>, flag: Half)
    requires flag == 0 || flag == 0x800
    ensures forall i :: 0 <= i < |ds| ==> DefHalves(ds, flag)[i] < PAD
  {}

  /** So runs of intended calls keep a table well formed from such a set-up on. */
  lemma RunFromSetUp(l: Lists, objects: seq<Word>, run: seq<Step>)
    requires Loadable(l) && |objects| == 3 * |l.FullCan()| && IntendedRun(TableOf(l, objects), run)
    ensures WellFormed(RunFrom(TableOf(l, objects), run))
  {
    SetUpWellFormedIff(l, objects);
    RunKeepsWellFormed(TableOf(l, objects), run);
  }

  // ---------- what an accepted set of lists leaves to the caller ----------

  // Beside an accepted order check: the owners do not fall, and with one owner the identifiers ascend,
  // which below the mask the check has seen to.
  predicate StepUp(a: StdDef, b: StdDef, mask: nat) {
    Owner(a) < Owner(b) || (Owner(a) == Owner(b) && (a.id < mask || a.id <= b.id))
  }

  predicate StepsUp(ds: seq<StdDef>, mask: nat) { forall k :: 0 < k < |ds| ==> StepUp(ds[k - 1], ds[k], mask) }

  predicate ExtStepUp(a: ExtDef, b: ExtDef) {
    || a.ctrl.Number() < b.ctrl.Number()
    || (a.ctrl == b.ctrl && (a.id < 0x1000_0000 || a.id <= b.id))
  }

  predicate ExtStepsUp(ds: seq<ExtDef>) { forall k :: 0 < k < |ds| ==> ExtStepUp(ds[k - 1], ds[k]) }

  predicate Forward(ds: seq<GroupDef>) { forall i :: 0 <= i < |ds| ==> ds[i].lower.id <= ds[i].upper.id }

  predicate ExtForward(ds: seq<ExtGroupDef>) { forall i :: 0 <= i < |ds| ==> ds[i].lower.id <= ds[i].upper.id }

  predicate EndsBelowMask(ds: seq<ExtGroupDef>) {
    forall k :: 0 < k < |ds| ==> ds[k - 1].upper.id < 0x1000_0000 || ds[k - 1].upper.id <= ds[k].lower.id
  }

  lemma {:induction false} AdjacentUpTo(ds: seq<StdDef>, i: nat, j: nat)
    requires forall k :: 0 < k < |ds| ==> UpTo(ds[k - 1], ds[k])
    requires i <= j < |ds|
    ensures UpTo(ds[i], ds[j])
  {
    if i < j {
      AdjacentUpTo(ds, i, j - 1);
      assert UpTo(ds[j - 1], ds[j]);
    }
  }

  lemma {:induction false} AdjacentExtUpTo(ds: seq<ExtDef>, i: nat, j: nat)
    requires forall k :: 0 < k < |ds| ==> ExtUpTo(ds[k - 1], ds[k])
    requires i <= j < |ds|
    ensures ExtUpTo(ds[i], ds[j])
  {
    if i < j {
      AdjacentExtUpTo(ds, i, j - 1);
      assert ExtUpTo(ds[j - 1], ds[j]);
    }
  }

  // An identifier below the mask is its own key.
  lemma CutIs(x: nat, mask: nat)
    requires mask > 0
    ensures x < mask ==> x % mask == x
  {}

  /** A list whose identifiers passed the check under a mask is sorted exactly when it steps up. */
  lemma SortedIff(ds: seq<StdDef>, mask: nat)
    requires mask > 0 && InOrder(Cut(DefIds(ds), mask), DefIds(ds), |ds|)
    ensures Sorted(ds) <==> StepsUp(ds, mask)
  {
    forall k | 0 < k < |ds| ensures UpTo(ds[k - 1], ds[k]) <==> StepUp(ds[k - 1], ds[k], mask) {
      assert Cut(DefIds(ds), mask)[k - 1] <= DefIds(ds)[k];
      CutIs(ds[k - 1].id, mask);
    }
    hide Owner, Cut;
    if StepsUp(ds, mask) {
      forall i, j | 0 <= i < j < |ds| ensures UpTo(ds[i], ds[j]) {
        AdjacentUpTo(ds, i, j);
      }
    }
  }

  lemma ExtSortedIff(ds: seq<ExtDef>)
    requires InOrder(Cut(ExtIds(ds), 0x1000_0000), ExtIds(ds), |ds|)
    ensures ExtSorted(ds) <==> ExtStepsUp(ds)
  {
    forall k | 0 < k < |ds| ensures ExtUpTo(ds[k - 1], ds[k]) <==> ExtStepUp(ds[k - 1], ds[k]) {
      assert Cut(ExtIds(ds), 0x1000_0000)[k - 1] <= ExtIds(ds)[k];
      CutIs(ds[k - 1].id, 0x1000_0000);
    }
    hide Cut;
    if ExtStepsUp(ds) {
      forall i, j | 0 <= i < j < |ds| ensures ExtUpTo(ds[i], ds[j]) {
        AdjacentExtUpTo(ds, i, j);
      }
    }
  }

  lemma {:induction false} EndsAscend(ds: seq<GroupDef>, i: nat, j: nat)
    requires Forward(ds) && i < j < |ds| && forall k :: 0 < k < |ds| ==> ds[k - 1].upper.id <= ds[k].lower.id
    ensures ds[i].upper.id <= ds[j].lower.id
  {
    if i + 1 < j {
      EndsAscend(ds, i, j - 1);
    }
    assert ds[j - 1].upper.id <= ds[j].lower.id && ds[j - 1].lower.id <= ds[j - 1].upper.id;
  }

  lemma {:induction false} ExtEndsAscend(ds: seq<ExtGroupDef>, i: nat, j: nat)
    requires ExtForward(ds) && i < j < |ds| && forall k :: 0 < k < |ds| ==> ds[k - 1].upper.id <= ds[k].lower.id
    ensures ds[i].upper.id <= ds[j].lower.id
  {
    if i + 1 < j {
      ExtEndsAscend(ds, i, j - 1);
    }
    assert ds[j - 1].upper.id <= ds[j].lower.id && ds[j - 1].lower.id <= ds[j - 1].upper.id;
  }

  /** An accepted list of groups is in order exactly when no range is the wrong way round. */
  lemma GroupsOrderedIff(ds: seq<GroupDef>)
    requires InOrder(GroupKeys(DefGroups(ds)), GroupIds(ds), |ds|)
    ensures GroupsOrdered(ds) <==> Forward(ds)
  {
    GroupOrderIs(ds);
    hide GroupKeys, DefGroups;
    if Forward(ds) {
      forall k | 0 < k < |ds| ensures ds[k - 1].upper.id <= ds[k].lower.id {
        assert GroupKeys(DefGroups(ds))[k - 1] <= GroupIds(ds)[k];
      }
      forall i, j | 0 <= i < j < |ds| ensures ds[i].upper.id <= ds[j].lower.id {
        EndsAscend(ds, i, j);
      }
    }
  }

  /** For extended groups, besides, an end outside the 28-bit mask must not exceed the next start. */
  lemma ExtGroupsOrderedIff(ds: seq<ExtGroupDef>)
    requires InOrder(ExtGroupKeys(DefExtGroups(ds)), ExtGroupIds(ds), |ds|)
    ensures ExtGroupsOrdered(ds) <==> ExtForward(ds) && EndsBelowMask(ds)
  {
    ExtGroupOrderIs(ds);
    hide ExtGroupKeys, DefExtGroups;
    if ExtForward(ds) && EndsBelowMask(ds) {
      forall k | 0 < k < |ds| ensures ds[k - 1].upper.id <= ds[k].lower.id {
        assert ExtGroupKeys(DefExtGroups(ds))[k - 1] <= ExtGroupIds(ds)[k];
        CutIs(ds[k - 1].upper.id, 0x1000_0000);
      }
      forall i, j | 0 <= i < j < |ds| ensures ds[i].upper.id <= ds[j].lower.id {
        ExtEndsAscend(ds, i, j);
      }
    }
  }

  lemma AcceptedOrders(l: Lists)
    requires Acceptable(l)
    ensures InOrder(HalfKeys(DefHalves(l.FullCan(), 0x800), 0x400), DefIds(l.FullCan()), |l.FullCan()|)
    ensures InOrder(HalfKeys(DefHalves(l.std, 0), 0x1000), DefIds(l.std), |l.std|)
    ensures InOrder(GroupKeys(DefGroups(l.groups)), GroupIds(l.groups), |l.groups|)
    ensures InOrder(ExtKeys(DefWords(l.ext)), ExtIds(l.ext), |l.ext|)
    ensures InOrder(ExtGroupKeys(DefExtGroups(l.extGroups)), ExtGroupIds(l.extGroups), |l.extGroups|)
  {
    hide InOrder;
    var n := Whole(l);
    assert SectionStopped(l, 0, n, Ok) && SectionStopped(l, 1, n, Ok) && SectionStopped(l, 2, n, Ok);
    assert SectionStopped(l, 3, n, Ok) && SectionStopped(l, 4, n, Ok);
  }

  // Each list in order by the driver's comparison: the identifier before, cut to the mask, is not larger.
  predicate InSteps(l: Lists) {
    && (forall k :: 0 < k < |l.FullCan()| ==> l.FullCan()[k - 1].id % 0x400 <= l.FullCan()[k].id)
    && (forall k :: 0 < k < |l.std| ==> l.std[k - 1].id <= l.std[k].id)
    && (forall k :: 0 < k < |l.groups| ==> l.groups[k - 1].upper.id <= l.groups[k].lower.id)
    && (forall k :: 0 < k < |l.ext| ==> l.ext[k - 1].id % 0x1000_0000 <= l.ext[k].id)
    && (forall k :: 0 < k < |l.extGroups| ==>
          l.extGroups[k - 1].upper.id % 0x1000_0000 <= l.extGroups[k].lower.id)
  }

  /** What the set-up accepts, in terms of the lists alone. */
  lemma AcceptableIff(l: Lists)
    ensures Acceptable(l)
            <==> InSteps(l) && Counted(|l.FullCan()|, |l.std|, |l.groups|, |l.ext|, |l.extGroups|)
  {
    InStepsIs(l);
    hide InSteps, InOrder, HalfKeys, DefHalves, GroupKeys, DefGroups, ExtKeys, DefWords, ExtGroupKeys, DefExtGroups;
    var n := Whole(l);
    if Acceptable(l) {
      assert SectionStopped(l, 0, n, Ok) && SectionStopped(l, 1, n, Ok) && SectionStopped(l, 2, n, Ok);
      assert SectionStopped(l, 3, n, Ok) && SectionStopped(l, 4, n, Ok);
    }
  }

  lemma InStepsIs(l: Lists)
    ensures InSteps(l) <==>
              && InOrder(HalfKeys(DefHalves(l.FullCan(), 0x800), 0x400), DefIds(l.FullCan()), |l.FullCan()|)
              && InOrder(HalfKeys(DefHalves(l.std, 0), 0x1000), DefIds(l.std), |l.std|)
              && InOrder(GroupKeys(DefGroups(l.groups)), GroupIds(l.groups), |l.groups|)
              && InOrder(ExtKeys(DefWords(l.ext)), ExtIds(l.ext), |l.ext|)
              && InOrder(ExtGroupKeys(DefExtGroups(l.extGroups)), ExtGroupIds(l.extGroups), |l.extGroups|)
  {
    hide InOrder;
    FullCanSteps(l.FullCan());
    StdSteps(l.std);
    GroupSteps(l.groups);
    ExtListSteps(l.ext);
    ExtGroupSteps(l.extGroups);
    hide HalfKeys, DefHalves, GroupKeys, DefGroups, ExtKeys, DefWords, ExtGroupKeys, DefExtGroups;
  }

  lemma FullCanSteps(ds: seq<StdDef>)
    ensures InOrder(HalfKeys(DefHalves(ds, 0x800), 0x400), DefIds(ds), |ds|) <==>
              forall k :: 0 < k < |ds| ==> ds[k - 1].id % 0x400 <= ds[k].id
  {
    FullCanOrderIff(ds);
    hide HalfKeys, DefHalves;
    if InOrder(HalfKeys(DefHalves(ds, 0x800), 0x400), DefIds(ds), |ds|) {
      forall k | 0 < k < |ds| ensures ds[k - 1].id % 0x400 <= ds[k].id {
        assert HalfKeys(DefHalves(ds, 0x800), 0x400)[k - 1] <= DefIds(ds)[k];
      }
    }
    if forall k :: 0 < k < |ds| ==> ds[k - 1].id % 0x400 <= ds[k].id {
      forall k | 0 < k < |ds| ensures HalfKeys(DefHalves(ds, 0x800), 0x400)[k - 1] <= DefIds(ds)[k] {
        assert ds[k - 1].id % 0x400 <= ds[k].id;
      }
    }
  }

  lemma StdSteps(ds: seq<StdDef>)
    ensures InOrder(HalfKeys(DefHalves(ds, 0), 0x1000), DefIds(ds), |ds|) <==>
              forall k :: 0 < k < |ds| ==> ds[k - 1].id <= ds[k].id
  {
    StdOrderIff(ds);
    hide HalfKeys, DefHalves;
    if InOrder(HalfKeys(DefHalves(ds, 0), 0x1000), DefIds(ds), |ds|) {
      forall k | 0 < k < |ds| ensures ds[k - 1].id <= ds[k].id {
        assert HalfKeys(DefHalves(ds, 0), 0x1000)[k - 1] <= DefIds(ds)[k];
      }
    }
    if forall k :: 0 < k < |ds| ==> ds[k - 1].id <= ds[k].id {
      forall k | 0 < k < |ds| ensures HalfKeys(DefHalves(ds, 0), 0x1000)[k - 1] <= DefIds(ds)[k] {
        assert ds[k - 1].id <= ds[k].id;
      }
    }
  }

  lemma GroupSteps(ds: seq<GroupDef>)
    ensures InOrder(GroupKeys(DefGroups(ds)), GroupIds(ds), |ds|) <==>
              forall k :: 0 < k < |ds| ==> ds[k - 1].upper.id <= ds[k].lower.id
  {
    GroupOrderIs(ds);
    hide GroupKeys, DefGroups;
    if InOrder(GroupKeys(DefGroups(ds)), GroupIds(ds), |ds|) {
      forall k | 0 < k < |ds| ensures ds[k - 1].upper.id <= ds[k].lower.id {
        assert GroupKeys(DefGroups(ds))[k - 1] <= GroupIds(ds)[k];
      }
    }
    if forall k :: 0 < k < |ds| ==> ds[k - 1].upper.id <= ds[k].lower.id {
      forall k | 0 < k < |ds| ensures GroupKeys(DefGroups(ds))[k - 1] <= GroupIds(ds)[k] {
        assert ds[k - 1].upper.id <= ds[k].lower.id;
      }
    }
  }

  lemma ExtListSteps(ds: seq<ExtDef>)
    ensures InOrder(ExtKeys(DefWords(ds)), ExtIds(ds), |ds|) <==>
              forall k :: 0 < k < |ds| ==> ds[k - 1].id % 0x1000_0000 <= ds[k].id
  {
    ExtOrderIff(ds);
    hide ExtKeys, DefWords;
    if InOrder(ExtKeys(DefWords(ds)), ExtIds(ds), |ds|) {
      forall k | 0 < k < |ds| ensures ds[k - 1].id % 0x1000_0000 <= ds[k].id {
        assert ExtKeys(DefWords(ds))[k - 1] <= ExtIds(ds)[k];
      }
    }
    if forall k :: 0 < k < |ds| ==> ds[k - 1].id % 0x1000_0000 <= ds[k].id {
      forall k | 0 < k < |ds| ensures ExtKeys(DefWords(ds))[k - 1] <= ExtIds(ds)[k] {
        assert ds[k - 1].id % 0x1000_0000 <= ds[k].id;
      }
    }
  }

  lemma ExtGroupSteps(ds: seq<ExtGroupDef>)
    ensures InOrder(ExtGroupKeys(DefExtGroups(ds)), ExtGroupIds(ds), |ds|) <==>
              forall k :: 0 < k < |ds| ==> ds[k - 1].upper.id % 0x1000_0000 <= ds[k].lower.id
  {
    ExtGroupOrderIs(ds);
    hide ExtGroupKeys, DefExtGroups;
    if InOrder(ExtGroupKeys(DefExtGroups(ds)), ExtGroupIds(ds), |ds|) {
      forall k | 0 < k < |ds| ensures ds[k - 1].upper.id % 0x1000_0000 <= ds[k].lower.id {
        assert ExtGroupKeys(DefExtGroups(ds))[k - 1] <= ExtGroupIds(ds)[k];
      }
    }
    if forall k :: 0 < k < |ds| ==> ds[k - 1].upper.id % 0x1000_0000 <= ds[k].lower.id {
      forall k | 0 < k < |ds| ensures ExtGroupKeys(DefExtGroups(ds))[k - 1] <= ExtGroupIds(ds)[k] {
        assert ds[k - 1].upper.id % 0x1000_0000 <= ds[k].lower.id;
      }
    }
  }

  /**
    What acceptance leaves to the caller: accepted lists are ones the loads keep in order exactly when
    each steps up, no range is the wrong way round, long ends do not overlap, and the objects fit.
   */
  lemma AcceptedLoadableIff(l: Lists)
    requires Acceptable(l)
    ensures Loadable(l) <==>
              && StepsUp(l.FullCan(), 0x400) && StepsUp(l.std, 0x1000) && ExtStepsUp(l.ext)
              && Forward(l.groups) && ExtForward(l.extGroups) && EndsBelowMask(l.extGroups)
              && IdSize(TableOf(l, [])) + 3 * |l.FullCan()| <= RAM_WORDS
  {
    AcceptedOrders(l);
    FullCanOrderIff(l.FullCan());
    StdOrderIff(l.std);
    ExtOrderIff(l.ext);
    hide Acceptable, InOrder, HalfKeys, DefHalves, ExtKeys, DefWords, Sorted, ExtSorted, StepsUp, ExtStepsUp;
    hide GroupsOrdered, ExtGroupsOrdered, Forward, ExtForward, EndsBelowMask, Cut;
    SortedIff(l.FullCan(), 0x400);
    SortedIff(l.std, 0x1000);
    ExtSortedIff(l.ext);
    GroupsOrderedIff(l.groups);
    ExtGroupsOrderedIff(l.extGroups);
  }

  /** A range the wrong way round, which the set-up accepts. */
  lemma SetUpAdmitsReversedRange(c: Controller)
    ensures var ds := [GroupDef(StdDef(c, false, 5), StdDef(c, false, 3)),
        GroupDef(StdDef(c, false, 4), StdDef(c, false, 4))];
            InOrder(GroupKeys(DefGroups(ds)), GroupIds(ds), 2) && !GroupsOrdered(ds)
  {
    var ds := [GroupDef(StdDef(c, false, 5), StdDef(c, false, 3)), GroupDef(StdDef(c, false, 4), StdDef(c, false, 4))];
    GroupOrderIs(ds);
    assert ds[0].lower.id > ds[0].upper.id;
  }
}

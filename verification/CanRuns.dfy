/**
  What the calls of CanCalls mean: sorted insertion, deletion at an index, conflict exactly when no
  insertion point exists, insert-then-remove as the identity, and the invariant of every run; and,
  where the driver departs from its intent, exactly when it does.
 */
module CanRuns {
  import opened CanWords
  import opened CanSections
  import opened CanTable
  import opened CanRam
  import opened CanCalls

  // ---------- sorted insertion ----------

  ghost predicate SortedInsertion(s: seq<int>, x: int, k: nat, r: seq<int>) {
    && k <= |s| && |r| == |s| + 1
    && r[..k] == s[..k] && r[k] == x && r[k + 1..] == s[k..]
    && (forall i :: 0 <= i < k ==> s[i] <= x) && (forall i :: k <= i < |s| ==> x < s[i])
    && Ascending(r)
  }

  lemma SortedInsert(s: seq<int>, x: int)
    requires Ascending(s)
    ensures SortedInsertion(s, x, FirstAbove(s, x), InsertAt(s, FirstAbove(s, x), x))
  {
    var k := FirstAbove(s, x);
    var r := InsertAt(s, k, x);
    assert r[..k] == s[..k] && r[k] == x && r[k + 1..] == s[k..];
    hide FirstAbove;
    InsertedAscending(s, x, k);
  }

  lemma InsertedAscending(s: seq<int>, x: int, k: nat)
    requires Ascending(s) && k <= |s|
    requires forall i :: 0 <= i < k ==> s[i] <= x
    requires forall i :: k <= i < |s| ==> x < s[i]
    ensures Ascending(InsertAt(s, k, x))
  {
    var r := InsertAt(s, k, x);
    assert forall i {:trigger r[i]} :: 0 <= i < |r| ==>
             r[i] == if i < k then s[i] else if i == k then x else s[i - 1];
  }

  lemma InsertValues(ws: seq<Word>, k: nat, w: Word)
    requires k <= |ws|
    ensures Values(InsertAt(ws, k, w)) == InsertAt(Values(ws), k, w.Value())
  {}

  lemma RemoveValues(ws: seq<Word>, p: nat)
    requires p < |ws|
    ensures Values(RemoveAt(ws, p)) == RemoveAt(Values(ws), p)
  {}

  lemma RemoveAscending(s: seq<int>, p: nat)
    requires p < |s| && Ascending(s)
    ensures Ascending(RemoveAt(s, p))
  {
    var r := RemoveAt(s, p);
    forall i, j | 0 <= i < j < |r| ensures r[i] <= r[j] {
      assert r[i] == s[if i < p then i else i + 1] && r[j] == s[if j < p then j else j + 1];
    }
  }

  // A standard-identifier load is sorted insertion into its section and changes no other section.
  lemma AddStdSorts(t: Table, entry: Half)
    requires Ascending(t.std)
    ensures var t' := AddStd(t, entry);
            && SortedInsertion(t.std, entry, FirstAbove(t.std, entry), t'.std)
            && t' == t.(std := t'.std)
  {
    SortedInsert(t.std, entry);
  }

  lemma AddExtSorts(t: Table, entry: Word)
    requires Ascending(Values(t.ext))
    ensures var t' := AddExt(t, entry);
            && SortedInsertion(Values(t.ext), entry.Value(), FirstAbove(Values(t.ext), entry.Value()), Values(t'.ext))
            && t' == t.(ext := t'.ext)
  {
    var k := FirstAbove(Values(t.ext), entry.Value());
    InsertValues(t.ext, k, entry);
    SortedInsert(Values(t.ext), entry.Value());
  }

  lemma AddFullCanSorts(t: Table, entry: Half, after: Word)
    requires Ascending(t.fullCan) && |t.objects| == 3 * |t.fullCan|
    ensures var t' := AddFullCan(t, entry, after);
            && SortedInsertion(t.fullCan, entry, FirstAbove(t.fullCan, entry), t'.fullCan)
            && t' == t.(fullCan := t'.fullCan, objects := t'.objects)
  {
    SortedInsert(t.fullCan, entry);
  }

  // ---------- FullCAN objects ----------

  // A cleared object at index k, every other object kept, in order.
  ghost predicate ObjectInserted(objects: seq<Word>, k: nat, r: seq<Word>) {
    && |objects| % 3 == 0 && 3 * k <= |objects| && |r| == |objects| + 3
    && r == objects[..3 * k] + GAP + objects[3 * k..]
  }

  // With an even number of entries the new entry's object is the cleared one.
  lemma EvenLoadKeepsObjects(t: Table, entry: Half, after: Word)
    requires |t.objects| == 3 * |t.fullCan| && |t.fullCan| % 2 == 0
    ensures ObjectInserted(t.objects, FirstAbove(t.fullCan, entry), AddFullCan(t, entry, after).objects)
  {
    var o, at := t.objects, 3 * FirstAbove(t.fullCan, entry);
    hide FirstAbove;
    assert AddFullCan(t, entry, after).objects == OpenObjectAt(o, after, at);
    assert OpenObjectAt(o, after, at) == o[..at] + GAP + o[at..] by {
      assert (o + [after])[..at] == o[..at] && (o + [after])[at..] == o[at..] + [after];
    }
  }

  // With an odd number (three or more) it is exactly when the word the driver skips is zero already.
  lemma OddLoadKeepsObjectsIff(t: Table, entry: Half, after: Word)
    requires |t.objects| == 3 * |t.fullCan| && |t.fullCan| % 2 == 1 && |t.fullCan| >= 3
    ensures var k := FirstAbove(t.fullCan, entry);
            ObjectInserted(t.objects, k, AddFullCan(t, entry, after).objects)
            <==> (t.objects + [after])[3 * k] == ZERO
  {
    var k := FirstAbove(t.fullCan, entry);
    var o := t.objects;
    var o1 := o + [after];
    var r := AddFullCan(t, entry, after).objects;
    var want := o[..3 * k] + GAP + o[3 * k..];
    assert r == (o1[..3 * k + 1] + GAP + o1[3 * k + 1..])[..|o| + 3];
    assert r[3 * k] == o1[3 * k] && want[3 * k] == ZERO;
    if o1[3 * k] == ZERO {
      assert forall i :: 0 <= i < |r| ==> r[i] == want[i];
    }
  }

  // The second entry's object always opens behind the first word of the first entry's object.
  lemma SecondLoadKeepsObjectsIff(t: Table, entry: Half, after: Word)
    requires |t.objects| == 3 && |t.fullCan| == 1
    ensures ObjectInserted(t.objects, FirstAbove(t.fullCan, entry), AddFullCan(t, entry, after).objects)
            <==> if entry < t.fullCan[0] then t.objects[0] == ZERO else t.objects[1] == t.objects[2] == ZERO
  {
    var o := t.objects;
    assert o == [o[0], o[1], o[2]];
    assert (o + [after])[..1] + GAP + (o + [after])[1..] == [o[0], ZERO, ZERO, ZERO, o[1], o[2], after];
    assert AddFullCan(t, entry, after).objects == [o[0], ZERO, ZERO, ZERO, o[1], o[2]];
    assert o[..0] + GAP + o[0..] == [ZERO, ZERO, ZERO, o[0], o[1], o[2]];
    assert o[..3] + GAP + o[3..] == [o[0], o[1], o[2], ZERO, ZERO, ZERO];
  }

  // FullCAN entries for the identifiers from 1 on, each with an object that received a message.
  function Received(n: nat): (t: Table)
    requires n < 0x800
    ensures |t.fullCan| == n && |t.objects| == 3 * n
  {
    Table(seq(n, i requires 0 <= i < n => FullCanEntry(Can1, i + 1)), [], [], [], [],
        seq(3 * n, i => Word(0, i % 3 + 1)))
  }

  lemma ReceivedWellFormed(n: nat)
    requires n <= 64
    ensures WellFormed(Received(n))
  {}

  /** Loads with an odd count that damage an object, by tables the driver can have reached. */
  lemma OddLoadLosesObject(after: Word)
    ensures WellFormed(Received(3)) && WellFormed(Received(1))
    ensures var t, entry := Received(3), FullCanEntry(Can1, 0);
            !ObjectInserted(t.objects, FirstAbove(t.fullCan, entry), AddFullCan(t, entry, after).objects)
    ensures var t, entry := Received(1), FullCanEntry(Can1, 2);
            !ObjectInserted(t.objects, FirstAbove(t.fullCan, entry), AddFullCan(t, entry, after).objects)
  {
    ReceivedWellFormed(3);
    ReceivedWellFormed(1);
    hide WellFormed;
    var t := Received(3);
    assert FirstAbove(t.fullCan, FullCanEntry(Can1, 0)) == 0;
    OddLoadKeepsObjectsIff(t, FullCanEntry(Can1, 0), after);
    assert (t.objects + [after])[0] == Word(0, 1) != ZERO;
    SecondLoadKeepsObjectsIff(Received(1), FullCanEntry(Can1, 2), after);
  }

  /** A removal that damages an object. */
  lemma RemovalLosesObject()
    ensures exists t: Table :: WellFormed(t) && |t.fullCan| == 3
              && RemoveFullCan(t, 0).objects != t.objects[..0] + t.objects[3..]
  {
    var t := Received(3).(objects := seq(9, i => Word(0, i % 9)));
    ReceivedWellFormed(3);
    assert WellFormed(t);
    hide WellFormed;
    RemovalKeepsObjectsIff(t, 0);
    assert t.objects[0] != t.objects[3];
  }

  // Removal takes out exactly the removed entry's object when the number of entries was even or the
  // last entry goes; otherwise exactly when the first words of objects p and p + 1 are equal.
  lemma RemovalKeepsObjectsIff(t: Table, p: nat)
    requires p < |t.fullCan| && |t.objects| == 3 * |t.fullCan|
    ensures RemoveFullCan(t, p).objects == t.objects[..3 * p] + t.objects[3 * p + 3..]
            <==> |t.fullCan| % 2 == 0 || p == |t.fullCan| - 1 || t.objects[3 * p] == t.objects[3 * p + 3]
  {
    var o := t.objects;
    var r, want := RemoveFullCan(t, p).objects, o[..3 * p] + o[3 * p + 3..];
    if |t.fullCan| % 2 == 1 && p < |t.fullCan| - 1 {
      assert r == o[..3 * p + 1] + o[3 * p + 4..];
      assert r[3 * p] == o[3 * p] && want[3 * p] == o[3 * p + 3];
      if o[3 * p] == o[3 * p + 3] {
        assert forall i :: 0 <= i < |r| ==> r[i] == want[i];
      }
    }
  }

  // ---------- removal from the halfword sections ----------

  // The entry removed is the one asked for exactly when the position or the length is even, or when
  // the last entry happens to equal what the driver leaves in its place.
  lemma RemoveHalfIff(hs: seq<Half>, p: nat)
    requires p < |hs|
    ensures RemoveHalf(hs, p) == RemoveAt(hs, p)
            <==> p % 2 == 0 || |hs| % 2 == 0 || hs[|hs| - 1] == if p == |hs| - 2 then hs[p] else 0
  {
    var r, want := RemoveHalf(hs, p), RemoveAt(hs, p);
    if p % 2 == 1 && |hs| % 2 == 1 {
      assert want[|hs| - 2] == hs[|hs| - 1];
      assert r[|hs| - 2] == if p == |hs| - 2 then hs[p] else 0;
      if r[|hs| - 2] == want[|hs| - 2] {
        assert forall i :: 0 <= i < |r| ==> r[i] == want[i];
      }
    }
  }

  lemma OddRemovalLosesEntry()
    ensures RemoveHalf([1, 2, 3], 1) == [1, 2] != RemoveAt([1, 2, 3], 1)
    ensures RemoveHalf([1, 2, 3, 4, 5], 1) == [1, 3, 4, 0] != RemoveAt([1, 2, 3, 4, 5], 1)
  {
    assert RemoveAt([1, 2, 3], 1)[1] == 3;
    assert RemoveAt([1, 2, 3, 4, 5], 1)[3] == 5;
  }

  // ---------- load, then remove ----------

  lemma RemoveInserted<T>(s: seq<T>, k: nat, x: T)
    requires k <= |s|
    ensures RemoveAt(InsertAt(s, k, x), k) == s
  {}

  // Removing the identifier just loaded gives the old table back exactly when it landed on an even
  // position, or made the count even, or the old last entry is what an odd removal leaves behind.
  lemma LoadRemoveStd(t: Table, entry: Half)
    ensures var k := FirstAbove(t.std, entry);
            RemoveStd(AddStd(t, entry), k) == t
            <==> k % 2 == 0 || |t.std| % 2 == 1 || t.std[|t.std| - 1] == if k == |t.std| - 1 then entry else 0
  {
    var k := FirstAbove(t.std, entry);
    var hs := InsertAt(t.std, k, entry);
    InsertedThenRemoved(t.std, k, entry);
    assert RemoveStd(AddStd(t, entry), k) == t.(std := RemoveHalf(hs, k));
    if RemoveHalf(hs, k) == t.std {
      assert t.(std := t.std) == t;
    }
  }

  lemma InsertedThenRemoved(s: seq<Half>, k: nat, x: Half)
    requires k <= |s|
    ensures RemoveHalf(InsertAt(s, k, x), k) == s
            <==> k % 2 == 0 || |s| % 2 == 1 || s[|s| - 1] == if k == |s| - 1 then x else 0
  {
    var hs := InsertAt(s, k, x);
    RemoveInserted(s, k, x);
    RemoveHalfIff(hs, k);
    if k % 2 == 1 && |s| % 2 == 0 {
      assert k < |s| && hs[|hs| - 1] == s[|s| - 1] && hs[k] == x;
    }
    hide RemoveHalf, RemoveAt, InsertAt;
  }

  lemma LoadRemoveExt(t: Table, entry: Word)
    ensures var t' := AddExt(t, entry);
            t'.(ext := RemoveAt(t'.ext, FirstAbove(Values(t.ext), entry.Value()))) == t
  {
    RemoveInserted(t.ext, FirstAbove(Values(t.ext), entry.Value()), entry);
  }

  // ---------- groups ----------

  lemma FitsTail(rs: seq<Range>, k: nat, lower: int, upper: int)
    requires rs != [] && 0 < k
    ensures Fits(rs, k, lower, upper) <==> rs[0].upper <= lower && Fits(rs[1..], k - 1, lower, upper)
  {
    if Fits(rs, k, lower, upper) {
      assert rs[0].upper <= lower;
      assert forall i :: 0 <= i < k - 1 ==> rs[1..][i] == rs[i + 1];
      assert forall i :: k - 1 <= i < |rs| - 1 ==> rs[1..][i] == rs[i + 1];
    }
    if rs[0].upper <= lower && Fits(rs[1..], k - 1, lower, upper) {
      assert forall i :: 1 <= i < |rs| ==> rs[i] == rs[1..][i - 1];
    }
  }

  // The driver's walk stops at a place where the new range fits ...
  lemma {:induction false} SlotFits(rs: seq<Range>, lower: int, upper: int)
    requires Disjoint(rs) && lower <= upper && FindSlot(rs, lower, upper).At?
    ensures Fits(rs, FindSlot(rs, lower, upper).index, lower, upper)
  {
    if rs == [] {
    } else if upper <= rs[0].lower {
      assert forall i :: 0 < i < |rs| ==> rs[0].upper <= rs[i].lower;
    } else {
      TailDisjoint(rs);
      SlotFits(rs[1..], lower, upper);
      FitsTail(rs, FindSlot(rs, lower, upper).index, lower, upper);
    }
  }

  // ... and reports a conflict only when there is none.
  lemma {:induction false} ConflictFitsNowhere(rs: seq<Range>, lower: int, upper: int, k: nat)
    requires Disjoint(rs) && lower <= upper && FindSlot(rs, lower, upper).Conflict?
    ensures !Fits(rs, k, lower, upper)
  {
    if k == 0 {
      assert !(upper <= rs[0].lower);
    } else {
      FitsTail(rs, k, lower, upper);
      if lower >= rs[0].upper {
        TailDisjoint(rs);
        ConflictFitsNowhere(rs[1..], lower, upper, k - 1);
      }
    }
  }

  lemma TailDisjoint(rs: seq<Range>)
    requires rs != [] && Disjoint(rs)
    ensures Disjoint(rs[1..])
  {
    var tail := rs[1..];
    assert forall i :: 0 <= i < |tail| ==> tail[i] == rs[i + 1];
  }

  // A conflict is reported exactly when the range fits nowhere; otherwise the list with the new
  // range at the slot is again in order.
  lemma GroupLoadMeaning(rs: seq<Range>, lower: int, upper: int)
    requires Disjoint(rs) && lower <= upper
    ensures FindSlot(rs, lower, upper).Conflict? <==> forall k: nat :: !Fits(rs, k, lower, upper)
    ensures FindSlot(rs, lower, upper).At? ==>
              var k := FindSlot(rs, lower, upper).index;
              Fits(rs, k, lower, upper) && Disjoint(InsertAt(rs, k, Range(lower, upper)))
  {
    if FindSlot(rs, lower, upper).At? {
      SlotFits(rs, lower, upper);
      InsertDisjoint(rs, FindSlot(rs, lower, upper).index, lower, upper);
    } else {
      forall k: nat ensures !Fits(rs, k, lower, upper) {
        ConflictFitsNowhere(rs, lower, upper, k);
      }
    }
  }

  lemma InsertDisjoint(rs: seq<Range>, k: nat, lower: int, upper: int)
    requires Disjoint(rs) && lower <= upper && Fits(rs, k, lower, upper)
    ensures Disjoint(InsertAt(rs, k, Range(lower, upper)))
  {
    var r := InsertAt(rs, k, Range(lower, upper));
    forall i | 0 <= i < |r| ensures r[i].lower <= r[i].upper {
      assert r[i] == if i < k then rs[i] else if i == k then Range(lower, upper) else rs[i - 1];
    }
    forall i, j | 0 <= i < j < |r| ensures r[i].upper <= r[j].lower {
      assert r[i] == if i < k then rs[i] else if i == k then Range(lower, upper) else rs[i - 1];
      assert r[j] == if j < k then rs[j] else if j == k then Range(lower, upper) else rs[j - 1];
    }
  }

  lemma RemoveDisjoint(rs: seq<Range>, p: nat)
    requires p < |rs| && Disjoint(rs)
    ensures Disjoint(RemoveAt(rs, p))
  {
    var r := RemoveAt(rs, p);
    assert forall i :: 0 <= i < |r| ==> r[i] == rs[if i < p then i else i + 1];
  }

  // ---------- the first group of a kind ----------

  // Writing the first group without making room loses the sections behind exactly when what
  // follows is not a run of one and the same word, in particular never when nothing follows.
  lemma FirstGroupKeepsRestIff(t: Table, entry: Word, after: Word)
    requires t.groups == []
    ensures AddFirstGroup(t, entry, after) == t.(groups := [entry])
            <==> (forall i :: 0 <= i < |BehindGroups(t)| ==> BehindGroups(t)[i] == after)
  {
    var w := BehindGroups(t);
    var w' := (w + [after])[1..];
    BehindRead(t, w');
    var t' := AddFirstGroup(t, entry, after);
    assert BehindGroups(t') == w';
    if t' == t.(groups := [entry]) {
      assert w' == w;
      AllEqualBackwards(w, after);
    }
    if forall i :: 0 <= i < |w| ==> w[i] == after {
      assert w' == w;
      ReadBackBehind(t);
    }
  }

  lemma {:induction false} AllEqualBackwards(w: seq<Word>, after: Word)
    requires (w + [after])[1..] == w
    ensures forall i :: 0 <= i < |w| ==> w[i] == after
  {
    forall i | 0 <= i < |w| ensures w[i] == after {
      EqualFrom(w, after, i);
    }
  }

  lemma {:induction false} EqualFrom(w: seq<Word>, after: Word, i: nat)
    requires i < |w| && (w + [after])[1..] == w
    ensures w[i] == after
    decreases |w| - i
  {
    assert w[i] == (w + [after])[1..][i] == (w + [after])[i + 1];
    if i + 1 < |w| {
      EqualFrom(w, after, i + 1);
    }
  }

  lemma ReadBackBehind(t: Table)
    ensures WithBehindGroups(t, BehindGroups(t)) == t
  {
    var w := BehindGroups(t);
    var e, x := |t.ext|, |t.ext| + 2 * |t.extGroups|;
    assert w[..e] == t.ext && w[e..x] == Flatten(t.extGroups) && w[x..] == t.objects;
    assert Unflatten(Flatten(t.extGroups)) == t.extGroups;
  }

  /**
    Writing the first extended group over the first two object words keeps the objects exactly when
    they repeat, up to their end, the two words behind the table.
   */
  lemma FirstExtGroupKeepsRestIff(t: Table, entry: ExtGroup, after: seq<Word>)
    requires t.extGroups == [] && |after| == 2
    ensures AddFirstExtGroup(t, entry, after) == t.(extGroups := [entry])
            <==> forall i :: 0 <= i < |t.objects| ==> t.objects[i] == after[(|t.objects| - i) % 2]
  {
    var o := t.objects;
    if (o + after)[2..] == o {
      forall i | 0 <= i < |o| ensures o[i] == after[(|o| - i) % 2] {
        RepeatsFrom(o, after, i);
      }
    }
    if forall i :: 0 <= i < |o| ==> o[i] == after[(|o| - i) % 2] {
      forall i | 0 <= i < |o| ensures (o + after)[2..][i] == o[i] {
        assert i + 2 < |o| ==> o[i + 2] == after[(|o| - (i + 2)) % 2];
      }
    }
  }

  lemma {:induction false} RepeatsFrom(o: seq<Word>, after: seq<Word>, i: nat)
    requires |after| == 2 && (o + after)[2..] == o && i < |o|
    ensures o[i] == after[(|o| - i) % 2]
    decreases |o| - i
  {
    assert o[i] == (o + after)[2..][i] == (o + after)[i + 2];
    if i + 2 < |o| {
      RepeatsFrom(o, after, i + 2);
    }
  }

  // One FullCAN entry whose object has been filled, and its first extended group.
  lemma FirstExtGroupLosesObject(after: seq<Word>)
    requires |after| == 2
    ensures exists t: Table, entry: ExtGroup :: WellFormed(t) && t.extGroups == [] && |t.fullCan| == 1 &&
              AddFirstExtGroup(t, entry, after) != t.(extGroups := [entry])
  {
    var w := if after[1] == ZERO then Word(1, 1) else ZERO;
    var t := Table([0x800], [], [], [], [], [w, w, w]);
    var entry := ExtGroup(ZERO, ZERO);
    FirstExtGroupKeepsRestIff(t, entry, after);
    assert t.objects[2] == w != after[(|t.objects| - 2) % 2];
    assert WellFormed(t);
  }

  lemma FirstGroupLosesExt(after: Word)
    ensures exists t: Table, entry: Word ::
        t.groups == [] && t.ext != [] && AddFirstGroup(t, entry, after) != t.(groups := [entry])
  {
    var w := if after == ZERO then Word(1, 1) else ZERO;
    var t := Table([], [], [], [w], [], []);
    FirstGroupKeepsRestIff(t, ZERO, after);
    assert BehindGroups(t)[0] == w;
    assert AddFirstGroup(t, ZERO, after) != t.(groups := [ZERO]);
  }

  // ---------- every run ----------

  ghost predicate WellFormed(t: Table) {
    && Ascending(t.fullCan) && Ascending(t.std) && Ascending(Values(t.ext))
    && (forall i :: 0 <= i < |t.fullCan| ==> t.fullCan[i] < PAD)
    && (forall i :: 0 <= i < |t.std| ==> t.std[i] < PAD)
    && Disjoint(StdRanges(t.groups)) && Disjoint(ExtRanges(t.extGroups))
    && |t.objects| == 3 * |t.fullCan| && Size(t) <= RAM_WORDS
  }

  // The calls on which the driver keeps the identifier sections as its documentation says.
  predicate Intended(t: Table, call: Call) {
    StatusOf(t, call) == Ok ==>
      match call
      case LoadGroup(_, lower, upper, Standard) =>
        lower % 0x800 <= upper % 0x800 && (t.groups == [] ==> t.ext == [] && t.extGroups == [])
      case LoadGroup(_, lower, upper, Extended) =>
        lower % 0x2000_0000 <= upper % 0x2000_0000
      case Remove(FullCan, p) => p % 2 == 0 || |t.fullCan| % 2 == 0
      case Remove(ExplicitStd, p) => p % 2 == 0 || |t.std| % 2 == 0
      case _ => true
  }

  lemma StdGroupRange(ws: seq<Word>, k: nat, ctrl: Controller, lower: nat, upper: nat)
    requires k <= |ws|
    ensures StdRanges(InsertAt(ws, k, GroupEntry(ctrl, lower, upper)))
         == InsertAt(StdRanges(ws), k, Range(lower % 0x800, upper % 0x800))
  {
    assert StdRange(GroupEntry(ctrl, lower, upper)) == Range(lower % 0x800, upper % 0x800);
    hide StdRange, GroupEntry;
  }

  lemma ExtGroupRange(gs: seq<ExtGroup>, k: nat, ctrl: Controller, lower: nat, upper: nat)
    requires k <= |gs|
    ensures ExtRanges(InsertAt(gs, k, ExtGroupEntry(ctrl, lower, upper)))
         == InsertAt(ExtRanges(gs), k, Range(lower % 0x2000_0000, upper % 0x2000_0000))
  {
    ExtEntryRange(ctrl, lower, upper);
    hide ExtRange, ExtGroupEntry;
  }

  lemma ExtEntryRange(ctrl: Controller, lower: nat, upper: nat)
    ensures ExtRange(ExtGroupEntry(ctrl, lower, upper)) == Range(lower % 0x2000_0000, upper % 0x2000_0000)
  {
    var g := ExtGroupEntry(ctrl, lower, upper);
    Id29Of(lower % 0x2000_0000, ctrl.Number(), g.lower);
    Id29Of(upper % 0x2000_0000, ctrl.Number(), g.upper);
    hide Id29;
  }

  lemma Id29Of(id: nat, ctrl: nat, w: Word)
    requires id < 0x2000_0000 && ctrl <= 1 && w.Value() == id + ctrl * 0x2000_0000
    ensures Id29(w) == id
  {
    if ctrl == 1 {
      assert w.Value() - 0x2000_0000 == id;
    }
  }

  lemma FirstStdGroupKeeps(t: Table, ctrl: Controller, lower: UInt32, upper: UInt32, after: Word)
    requires WellFormed(t) && Size(t) < RAM_WORDS && lower % 0x800 <= upper % 0x800
    requires t.groups == [] && t.ext == [] && t.extGroups == []
    ensures WellFormed(AddFirstGroup(t, GroupEntry(ctrl, lower, upper), after))
  {
    OneStdGroup(ctrl, lower, upper);
    hide GroupEntry, StdRanges;
  }

  lemma OneStdGroup(ctrl: Controller, lower: nat, upper: nat)
    ensures StdRanges([GroupEntry(ctrl, lower, upper)]) == [Range(lower % 0x800, upper % 0x800)]
  {
    assert StdRange(GroupEntry(ctrl, lower, upper)) == Range(lower % 0x800, upper % 0x800);
    hide StdRange, GroupEntry;
  }

  lemma OneExtGroup(ctrl: Controller, lower: nat, upper: nat)
    ensures ExtRanges([ExtGroupEntry(ctrl, lower, upper)]) == [Range(lower % 0x2000_0000, upper % 0x2000_0000)]
  {
    ExtEntryRange(ctrl, lower, upper);
    hide ExtRange, ExtGroupEntry;
  }

  lemma LaterStdGroupKeeps(t: Table, k: nat, ctrl: Controller, lower: UInt32, upper: UInt32)
    requires WellFormed(t) && Size(t) < RAM_WORDS && lower % 0x800 <= upper % 0x800
    requires FindSlot(StdRanges(t.groups), lower % 0x800, upper % 0x800) == At(k)
    ensures WellFormed(AddGroupAt(t, k, GroupEntry(ctrl, lower, upper)))
  {
    GroupLoadMeaning(StdRanges(t.groups), lower % 0x800, upper % 0x800);
    StdGroupRange(t.groups, k, ctrl, lower, upper);
    hide GroupEntry, StdRanges, FindSlot, InsertAt, Disjoint;
  }

  lemma LoadStdGroupKeeps(t: Table, ctrl: Controller, lower: UInt32, upper: UInt32, after: Word)
    requires WellFormed(t) && Size(t) < RAM_WORDS && lower % 0x800 <= upper % 0x800
    requires t.groups == [] ==> t.ext == [] && t.extGroups == []
    ensures WellFormed(LoadedStdGroup(t, GroupEntry(ctrl, lower, upper), lower % 0x800, upper % 0x800, after))
  {
    hide WellFormed, GroupEntry, StdRanges;
    if t.groups == [] {
      FirstStdGroupKeeps(t, ctrl, lower, upper, after);
    } else if FindSlot(StdRanges(t.groups), lower % 0x800, upper % 0x800).At? {
      LaterStdGroupKeeps(t, FindSlot(StdRanges(t.groups), lower % 0x800, upper % 0x800).index, ctrl, lower, upper);
    }
  }

  lemma FirstExtGroupKeeps(t: Table, ctrl: Controller, lower: UInt32, upper: UInt32, after: seq<Word>)
    requires WellFormed(t) && Size(t) + 2 <= RAM_WORDS && lower % 0x2000_0000 <= upper % 0x2000_0000 && |after| == 2
    requires t.extGroups == []
    ensures WellFormed(AddFirstExtGroup(t, ExtGroupEntry(ctrl, lower, upper), after))
  {
    OneExtGroup(ctrl, lower, upper);
    hide ExtGroupEntry, ExtRanges;
  }

  lemma LaterExtGroupKeeps(t: Table, k: nat, ctrl: Controller, lower: UInt32, upper: UInt32)
    requires WellFormed(t) && Size(t) + 2 <= RAM_WORDS && lower % 0x2000_0000 <= upper % 0x2000_0000
    requires FindSlot(ExtRanges(t.extGroups), lower % 0x2000_0000, upper % 0x2000_0000) == At(k)
    ensures WellFormed(AddExtGroupAt(t, k, ExtGroupEntry(ctrl, lower, upper)))
  {
    GroupLoadMeaning(ExtRanges(t.extGroups), lower % 0x2000_0000, upper % 0x2000_0000);
    ExtGroupRange(t.extGroups, k, ctrl, lower, upper);
    hide ExtGroupEntry, ExtRanges, FindSlot, InsertAt, Disjoint;
  }

  lemma LoadExtGroupKeeps(t: Table, ctrl: Controller, lower: UInt32, upper: UInt32, after: seq<Word>)
    requires WellFormed(t) && Size(t) + 2 <= RAM_WORDS && lower % 0x2000_0000 <= upper % 0x2000_0000 && |after| == 2
    ensures WellFormed(LoadedExtGroup(t, ExtGroupEntry(ctrl, lower, upper), lower % 0x2000_0000, upper % 0x2000_0000,
        after))
  {
    hide WellFormed, ExtGroupEntry, ExtRanges;
    if t.extGroups == [] {
      FirstExtGroupKeeps(t, ctrl, lower, upper, after);
    } else if FindSlot(ExtRanges(t.extGroups), lower % 0x2000_0000, upper % 0x2000_0000).At? {
      LaterExtGroupKeeps(t, FindSlot(ExtRanges(t.extGroups), lower % 0x2000_0000, upper % 0x2000_0000).index, ctrl,
          lower, upper);
    }
  }

  lemma RemoveKeeps(t: Table, e: EntryType, p: nat, behind: seq<Word>)
    requires WellFormed(t) && p < Count(t, e) && Intended(t, Remove(e, p)) && RAM_WORDS <= Size(t) + |behind|
    ensures WellFormed(TableAfter(t, Remove(e, p), behind))
  {
    match e
    case FullCan =>
      RemoveAscending(t.fullCan, p);
    case ExplicitStd =>
      RemoveAscending(t.std, p);
    case GroupStd =>
      RemoveDisjoint(StdRanges(t.groups), p);
      assert StdRanges(RemoveAt(t.groups, p)) == RemoveAt(StdRanges(t.groups), p);
    case ExplicitExt =>
      RemoveAscending(Values(t.ext), p);
      RemoveValues(t.ext, p);
    case GroupExt =>
      RemoveDisjoint(ExtRanges(t.extGroups), p);
      assert ExtRanges(RemoveAt(t.extGroups, p)) == RemoveAt(ExtRanges(t.extGroups), p);
  }

  lemma LoadKeeps(t: Table, call: Call, behind: seq<Word>)
    requires WellFormed(t) && StatusOf(t, call) == Ok && RAM_WORDS <= Size(t) + |behind|
    requires call.LoadExplicit? || call.LoadFullCan?
    ensures WellFormed(TableAfter(t, call, behind))
  {
    match call
    case LoadExplicit(ctrl, id, Standard) => AddStdSorts(t, StdEntry(ctrl, id));
    case LoadExplicit(ctrl, id, Extended) => AddExtSorts(t, ExtEntry(ctrl, id));
    case LoadFullCan(ctrl, id) => AddFullCanSorts(t, FullCanEntry(ctrl, id), behind[0]);
  }

  lemma CallKeepsWellFormed(t: Table, call: Call, behind: seq<Word>)
    requires WellFormed(t) && Intended(t, call) && RAM_WORDS <= Size(t) + |behind|
    ensures WellFormed(TableAfter(t, call, behind))
  {
    if StatusOf(t, call) == Ok {
      match call
      case LoadExplicit(_, _, _) => LoadKeeps(t, call, behind);
      case LoadFullCan(_, _) => LoadKeeps(t, call, behind);
      case LoadGroup(ctrl, lower, upper, Standard) => LoadStdGroupKeeps(t, ctrl, lower, upper, behind[0]);
      case LoadGroup(ctrl, lower, upper, Extended) => LoadExtGroupKeeps(t, ctrl, lower, upper, behind[..2]);
      case Remove(e, p) => RemoveKeeps(t, e, p, behind);
    }
  }

  // One call of a run, with the words it found behind the table.
  datatype Step = Step(call: Call, behind: seq<Word>)

  ghost predicate IntendedRun(t: Table, run: seq<Step>)
    decreases |run|
  {
    |t.objects| == 3 * |t.fullCan| &&
    (run != [] ==>
       && RAM_WORDS <= Size(t) + |run[0].behind|
       && Intended(t, run[0].call)
       && IntendedRun(TableAfter(t, run[0].call, run[0].behind), run[1..]))
  }

  ghost function RunFrom(t: Table, run: seq<Step>): Table
    requires IntendedRun(t, run)
    decreases |run|
  {
    if run == [] then t else RunFrom(TableAfter(t, run[0].call, run[0].behind), run[1..])
  }

  lemma {:induction false} RunKeepsWellFormed(t: Table, run: seq<Step>)
    requires WellFormed(t) && IntendedRun(t, run)
    ensures WellFormed(RunFrom(t, run))
    decreases |run|
  {
    if run != [] {
      CallKeepsWellFormed(t, run[0].call, run[0].behind);
      RunKeepsWellFormed(TableAfter(t, run[0].call, run[0].behind), run[1..]);
    }
  }

  // From the empty table every run of intended calls keeps each identifier section ascending, the
  // groups disjoint and the whole within RAM.
  lemma EveryRunWellFormed(run: seq<Step>)
    requires IntendedRun(EMPTY, run)
    ensures WellFormed(RunFrom(EMPTY, run))
  {
    RunKeepsWellFormed(EMPTY, run);
  }

  // ---------- registers ----------

  // A call leaves the start addresses right exactly when it is not a successful load into an odd
  // halfword section.
  lemma RegistersRightIff(t: Table, call: Call, behind: seq<Word>)
    requires |t.objects| == 3 * |t.fullCan| && RAM_WORDS <= Size(t) + |behind|
    ensures StartsAfter(StartsOf(t), t, call) == StartsOf(TableAfter(t, call, behind))
            <==> !(StatusOf(t, call) == Ok
                   && ((call.LoadExplicit? && call.format.Standard? && |t.std| % 2 == 1)
                       || (call.LoadFullCan? && |t.fullCan| % 2 == 1)))
  {
    if StatusOf(t, call) == Ok {
      match call
      case LoadExplicit(ctrl, id, Standard) => StdStarts(t, StdEntry(ctrl, id));
      case LoadExplicit(ctrl, id, Extended) => ExtStarts(t, ExtEntry(ctrl, id));
      case LoadFullCan(ctrl, id) => FullCanStarts(t, FullCanEntry(ctrl, id), behind[0]);
      case LoadGroup(_, _, _, format) =>
        if format.Standard? {
          GrownStarts(t, TableAfter(t, call, behind), 3, 1);
        } else {
          GrownStarts(t, TableAfter(t, call, behind), 5, 2);
        }
      case Remove(e, p) => RemovalStarts(t, e, p, behind);
    }
  }

  /** Loads after which the start-address registers are wrong. */
  lemma OddStdLoadMisplacesStarts(behind: seq<Word>)
    requires RAM_WORDS <= |behind|
    ensures var t, call := EMPTY.(std := [StdEntry(Can1, 1)]), LoadExplicit(Can1, 2, Standard);
            WellFormed(t) && StatusOf(t, call) == Ok
                && StartsAfter(StartsOf(t), t, call) != StartsOf(TableAfter(t, call, behind))
  {
    hide StartsAfter, StartsOf, TableAfter;
    RegistersRightIff(EMPTY.(std := [StdEntry(Can1, 1)]), LoadExplicit(Can1, 2, Standard), behind);
  }

  lemma OddFullCanLoadMisplacesStarts(behind: seq<Word>)
    requires RAM_WORDS <= |behind|
    ensures var t, call := Received(1), LoadFullCan(Can1, 2);
            WellFormed(t) && StatusOf(t, call) == Ok
                && StartsAfter(StartsOf(t), t, call) != StartsOf(TableAfter(t, call, behind))
  {
    hide StartsAfter, StartsOf, TableAfter, WellFormed;
    ReceivedWellFormed(1);
    RegistersRightIff(Received(1), LoadFullCan(Can1, 2), behind);
  }

  lemma GrownStarts(t: Table, t': Table, i: nat, words: int)
    requires 1 <= i <= 5
    requires Start(t', 1) == Start(t, 1) + (if 1 >= i then words else 0)
    requires Start(t', 2) == Start(t, 2) + (if 2 >= i then words else 0)
    requires Start(t', 3) == Start(t, 3) + (if 3 >= i then words else 0)
    requires Start(t', 4) == Start(t, 4) + (if 4 >= i then words else 0)
    requires Start(t', 5) == Start(t, 5) + words
    ensures MoveStarts(StartsOf(t), i, 4 * words) == StartsOf(t')
  {
    hide Start;
  }

  lemma FewerHalves(n: nat)
    requires 0 < n
    ensures Halfwords(n - 1) == Halfwords(n) - n % 2
  {}

  lemma RemovalStarts(t: Table, e: EntryType, p: nat, behind: seq<Word>)
    requires p < Count(t, e) && |t.objects| == 3 * |t.fullCan| && RAM_WORDS <= Size(t) + |behind|
    ensures StartsAfter(StartsOf(t), t, Remove(e, p)) == StartsOf(TableAfter(t, Remove(e, p), behind))
  {
    var t' := TableAfter(t, Remove(e, p), behind);
    match e
    case FullCan =>
      FewerHalves(|t.fullCan|);
      hide RemoveFullCan, RemoveFullCanId, Halfwords;
      GrownStarts(t, t', 1, -(|t.fullCan| % 2));
    case ExplicitStd =>
      FewerHalves(|t.std|);
      hide RemoveStd, Halfwords;
      GrownStarts(t, t', 2, -(|t.std| % 2));
    case GroupStd =>
      hide RemoveAt, Halfwords;
      GrownStarts(t, t', 3, -1);
    case ExplicitExt =>
      hide RemoveAt, Halfwords;
      GrownStarts(t, t', 4, -1);
    case GroupExt =>
      hide RemoveAt, Halfwords;
      GrownStarts(t, t', 5, -2);
  }

  // ---------- capacity ----------

  /**
    In the driver's counters: when a successful call keeps to the 512 words of RAM.  Standard loads and
    groups, first groups, and removals of single words always do.
   */
  lemma StaysInRamIff(t: Table, call: Call)
    requires |t.objects| == 3 * |t.fullCan| && Size(t) <= RAM_WORDS && StatusOf(t, call) == Ok
    ensures Furthest(t, call) < RAM_WORDS <==>
              match call
              case LoadExplicit(_, _, Extended) => Start(t, 3) + Size(t) < RAM_WORDS
              case LoadFullCan(_, _) => |t.fullCan| % 2 == 0 && Size(t) != 0 ==> Start(t, 1) + Size(t) < RAM_WORDS
              case LoadGroup(_, _, _, Extended) => t.extGroups != [] ==> Size(t) + 1 + |t.fullCan| % 2 < RAM_WORDS
              case Remove(FullCan, _) => Size(t) + 2 < RAM_WORDS
              case Remove(GroupExt, _) => Size(t) + 1 + |t.fullCan| % 2 < RAM_WORDS
              case _ => true
  {
  }

  // A successful call on a well-formed table that goes beyond the RAM.
  ghost predicate Overruns(t: Table, call: Call) {
    WellFormed(t) && StatusOf(t, call) == Ok && RAM_WORDS <= Furthest(t, call)
  }

  // An extended load that does so overwrites the first word behind the RAM, whatever memory holds there.
  lemma ExtOverrunWrites(s: seq<Word>, t: Table, entry: Word)
    requires Size(t) < RAM_WORDS <= Start(t, 3) + Size(t) < |s|
    ensures ExtLoaded(s, t, entry)[RAM_WORDS] == s[RAM_WORDS - 1]
  {
    assert Start(t, 3) + FirstAbove(Values(t.ext), entry.Value()) <= Size(t);
    hide FirstAbove, Start, Size;
  }

  // So does a FullCAN load.
  lemma FullCanOverrunWrites(s: seq<Word>, t: Table, entry: Half)
    requires |t.objects| == 3 * |t.fullCan| && Size(t) + 3 < RAM_WORDS <= FullCanShift(t) < |s|
    ensures FullCanLoaded(s, t, entry)[RAM_WORDS] == s[RAM_WORDS - 1]
  {
    var at, n := ObjectWord(t, FullCanPlace(t, entry)),
        |PackHalves(InsertAt(t.fullCan, FirstAbove(t.fullCan, entry), entry))|;
    assert 0 <= at && at + 3 * (|t.fullCan| - FullCanPlace(t, entry)) + 3 == Size(t) + 4 && n <= Size(t) + 1;
    assert RamOpenedForFullCan(s, t)[RAM_WORDS] == s[RAM_WORDS - 1];
    hide FirstAbove, PackHalves, Size, RamOpenedForFullCan, ObjectWord;
  }

  // An extended group, when the words it moves end behind the RAM, takes with it the last but one word in it.
  lemma ExtGroupOverrunWrites(s: seq<Word>, t: Table, k: nat, g: ExtGroup)
    requires |t.objects| == 3 * |t.fullCan| && k <= |t.extGroups| && Size(t) + 2 <= RAM_WORDS <= PairReach(t) < |s|
    ensures PairLoaded(s, t, k, g)[RAM_WORDS] == s[RAM_WORDS - 2]
  {
    assert Size(t) == RAM_WORDS - 2 && |t.fullCan| % 2 == 1 && Start(t, 4) + 2 * k < Size(t);
    hide Start, Size;
  }

  // A table of so many FullCAN entries, standard groups and extended groups, all alike.
  function Crowded(fullCan: nat, groups: nat, extGroups: nat): (t: Table) {
    Table(seq(fullCan, _ => 0x800), [], seq(groups, _ => ZERO), [], seq(extGroups, _ => ExtGroup(ZERO, ZERO)),
        seq(3 * fullCan, _ => ZERO))
  }

  lemma CrowdedWellFormed(fullCan: nat, groups: nat, extGroups: nat)
    requires Halfwords(fullCan) + groups + 2 * extGroups + 3 * fullCan <= RAM_WORDS
    ensures var t := Crowded(fullCan, groups, extGroups);
            && WellFormed(t) && |t.fullCan| == fullCan && |t.extGroups| == extGroups
            && Size(t) == Halfwords(fullCan) + groups + 2 * extGroups + 3 * fullCan
            && Start(t, 1) == Halfwords(fullCan) && Start(t, 3) == Halfwords(fullCan) + groups
            && (extGroups > 0 ==> GroupSlot(t, 0, 0, Extended) == At(0))
  {
    var t := Crowded(fullCan, groups, extGroups);
    assert StdRange(ZERO) == Range(0, 0) && ExtRange(ExtGroup(ZERO, ZERO)) == Range(0, 0);
    hide StdRange, ExtRange, Halfwords;
    assert StdRanges(t.groups) == seq(groups, _ => Range(0, 0));
    assert ExtRanges(t.extGroups) == seq(extGroups, _ => Range(0, 0));
    hide StdRanges, ExtRanges;
  }

  lemma ExtLoadOverruns()
    ensures Overruns(Crowded(0, 300, 0), LoadExplicit(Can1, 0, Extended))
  {
    hide WellFormed, Crowded, Start, Size, GroupSlot;
    CrowdedWellFormed(0, 300, 0);
  }

  lemma FullCanLoadOverruns()
    ensures Overruns(Crowded(62, 264, 0), LoadFullCan(Can1, 0))
  {
    hide WellFormed, Crowded, Start, Size, GroupSlot;
    CrowdedWellFormed(62, 264, 0);
  }

  lemma ExtGroupLoadOverruns()
    ensures Overruns(Crowded(1, 504, 1), LoadGroup(Can1, 0, 0, Extended))
  {
    hide WellFormed, Crowded, Start, Size, GroupSlot;
    CrowdedWellFormed(1, 504, 1);
    var t, call := Crowded(1, 504, 1), LoadGroup(Can1, 0, 0, Extended);
    assert Size(t) == 510 && |t.extGroups| == 1;
    assert t.extGroups != [];
    assert PairReach(t) == 512;
    hide PairReach, Halfwords;
    assert StatusOf(t, call) == Ok;
    assert Furthest(t, call) == 512;
  }

  lemma FullCanRemovalOverruns()
    ensures Overruns(Crowded(1, 508, 0), Remove(FullCan, 0))
  {
    hide WellFormed, Crowded, Start, Size, GroupSlot;
    CrowdedWellFormed(1, 508, 0);
  }

  lemma ExtGroupRemovalOverruns()
    ensures Overruns(Crowded(0, 510, 1), Remove(GroupExt, 0))
  {
    hide WellFormed, Crowded, Start, Size, GroupSlot;
    CrowdedWellFormed(0, 510, 1);
    var t, call := Crowded(0, 510, 1), Remove(GroupExt, 0);
    assert Size(t) == 512 && |t.extGroups| == 1;
    assert PairReach(t) == 513;
    hide PairReach, Halfwords;
    assert StatusOf(t, call) == Ok;
    assert Furthest(t, call) == 513;
  }

  /** The capacity checks of the loads do not keep their shifts inside the RAM. */
  lemma LoadCheckAdmitsOverrun()
    ensures Overruns(Crowded(0, 300, 0), LoadExplicit(Can1, 0, Extended))
    ensures Overruns(Crowded(62, 264, 0), LoadFullCan(Can1, 0))
    ensures Overruns(Crowded(1, 504, 1), LoadGroup(Can1, 0, 0, Extended))
  {
    hide Overruns, Crowded;
    ExtLoadOverruns();
    FullCanLoadOverruns();
    ExtGroupLoadOverruns();
  }

  /** Removals have no such check: FullCAN entries and extended groups. */
  lemma RemoveAdmitsOverrun()
    ensures Overruns(Crowded(1, 508, 0), Remove(FullCan, 0))
    ensures Overruns(Crowded(0, 510, 1), Remove(GroupExt, 0))
  {
    hide Overruns, Crowded;
    FullCanRemovalOverruns();
    ExtGroupRemovalOverruns();
  }

  // ---------- reading the RAM back ----------

  function ReadHalves(s: seq<Word>, base: nat, n: nat): (hs: seq<Half>)
    requires base + Halfwords(n) <= |s|
    ensures |hs| == n
  {
    seq(n, i requires 0 <= i < n => if i % 2 == 0 then s[base + i / 2].hi else s[base + i / 2].lo)
  }

  // The table that RAM s holds when the five counters are those of t.
  function Decode(s: seq<Word>, fc: nat, st: nat, gs: nat, ex: nat, gx: nat): Table
    requires Halfwords(fc) + Halfwords(st) + gs + ex + 2 * gx + 3 * fc <= |s|
  {
    var a := Halfwords(fc);
    var b := a + Halfwords(st);
    var c := b + gs;
    var d := c + ex;
    var e := d + 2 * gx;
    Table(ReadHalves(s, 0, fc), ReadHalves(s, a, st), s[b..c], s[c..d], Unflatten(s[d..e]), s[e..e + 3 * fc])
  }

  lemma ReadPacked(s: seq<Word>, base: nat, hs: seq<Half>)
    requires base + Halfwords(|hs|) <= |s| && s[base..base + Halfwords(|hs|)] == PackHalves(hs)
    ensures ReadHalves(s, base, |hs|) == hs
  {
    forall i | 0 <= i < |hs| ensures ReadHalves(s, base, |hs|)[i] == hs[i] {
      SectionWord(s, base, PackHalves(hs), i / 2);
    }
  }

  lemma UnflattenFlatten(gs: seq<ExtGroup>)
    ensures Unflatten(Flatten(gs)) == gs
  {}

  // Where the six parts are.
  lemma PartsAt(s: seq<Word>, t: Table)
    requires Encode(t) <= s
    ensures Start(t, 5) + |t.objects| == Size(t) <= |s|
    ensures s[..Start(t, 1)] == PackHalves(t.fullCan) && s[Start(t, 1)..Start(t, 2)] == PackHalves(t.std)
    ensures s[Start(t, 2)..Start(t, 3)] == t.groups && s[Start(t, 3)..Start(t, 4)] == t.ext
    ensures s[Start(t, 4)..Start(t, 5)] == Flatten(t.extGroups) && s[Start(t, 5)..Size(t)] == t.objects
  {
    hide Encode, PackHalves, Flatten;
    PartAt(s, t, 0);
    PartAt(s, t, 1);
    PartAt(s, t, 2);
    PartAt(s, t, 3);
    PartAt(s, t, 4);
    PartAt(s, t, 5);
  }

  lemma DecodeFrom(s: seq<Word>, t: Table, a: nat, b: nat, c: nat, d: nat, e: nat)
    requires a == Halfwords(|t.fullCan|) && b == a + Halfwords(|t.std|)
    requires c == b + |t.groups| && d == c + |t.ext| && e == d + 2 * |t.extGroups|
    requires |t.objects| == 3 * |t.fullCan| && e + |t.objects| <= |s|
    requires s[0..a] == PackHalves(t.fullCan) && s[a..b] == PackHalves(t.std)
    requires s[b..c] == t.groups && s[c..d] == t.ext && s[d..e] == Flatten(t.extGroups)
    requires s[e..e + |t.objects|] == t.objects
    ensures Decode(s, |t.fullCan|, |t.std|, |t.groups|, |t.ext|, |t.extGroups|) == t
  {
    hide PackHalves, ReadHalves, Unflatten, Flatten;
    ReadPacked(s, 0, t.fullCan);
    ReadPacked(s, a, t.std);
    UnflattenFlatten(t.extGroups);
  }

  // The RAM determines the table: whatever table a RAM encodes is the one decoded from it.
  lemma DecodeEncoded(s: seq<Word>, t: Table)
    requires Encode(t) <= s && |t.objects| == 3 * |t.fullCan|
    ensures Size(t) <= |s|
    ensures Decode(s, |t.fullCan|, |t.std|, |t.groups|, |t.ext|, |t.extGroups|) == t
  {
    PartsAt(s, t);
    hide Encode, PackHalves, Unflatten, Flatten, Decode;
    assert s[0..Start(t, 1)] == s[..Start(t, 1)];
    DecodeFrom(s, t, Start(t, 1), Start(t, 2), Start(t, 3), Start(t, 4), Start(t, 5));
  }

  lemma PackedPad(s: seq<Word>, base: nat, hs: seq<Half>)
    requires hs != [] && base + Halfwords(|hs|) <= |s| && s[base..base + Halfwords(|hs|)] == PackHalves(hs)
    requires forall i :: 0 <= i < |hs| ==> hs[i] < PAD
    ensures s[base + Halfwords(|hs|) - 1].lo == PAD <==> |hs| % 2 == 1
  {
    SectionWord(s, base, PackHalves(hs), Halfwords(|hs|) - 1);
  }

  // In a well-formed table the low half of the last word of a halfword section is all ones exactly
  // when the section has an odd number of entries.
  lemma PadExactlyWhenOdd(s: seq<Word>, t: Table)
    requires Encode(t) <= s && WellFormed(t)
    ensures Start(t, 2) <= |s|
    ensures |t.fullCan| > 0 ==> (s[Start(t, 1) - 1].lo == 0xFFFF <==> |t.fullCan| % 2 == 1)
    ensures |t.std| > 0 ==> (s[Start(t, 2) - 1].lo == 0xFFFF <==> |t.std| % 2 == 1)
  {
    hide Encode, PackHalves, Halfwords, Size, Ascending, Values, Disjoint, StdRanges, ExtRanges, Flatten;
    PartsAt(s, t);
    assert s[0..Start(t, 1)] == s[..Start(t, 1)];
    assert Start(t, 1) == Halfwords(|t.fullCan|) && Start(t, 2) == Start(t, 1) + Halfwords(|t.std|);
    hide Start;
    if |t.fullCan| > 0 {
      PackedPad(s, 0, t.fullCan);
    }
    if |t.std| > 0 {
      PackedPad(s, Start(t, 1), t.std);
    }
  }
}

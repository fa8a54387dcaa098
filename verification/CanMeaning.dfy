/**
  The driver's calls in terms of what the hardware reads: which frames the entry of a load admits,
  which calls succeed, what one call does about another, and what the mode and start-address
  registers then say.  Entries are described here by their bit fields alone.
 */
module CanMeaning {
  import opened CanWords
  import opened CanSections
  import opened CanTable
  import opened CanRam
  import opened CanCalls
  import opened CanRuns
  import opened CanSetup

  // ---------- what an entry admits ----------

  // What the acceptance filter reads in a halfword entry: an enabled one admits the frames of this
  // controller and identifier, and keeps them in a message object or not.
  datatype Fields = Fields(ctrl: Controller, disabled: bool, kept: bool, id: nat)

  function BitOf(b: bool): nat { if b then 1 else 0 }

  // Bits 0 to 10, 11, 12 and 13 to 15.
  predicate Reads(h: Half, f: Fields) {
    && h % 0x800 == f.id
    && (h / 0x800) % 2 == BitOf(f.kept)
    && (h / 0x1000) % 2 == BitOf(f.disabled)
    && h / 0x2000 == BitOf(f.ctrl == Can2)
  }

  predicate Admits(h: Half, ctrl: Controller, id: nat, kept: bool) { Reads(h, Fields(ctrl, false, kept, id)) }

  // Bits 0 to 28 and 29 to 31.
  predicate AdmitsExt(w: Word, ctrl: Controller, id: nat) {
    w.Value() % 0x2000_0000 == id && w.Value() / 0x2000_0000 == BitOf(ctrl == Can2)
  }

  // An entry reads in one way only, and is determined by what it reads.
  lemma ReadsOnce(h: Half, h': Half, f: Fields, f': Fields)
    requires Reads(h, f)
    ensures Reads(h, f') <==> f' == f
    ensures Reads(h', f) <==> h' == h
  {}

  lemma AdmitsExtOnce(w: Word, w': Word, ctrl: Controller, id: nat, ctrl': Controller, id': nat)
    requires AdmitsExt(w, ctrl, id)
    ensures AdmitsExt(w, ctrl', id') <==> ctrl' == ctrl && id' == id
    ensures AdmitsExt(w', ctrl, id) <==> w' == w
  {
    if AdmitsExt(w', ctrl, id) {
      SameFields(w.Value(), w'.Value(), 0x2000_0000);
    }
  }

  lemma SameFields(a: nat, b: nat, m: nat)
    requires m > 0 && a / m == b / m && a % m == b % m
    ensures a == b
  {
    assert a == m * (a / m) + a % m && b == m * (b / m) + b % m;
  }

  lemma StdEntryReads(ctrl: Controller, id: nat)
    ensures Admits(StdEntry(ctrl, id), ctrl, id % 0x800, false)
  {}

  lemma FullCanEntryReads(ctrl: Controller, id: nat)
    ensures Admits(FullCanEntry(ctrl, id), ctrl, id % 0x800, true)
  {}

  lemma GroupEntryReads(ctrl: Controller, lower: nat, upper: nat)
    ensures var w := GroupEntry(ctrl, lower, upper);
            Admits(w.hi, ctrl, lower % 0x800, false) && Admits(w.lo, ctrl, upper % 0x800, false)
  {}

  lemma ExtGroupEntryReads(ctrl: Controller, lower: nat, upper: nat)
    ensures var g := ExtGroupEntry(ctrl, lower, upper);
            AdmitsExt(g.lower, ctrl, lower % 0x2000_0000) && AdmitsExt(g.upper, ctrl, upper % 0x2000_0000)
  {
    ExtFields(lower % 0x2000_0000, ctrl.Number());
    ExtFields(upper % 0x2000_0000, ctrl.Number());
  }

  lemma ExtFields(id: nat, ctrl: nat)
    requires id < 0x2000_0000 && ctrl <= 1
    ensures (id + ctrl * 0x2000_0000) % 0x2000_0000 == id && (id + ctrl * 0x2000_0000) / 0x2000_0000 == ctrl
  {
    if ctrl == 1 {
      assert id + ctrl * 0x2000_0000 - 0x2000_0000 == id;
    }
  }

  // The extended load takes the identifier whole and sets bit 29 for the second controller, so bits 29
  // to 31 of the identifier come through.
  predicate ReadsWhole(w: Word, ctrl: Controller, id: UInt32) {
    && w.Value() % 0x2000_0000 == id % 0x2000_0000
    && w.Value() / 0x4000_0000 == id / 0x4000_0000
    && ((w.Value() / 0x2000_0000) % 2 == 1 <==> ctrl == Can2 || (id / 0x2000_0000) % 2 == 1)
  }

  lemma ExtEntryReads(ctrl: Controller, id: UInt32)
    ensures ReadsWhole(ExtEntry(ctrl, id), ctrl, id)
    ensures AdmitsExt(ExtEntry(ctrl, id), ctrl, id % 0x2000_0000)
            <==> id < 0x2000_0000 || (ctrl == Can2 && id < 0x4000_0000)
  {
    TopBits(id);
    var v := ExtEntry(ctrl, id).Value();
    if v != id {
      TopBits(v);
      BitSet(id);
    }
  }

  lemma TopBits(v: UInt32)
    ensures v / 0x2000_0000 == 2 * (v / 0x4000_0000) + (v / 0x2000_0000) % 2
  {}

  lemma BitSet(id: UInt32)
    requires (id / 0x2000_0000) % 2 == 0
    ensures id + 0x2000_0000 < 0x1_0000_0000
    ensures (id + 0x2000_0000) % 0x2000_0000 == id % 0x2000_0000
    ensures (id + 0x2000_0000) / 0x2000_0000 == id / 0x2000_0000 + 1
    ensures (id + 0x2000_0000) / 0x4000_0000 == id / 0x4000_0000
  {}

  // ---------- loads ----------

  // r is s with one element more, at k.
  predicate OneMore<T(==)>(s: seq<T>, k: nat, r: seq<T>) {
    k < |r| == |s| + 1 && r[..k] == s[..k] && r[k + 1..] == s[k..]
  }

  lemma InsertedIsOneMore<T>(s: seq<T>, k: nat, x: T)
    requires k <= |s|
    ensures OneMore(s, k, InsertAt(s, k, x)) && InsertAt(s, k, x)[k] == x
  {}

  lemma OneMoreIs<T>(s: seq<T>, k: nat, r: seq<T>)
    requires OneMore(s, k, r)
    ensures RemoveAt(r, k) == s && r == InsertAt(s, k, r[k])
  {
    assert r == r[..k] + [r[k]] + r[k + 1..];
  }

  // A table of the driver and what memory holds behind it.
  predicate Given(t: Table, behind: seq<Word>) {
    |t.objects| == 3 * |t.fullCan| && RAM_WORDS <= Size(t) + |behind|
  }

  /** A standard load adds one entry, for this controller and the low eleven bits of the identifier. */
  lemma StdLoadAdmits(t: Table, ctrl: Controller, id: UInt32, behind: seq<Word>) returns (k: nat)
    requires Given(t, behind) && StatusOf(t, LoadExplicit(ctrl, id, Standard)) == Ok
    ensures var t' := TableAfter(t, LoadExplicit(ctrl, id, Standard), behind);
            && t' == t.(std := t'.std) && OneMore(t.std, k, t'.std)
            && Admits(t'.std[k], ctrl, id % 0x800, false)
            && (forall i :: 0 <= i < k ==> t.std[i] <= t'.std[k])
            && (k < |t.std| ==> t'.std[k] < t.std[k])
  {
    var entry := StdEntry(ctrl, id);
    k := FirstAbove(t.std, entry);
    StdEntryReads(ctrl, id);
    InsertedIsOneMore(t.std, k, entry);
    hide StdEntry, Reads, FirstAbove, InsertAt;
  }

  /** A FullCAN load adds one such entry that keeps its frames, and three words to the objects. */
  lemma FullCanLoadAdmits(t: Table, ctrl: Controller, id: UInt32, behind: seq<Word>) returns (k: nat)
    requires Given(t, behind) && StatusOf(t, LoadFullCan(ctrl, id)) == Ok
    ensures var t' := TableAfter(t, LoadFullCan(ctrl, id), behind);
            && t' == t.(fullCan := t'.fullCan, objects := t'.objects) && |t'.objects| == |t.objects| + 3
            && OneMore(t.fullCan, k, t'.fullCan) && Admits(t'.fullCan[k], ctrl, id % 0x800, true)
            && (forall i :: 0 <= i < k ==> t.fullCan[i] <= t'.fullCan[k])
            && (k < |t.fullCan| ==> t'.fullCan[k] < t.fullCan[k])
  {
    var entry := FullCanEntry(ctrl, id);
    k := FirstAbove(t.fullCan, entry);
    FullCanEntryReads(ctrl, id);
    InsertedIsOneMore(t.fullCan, k, entry);
    hide FullCanEntry, Reads, FirstAbove, InsertAt;
  }

  /**
    An extended load adds one entry, which admits this controller and the low 29 bits of the identifier
    exactly when the bits above say nothing else.
   */
  lemma ExtLoadAdmits(t: Table, ctrl: Controller, id: UInt32, behind: seq<Word>) returns (k: nat)
    requires Given(t, behind) && StatusOf(t, LoadExplicit(ctrl, id, Extended)) == Ok
    ensures var t' := TableAfter(t, LoadExplicit(ctrl, id, Extended), behind);
            && t' == t.(ext := t'.ext) && OneMore(t.ext, k, t'.ext) && ReadsWhole(t'.ext[k], ctrl, id)
            && (AdmitsExt(t'.ext[k], ctrl, id % 0x2000_0000)
                <==> id < 0x2000_0000 || (ctrl == Can2 && id < 0x4000_0000))
            && (forall i :: 0 <= i < k ==> t.ext[i].Value() <= t'.ext[k].Value())
            && (k < |t.ext| ==> t'.ext[k].Value() < t.ext[k].Value())
  {
    var entry := ExtEntry(ctrl, id);
    k := FirstAbove(Values(t.ext), entry.Value());
    ExtEntryReads(ctrl, id);
    InsertedIsOneMore(t.ext, k, entry);
    assert forall i :: 0 <= i < |t.ext| ==> Values(t.ext)[i] == t.ext[i].Value();
    hide ExtEntry, ReadsWhole, AdmitsExt, FirstAbove, InsertAt;
  }

  // With ranges in order, the slot of a group load is one where its range fits.
  predicate SlotIn(rs: seq<Range>, lower: nat, upper: nat, k: nat) {
    Disjoint(rs) && lower <= upper ==> Fits(rs, k, lower, upper)
  }

  lemma FoundSlotIn(rs: seq<Range>, lower: nat, upper: nat)
    requires FindSlot(rs, lower, upper).At?
    ensures SlotIn(rs, lower, upper, FindSlot(rs, lower, upper).index)
  {
    if Disjoint(rs) && lower <= upper {
      SlotFits(rs, lower, upper);
    }
  }

  /** A standard group load adds one range, of this controller, where it fits. */
  lemma GroupLoadAdmits(t: Table, ctrl: Controller, lower: UInt32, upper: UInt32, behind: seq<Word>) returns (k: nat)
    requires Given(t, behind) && StatusOf(t, LoadGroup(ctrl, lower, upper, Standard)) == Ok
    ensures var t' := TableAfter(t, LoadGroup(ctrl, lower, upper, Standard), behind);
            && OneMore(t.groups, k, t'.groups)
            && Admits(t'.groups[k].hi, ctrl, lower % 0x800, false)
            && Admits(t'.groups[k].lo, ctrl, upper % 0x800, false)
            && SlotIn(StdRanges(t.groups), lower % 0x800, upper % 0x800, k)
            && (t.groups != [] ==> t' == t.(groups := t'.groups))
  {
    var entry := GroupEntry(ctrl, lower, upper);
    k := GroupSlot(t, lower, upper, Standard).index;
    GroupEntryReads(ctrl, lower, upper);
    InsertedIsOneMore(t.groups, k, entry);
    hide GroupEntry, Reads, InsertAt, StdRanges, Disjoint, SlotIn, WithBehindGroups;
    if t.groups == [] {
      FirstSlotIn(lower % 0x800, upper % 0x800);
      assert StdRanges([]) == [];
      assert AddFirstGroup(t, entry, behind[0]).groups == [entry] == InsertAt([], 0, entry);
    } else {
      FoundSlotIn(StdRanges(t.groups), lower % 0x800, upper % 0x800);
    }
  }

  lemma FirstSlotIn(lower: nat, upper: nat)
    ensures SlotIn([], lower, upper, 0)
  {}

  /** The same for an extended group. */
  lemma ExtGroupLoadAdmits(t: Table, ctrl: Controller, lower: UInt32, upper: UInt32, behind: seq<Word>)
    returns (k: nat)
    requires Given(t, behind) && StatusOf(t, LoadGroup(ctrl, lower, upper, Extended)) == Ok
    ensures var t' := TableAfter(t, LoadGroup(ctrl, lower, upper, Extended), behind);
            && OneMore(t.extGroups, k, t'.extGroups)
            && AdmitsExt(t'.extGroups[k].lower, ctrl, lower % 0x2000_0000)
            && AdmitsExt(t'.extGroups[k].upper, ctrl, upper % 0x2000_0000)
            && SlotIn(ExtRanges(t.extGroups), lower % 0x2000_0000, upper % 0x2000_0000, k)
            && (t.extGroups != [] ==> t' == t.(extGroups := t'.extGroups))
  {
    var entry := ExtGroupEntry(ctrl, lower, upper);
    k := GroupSlot(t, lower, upper, Extended).index;
    ExtGroupEntryReads(ctrl, lower, upper);
    InsertedIsOneMore(t.extGroups, k, entry);
    hide ExtGroupEntry, AdmitsExt, InsertAt, ExtRanges, Disjoint, SlotIn;
    if t.extGroups == [] {
      FirstSlotIn(lower % 0x2000_0000, upper % 0x2000_0000);
      assert ExtRanges([]) == [];
      assert AddFirstExtGroup(t, entry, behind[..2]).extGroups == [entry] == InsertAt([], 0, entry);
    } else {
      FoundSlotIn(ExtRanges(t.extGroups), lower % 0x2000_0000, upper % 0x2000_0000);
    }
  }

  /** What the entries of a table set up from lists read as. */
  lemma SetUpAdmits(l: Lists, objects: seq<Word>)
    ensures var t := TableOf(l, objects);
            && |t.fullCan| == |l.FullCan()| && |t.std| == |l.std| && |t.groups| == |l.groups|
            && |t.ext| == |l.ext| && |t.extGroups| == |l.extGroups|
            && (forall i :: 0 <= i < |t.fullCan| ==> ReadsDef(t.fullCan[i], l.FullCan()[i], true))
            && (forall i :: 0 <= i < |t.std| ==> ReadsDef(t.std[i], l.std[i], false))
            && (forall i :: 0 <= i < |t.groups| ==>
                  ReadsDef(t.groups[i].hi, l.groups[i].lower, false)
                      && ReadsDef(t.groups[i].lo, l.groups[i].upper, false))
            && (forall i :: 0 <= i < |t.ext| ==> AdmitsExt(t.ext[i], l.ext[i].ctrl, l.ext[i].id))
            && (forall i :: 0 <= i < |t.extGroups| ==>
                  AdmitsExt(t.extGroups[i].lower, l.extGroups[i].lower.ctrl, l.extGroups[i].lower.id)
                      && AdmitsExt(t.extGroups[i].upper, l.extGroups[i].upper.ctrl, l.extGroups[i].upper.id))
  {
    forall d: StdDef ensures ReadsDef(DefHalf(d, 0), d, false) && ReadsDef(DefHalf(d, 0x800), d, true) {
      DefReads(d);
    }
    forall d: ExtDef ensures AdmitsExt(DefWord(d), d.ctrl, d.id) {
      ExtFields(d.id, d.ctrl.Number());
    }
    hide DefHalf, DefWord, ReadsDef, AdmitsExt;
  }

  predicate ReadsDef(h: Half, d: StdDef, kept: bool) { Reads(h, Fields(d.ctrl, d.disable, kept, d.id)) }

  lemma DefReads(d: StdDef)
    ensures ReadsDef(DefHalf(d, 0), d, false) && ReadsDef(DefHalf(d, 0x800), d, true)
  {}

  // ---------- which calls succeed ----------

  /** Loads without ranges fail for want of room only. */
  lemma LoadSucceedsIff(t: Table, ctrl: Controller, id: UInt32, format: IdFormat)
    ensures StatusOf(t, LoadExplicit(ctrl, id, format)) == if |Encode(t)| < 512 then Ok else ObjectsFull
    ensures StatusOf(t, LoadFullCan(ctrl, id))
         == if |Encode(t)| < 508 && |t.fullCan| < 64 then Ok else ObjectsFull
  {
    StartIs(t, 0);
  }

  // How a group load ends: ends the wrong way round, no room, or, from the second group of its kind on,
  // a place for the range or none.
  ghost predicate GroupOutcome(status: CanError, backwards: bool, room: bool, rs: seq<Range>, lower: nat, upper: nat) {
    if backwards then status == ConflictId
    else if !room then status == ObjectsFull
    else if rs == [] then status == Ok
    else if exists k: nat :: Fits(rs, k, lower, upper) then status == Ok
    else status == ConflictId
  }

  lemma GroupLoadSucceedsIff(t: Table, ctrl: Controller, lower: UInt32, upper: UInt32)
    requires Disjoint(StdRanges(t.groups)) && lower % 0x800 <= upper % 0x800
    ensures GroupOutcome(StatusOf(t, LoadGroup(ctrl, lower, upper, Standard)), upper < lower, |Encode(t)| < 512,
        StdRanges(t.groups), lower % 0x800, upper % 0x800)
  {
    StartIs(t, 0);
    GroupLoadMeaning(StdRanges(t.groups), lower % 0x800, upper % 0x800);
    hide FindSlot, Disjoint, Fits, Size, Encode;
  }

  lemma ExtGroupLoadSucceedsIff(t: Table, ctrl: Controller, lower: UInt32, upper: UInt32)
    requires Disjoint(ExtRanges(t.extGroups)) && lower % 0x2000_0000 <= upper % 0x2000_0000
    ensures GroupOutcome(StatusOf(t, LoadGroup(ctrl, lower, upper, Extended)), upper < lower, |Encode(t)| + 2 <= 512,
        ExtRanges(t.extGroups), lower % 0x2000_0000, upper % 0x2000_0000)
  {
    StartIs(t, 0);
    GroupLoadMeaning(ExtRanges(t.extGroups), lower % 0x2000_0000, upper % 0x2000_0000);
    hide FindSlot, Disjoint, Fits, Size, Encode;
  }

  // t' is t with one element fewer in this section.
  predicate OneLess(t: Table, e: EntryType, t': Table) {
    match e
    case FullCan =>
      t' == t.(fullCan := t'.fullCan, objects := t'.objects) && |t'.fullCan| == |t.fullCan| - 1
          && |t'.objects| == |t.objects| - 3
    case ExplicitStd => t' == t.(std := t'.std) && |t'.std| == |t.std| - 1
    case GroupStd => t' == t.(groups := t'.groups) && |t'.groups| == |t.groups| - 1
    case ExplicitExt => t' == t.(ext := t'.ext) && |t'.ext| == |t.ext| - 1
    case GroupExt => t' == t.(extGroups := t'.extGroups) && |t'.extGroups| == |t.extGroups| - 1
  }

  // Position p is in this section.
  predicate Present(t: Table, e: EntryType, p: nat) {
    match e
    case FullCan => p < |t.fullCan|
    case ExplicitStd => p < |t.std|
    case GroupStd => p < |t.groups|
    case ExplicitExt => p < |t.ext|
    case GroupExt => p < |t.extGroups|
  }

  /** Every entry there is can be removed, and no other; its section is then one shorter. */
  lemma RemovalSucceedsIff(t: Table, e: EntryType, p: nat, behind: seq<Word>)
    requires Given(t, behind)
    ensures StatusOf(t, Remove(e, p)) == if Present(t, e, p) then Ok else EntryNotExist
    ensures var t' := TableAfter(t, Remove(e, p), behind);
            if Present(t, e, p) then OneLess(t, e, t') else t' == t
  {
    hide RemoveHalf, CloseObjectAt;
  }

  // The element gone is the one asked for, always in the sections of whole words and, in those of
  // halfwords, at even positions and from even lengths.
  lemma RemovalTakes(t: Table, e: EntryType, p: nat, behind: seq<Word>)
    requires Given(t, behind) && Present(t, e, p)
    ensures var t' := TableAfter(t, Remove(e, p), behind);
            match e
            case FullCan => p % 2 == 0 || |t.fullCan| % 2 == 0 ==> OneMore(t'.fullCan, p, t.fullCan)
            case ExplicitStd => p % 2 == 0 || |t.std| % 2 == 0 ==> OneMore(t'.std, p, t.std)
            case GroupStd => OneMore(t'.groups, p, t.groups)
            case ExplicitExt => OneMore(t'.ext, p, t.ext)
            case GroupExt => OneMore(t'.extGroups, p, t.extGroups)
  {
  }

  // From an odd position of an odd length, all but the last element are as they should be.
  lemma OddRemovalLeaves(hs: seq<Half>, p: nat)
    requires p < |hs| && p % 2 == 1 && |hs| % 2 == 1
    ensures RemoveHalf(hs, p) == (hs[..p] + hs[p + 1..])[|hs| - 2 := if p == |hs| - 2 then hs[p] else 0]
  {}

  // ---------- one call and another ----------

  /** Loading a standard identifier and removing it: both calls succeed, and when the table is as before. */
  lemma StdLoadThenRemove(t: Table, ctrl: Controller, id: UInt32, behind: seq<Word>, behind': seq<Word>)
    returns (k: nat)
    requires Given(t, behind) && StatusOf(t, LoadExplicit(ctrl, id, Standard)) == Ok
    requires Given(TableAfter(t, LoadExplicit(ctrl, id, Standard), behind), behind')
    ensures var t' := TableAfter(t, LoadExplicit(ctrl, id, Standard), behind);
            && OneMore(t.std, k, t'.std) && Admits(t'.std[k], ctrl, id % 0x800, false)
            && StatusOf(t', Remove(ExplicitStd, k)) == Ok
            && (TableAfter(t', Remove(ExplicitStd, k), behind') == t
                <==> k % 2 == 0 || |t.std| % 2 == 1
                     || t.std[|t.std| - 1] == if k == |t.std| - 1 then t'.std[k] else 0)
  {
    k := StdLoadAdmits(t, ctrl, id, behind);
    var t' := TableAfter(t, LoadExplicit(ctrl, id, Standard), behind);
    FirstAboveIs(t.std, StdEntry(ctrl, id), FirstAbove(t.std, StdEntry(ctrl, id)));
    var e := t'.std[k];
    OneMoreIs(t.std, k, t'.std);
    FirstAboveIs(t.std, e, k);
    LoadRemoveStd(t, e);
    assert AddStd(t, e) == t';
    hide StdEntry, Reads, FirstAbove, InsertAt, RemoveAt, RemoveHalf;
  }

  /** The same for an extended identifier: the table is as before, always. */
  lemma ExtLoadThenRemove(t: Table, ctrl: Controller, id: UInt32, behind: seq<Word>, behind': seq<Word>)
    returns (k: nat)
    requires Given(t, behind) && StatusOf(t, LoadExplicit(ctrl, id, Extended)) == Ok
    requires Given(TableAfter(t, LoadExplicit(ctrl, id, Extended), behind), behind')
    ensures var t' := TableAfter(t, LoadExplicit(ctrl, id, Extended), behind);
            && OneMore(t.ext, k, t'.ext) && ReadsWhole(t'.ext[k], ctrl, id)
            && StatusOf(t', Remove(ExplicitExt, k)) == Ok
            && TableAfter(t', Remove(ExplicitExt, k), behind') == t
  {
    k := ExtLoadAdmits(t, ctrl, id, behind);
    OneMoreIs(t.ext, k, TableAfter(t, LoadExplicit(ctrl, id, Extended), behind).ext);
    hide AddExt, ReadsWhole, RemoveAt;
  }

  /** The same for a group, from the second of its kind on. */
  lemma GroupLoadThenRemove(t: Table, ctrl: Controller, lower: UInt32, upper: UInt32, behind: seq<Word>,
      behind': seq<Word>) returns (k: nat)
    requires Given(t, behind) && StatusOf(t, LoadGroup(ctrl, lower, upper, Standard)) == Ok && t.groups != []
    requires Given(TableAfter(t, LoadGroup(ctrl, lower, upper, Standard), behind), behind')
    ensures var t' := TableAfter(t, LoadGroup(ctrl, lower, upper, Standard), behind);
            && OneMore(t.groups, k, t'.groups) && StatusOf(t', Remove(GroupStd, k)) == Ok
            && TableAfter(t', Remove(GroupStd, k), behind') == t
  {
    k := GroupLoadAdmits(t, ctrl, lower, upper, behind);
    OneMoreIs(t.groups, k, TableAfter(t, LoadGroup(ctrl, lower, upper, Standard), behind).groups);
    hide LoadedStdGroup, Admits, RemoveAt;
  }

  lemma ExtGroupLoadThenRemove(t: Table, ctrl: Controller, lower: UInt32, upper: UInt32, behind: seq<Word>,
      behind': seq<Word>) returns (k: nat)
    requires Given(t, behind) && StatusOf(t, LoadGroup(ctrl, lower, upper, Extended)) == Ok && t.extGroups != []
    requires Given(TableAfter(t, LoadGroup(ctrl, lower, upper, Extended), behind), behind')
    ensures var t' := TableAfter(t, LoadGroup(ctrl, lower, upper, Extended), behind);
            && OneMore(t.extGroups, k, t'.extGroups) && StatusOf(t', Remove(GroupExt, k)) == Ok
            && TableAfter(t', Remove(GroupExt, k), behind') == t
  {
    k := ExtGroupLoadAdmits(t, ctrl, lower, upper, behind);
    OneMoreIs(t.extGroups, k, TableAfter(t, LoadGroup(ctrl, lower, upper, Extended), behind).extGroups);
    hide LoadedExtGroup, AdmitsExt, RemoveAt;
  }

  // Every call of the run succeeds.
  ghost predicate AllOk(t: Table, run: seq<Step>)
    requires IntendedRun(t, run)
    decreases |run|
  {
    run != [] ==>
      && StatusOf(t, run[0].call) == Ok
      && AllOk(TableAfter(t, run[0].call, run[0].behind), run[1..])
  }

  /** As many removals from the front as a section has entries all succeed, and empty it. */
  lemma {:induction false} RemovalsEmpty(t: Table, e: EntryType, run: seq<Step>)
    requires |t.objects| == 3 * |t.fullCan|
    requires |run| == match e
      case FullCan => |t.fullCan|
      case ExplicitStd => |t.std|
      case GroupStd => |t.groups|
      case ExplicitExt => |t.ext|
      case GroupExt => |t.extGroups|
    requires forall i :: 0 <= i < |run| ==> run[i].call == Remove(e, 0) && RAM_WORDS <= |run[i].behind|
    ensures IntendedRun(t, run) && AllOk(t, run)
    ensures RunFrom(t, run) == match e
      case FullCan => t.(fullCan := [], objects := [])
      case ExplicitStd => t.(std := [])
      case GroupStd => t.(groups := [])
      case ExplicitExt => t.(ext := [])
      case GroupExt => t.(extGroups := [])
    decreases |run|
  {
    if run != [] {
      RemovalSucceedsIff(t, e, 0, run[0].behind);
      assert Present(t, e, 0);
      var t' := TableAfter(t, Remove(e, 0), run[0].behind);
      hide TableAfter, StatusOf;
      RemovalsEmpty(t', e, run[1..]);
    }
  }

  // ---------- the mode register ----------

  /**
    Zero switches the filter on, four does so with FullCAN, one switches it off.  It is on after every
    call that succeeds, and with FullCAN whenever there is a FullCAN entry; it is off after a removal,
    or a group load with its ends the right way round, that fails; and any other failure leaves it.
   */
  lemma ModeAfter(afmr: UInt32, t: Table, call: Call, behind: seq<Word>)
    requires Given(t, behind)
    ensures var m := AfmrAfter(afmr, t, call);
            if StatusOf(t, call) == Ok
            then (m == 0 || m == 4) && (m == 0 <==> call.LoadExplicit? && |TableAfter(t, call, behind).fullCan| == 0)
            else m == match call
              case Remove(_, _) => 1
              case LoadGroup(_, lower, upper, _) => if upper < lower then afmr else 1
              case _ => afmr
  {
    hide AddStd, AddExt;
  }

  // ---------- the start-address registers over a run ----------

  // A load into an odd halfword section, which needs no new word.
  predicate OddLoad(t: Table, call: Call, fullCan: bool) {
    && StatusOf(t, call) == Ok
    && if fullCan then call.LoadFullCan? && |t.fullCan| % 2 == 1
       else call.LoadExplicit? && call.format == Standard && |t.std| % 2 == 1
  }

  ghost function OddLoads(t: Table, run: seq<Step>, fullCan: bool): nat
    requires IntendedRun(t, run)
    decreases |run|
  {
    if run == [] then 0
    else BitOf(OddLoad(t, run[0].call, fullCan))
         + OddLoads(TableAfter(t, run[0].call, run[0].behind), run[1..], fullCan)
  }

  ghost function StartsFrom(r: Registers, t: Table, run: seq<Step>): Registers
    requires IntendedRun(t, run)
    decreases |run|
  {
    if run == [] then r
    else StartsFrom(StartsAfter(r, t, run[0].call), TableAfter(t, run[0].call, run[0].behind), run[1..])
  }

  // The registers stand so many bytes beyond the start of part 1, and so many beyond those of parts 2 to 5.
  predicate Beyond(r: Registers, t: Table, first: int, others: int) {
    && r.sffSa == 4 * Start(t, 1) + first && r.sffGrpSa == 4 * Start(t, 2) + others
    && r.effSa == 4 * Start(t, 3) + others && r.effGrpSa == 4 * Start(t, 4) + others
    && r.endOfTable == 4 * Start(t, 5) + others
  }

  // What one call does to registers that may be off already.
  lemma BeyondStep(r: Registers, t: Table, call: Call, behind: seq<Word>, first: int, others: int)
    requires Given(t, behind) && Beyond(r, t, first, others)
    ensures Beyond(StartsAfter(r, t, call), TableAfter(t, call, behind),
                   first + 4 * BitOf(OddLoad(t, call, true)),
                   others + 4 * BitOf(OddLoad(t, call, true)) + 4 * BitOf(OddLoad(t, call, false)))
  {
    if OddLoad(t, call, true) {
      OddFullCanBeyond(r, t, call, behind, first, others);
    } else if OddLoad(t, call, false) {
      OddStdBeyond(r, t, call, behind, first, others);
    } else {
      RegistersRightIff(t, call, behind);
      SameMoves(r, StartsOf(t), t, call);
      hide TableAfter, StartsAfter, Start;
    }
  }

  // A call moves the registers by what it moves them, wherever they stand.
  lemma SameMoves(r: Registers, q: Registers, t: Table, call: Call)
    ensures var r', q' := StartsAfter(r, t, call), StartsAfter(q, t, call);
            && r'.sffSa - r.sffSa == q'.sffSa - q.sffSa && r'.sffGrpSa - r.sffGrpSa == q'.sffGrpSa - q.sffGrpSa
            && r'.effSa - r.effSa == q'.effSa - q.effSa && r'.effGrpSa - r.effGrpSa == q'.effGrpSa - q.effGrpSa
            && r'.endOfTable - r.endOfTable == q'.endOfTable - q.endOfTable
  {
    hide StatusOf;
  }

  lemma OddFullCanBeyond(r: Registers, t: Table, call: Call, behind: seq<Word>, first: int, others: int)
    requires Given(t, behind) && Beyond(r, t, first, others) && OddLoad(t, call, true)
    ensures Beyond(StartsAfter(r, t, call), TableAfter(t, call, behind), first + 4, others + 4)
  {
    hide AddFullCan;
  }

  lemma OddStdBeyond(r: Registers, t: Table, call: Call, behind: seq<Word>, first: int, others: int)
    requires Given(t, behind) && Beyond(r, t, first, others) && OddLoad(t, call, false)
    ensures Beyond(StartsAfter(r, t, call), TableAfter(t, call, behind), first, others + 4)
  {
    hide AddStd;
  }

  lemma FirstStep(r: Registers, t: Table, run: seq<Step>)
    requires run != [] && IntendedRun(t, run)
    ensures Given(t, run[0].behind) && IntendedRun(TableAfter(t, run[0].call, run[0].behind), run[1..])
    ensures var t', r' := TableAfter(t, run[0].call, run[0].behind), StartsAfter(r, t, run[0].call);
            && RunFrom(t, run) == RunFrom(t', run[1..]) && StartsFrom(r, t, run) == StartsFrom(r', t', run[1..])
            && OddLoads(t, run, true) == BitOf(OddLoad(t, run[0].call, true)) + OddLoads(t', run[1..], true)
            && OddLoads(t, run, false) == BitOf(OddLoad(t, run[0].call, false)) + OddLoads(t', run[1..], false)
  {
    hide TableAfter, StartsAfter, Intended, OddLoad;
  }

  /**
    After any run the start-address registers are off by four bytes for every load into an odd section:
    all five for FullCAN loads, all but the first for standard ones.  Nothing ever makes up for it.
   */
  lemma {:induction false} RunDrift(r: Registers, t: Table, run: seq<Step>, first: int, others: int)
    requires IntendedRun(t, run) && Beyond(r, t, first, others)
    ensures Beyond(StartsFrom(r, t, run), RunFrom(t, run),
                   first + 4 * OddLoads(t, run, true),
                   others + 4 * OddLoads(t, run, true) + 4 * OddLoads(t, run, false))
    decreases |run|
  {
    if run != [] {
      FirstStep(r, t, run);
      var call, behind := run[0].call, run[0].behind;
      hide IntendedRun, RunFrom, StartsFrom, OddLoads, Beyond, StartsAfter, TableAfter, OddLoad, BitOf, Size;
      BeyondStep(r, t, call, behind, first, others);
      var a, b := BitOf(OddLoad(t, call, true)), BitOf(OddLoad(t, call, false));
      RunDrift(StartsAfter(r, t, call), TableAfter(t, call, behind), run[1..], first + 4 * a, others + 4 * a + 4 * b);
    }
  }
}

/**
  Filling the look-up table from five caller-given lists.  Each section is a loop that refuses an entry
  for want of room or because the identifier read back from the entry before it, cut down to a compare
  mask, is larger.
 */
module CanSetup {
  import opened CanWords
  import opened CanTable
  import opened CanRam
  import opened CanCalls

  type Id11Bits = x: int | 0 <= x < 0x800
  type Id29Bits = x: int | 0 <= x < 0x2000_0000

  // An entry of the FullCAN or standard list, of the extended list, and of the two group lists.
  datatype StdDef = StdDef(ctrl: Controller, disable: bool, id: Id11Bits)
  datatype ExtDef = ExtDef(ctrl: Controller, id: Id29Bits)
  datatype GroupDef = GroupDef(lower: StdDef, upper: StdDef)
  datatype ExtGroupDef = ExtGroupDef(lower: ExtDef, upper: ExtDef)

  // lpc17xx_can.c:319,266 : controller, disable bit, FullCAN flag and identifier.
  function DefHalf(d: StdDef, flag: Half): Half
    requires flag == 0 || flag == 0x800
  {
    d.ctrl.Number() * 0x2000 + (if d.disable then 0x1000 else 0) + flag + d.id
  }

  function DefWord(d: ExtDef): Word { WordOf(d.ctrl.Number() * 0x2000_0000 + d.id) }

  function DefHalves(ds: seq<StdDef>, flag: Half): (hs: seq<Half>)
    requires flag == 0 || flag == 0x800
    ensures |hs| == |ds|
  {
    seq(|ds|, i requires 0 <= i < |ds| => DefHalf(ds[i], flag))
  }

  function DefGroup(d: GroupDef): Word { Word(DefHalf(d.lower, 0), DefHalf(d.upper, 0)) }

  function DefGroups(ds: seq<GroupDef>): (ws: seq<Word>)
    ensures |ws| == |ds|
  {
    seq(|ds|, i requires 0 <= i < |ds| => DefGroup(ds[i]))
  }

  function DefWords(ds: seq<ExtDef>): (ws: seq<Word>)
    ensures |ws| == |ds|
  {
    seq(|ds|, i requires 0 <= i < |ds| => DefWord(ds[i]))
  }

  function DefExtGroup(d: ExtGroupDef): ExtGroup { ExtGroup(DefWord(d.lower), DefWord(d.upper)) }

  function DefExtGroups(ds: seq<ExtGroupDef>): (gs: seq<ExtGroup>)
    ensures |gs| == |ds|
  {
    seq(|ds|, i requires 0 <= i < |ds| => DefExtGroup(ds[i]))
  }

  // The part of an entry that the next identifier is compared with.
  function HalfKey(h: Half, mask: nat): nat
    requires mask == 0x400 || mask == 0x1000
  {
    h % mask
  }

  function WordKey(w: Word): nat { w.Value() % 0x1000_0000 }

  // ---------- where a section stops ----------

  // keys[i] is what entry i is read back as, ids[i] what it is compared by.
  predicate InOrder(keys: seq<nat>, ids: seq<nat>, n: nat)
    requires n <= |keys| == |ids|
  {
    forall k :: 0 < k < n ==> keys[k - 1] <= ids[k]
  }

  // The loop takes entries until one does not fit or comes out of order; room is tested first.
  predicate Stopped(keys: seq<nat>, ids: seq<nat>, fits: nat, status: CanError, done: nat)
    requires |keys| == |ids|
  {
    && done <= |ids| && done <= fits && InOrder(keys, ids, done)
    && match status
       case Ok => done == |ids|
       case ObjectsFull => done < |ids| && done == fits
       case TableOrder => 0 < done < |ids| && done < fits && keys[done - 1] > ids[done]
       case _ => false
  }

  /** A section ends in one way: the first entry at fault decides. */
  lemma StoppedOnce(keys: seq<nat>, ids: seq<nat>, fits: nat, status: CanError, done: nat, status': CanError,
      done': nat)
    requires |keys| == |ids|
    requires Stopped(keys, ids, fits, status, done) && Stopped(keys, ids, fits, status', done')
    ensures status == status' && done == done'
  {
  }

  // ---------- two entries per word ----------

  function HalfKeys(hs: seq<Half>, mask: nat): (ks: seq<nat>)
    requires mask == 0x400 || mask == 0x1000
    ensures |ks| == |hs|
  {
    seq(|hs|, i requires 0 <= i < |hs| => HalfKey(hs[i], mask))
  }

  function DefIds(ds: seq<StdDef>): (ids: seq<nat>)
    ensures |ids| == |ds|
  {
    seq(|ds|, i requires 0 <= i < |ds| => ds[i].id)
  }

  // Entries that fit in the words from base up to cap.
  function HalvesFit(base: nat, cap: nat): nat { if base < cap then 2 * (cap - base) else 0 }

  // Word j once the first n halves are stored from base on; a half not stored keeps what it held.
  function StoredWord(was: seq<Word>, base: nat, hs: seq<Half>, n: nat, j: nat): Word
    requires n <= |hs| && j < |was|
  {
    if base <= j && 2 * (j - base) < n
    then Word(hs[2 * (j - base)], if 2 * (j - base) + 1 < n then hs[2 * (j - base) + 1] else was[j].lo)
    else was[j]
  }

  ghost predicate HalvesStored(was: seq<Word>, now: seq<Word>, base: nat, hs: seq<Half>, n: nat)
    requires n <= |hs|
  {
    |now| == |was| && forall j {:trigger now[j]} :: 0 <= j < |was| ==> now[j] == StoredWord(was, base, hs, n, j)
  }

  function StoreHalves(was: seq<Word>, base: nat, hs: seq<Half>, n: nat): (now: seq<Word>)
    requires n <= |hs|
    ensures |now| == |was|
  {
    seq(|was|, j requires 0 <= j < |was| => StoredWord(was, base, hs, n, j))
  }

  // lpc17xx_can.c:255-284 and 308-337 : the next half goes high into a new word or low into the last.
  method StoreHalf(ram: array<Word>, entry: Half, id: Id11Bits, mask: nat, done: nat, count: nat,
                   ghost was: seq<Word>, ghost base: nat, ghost hs: seq<Half>) returns (inOrder: bool, next: nat)
    requires (mask == 0x400 || mask == 0x1000) && done < |hs| && hs[done] == entry
    requires base <= count < ram.Length && done == 2 * (count - base) + done % 2
    requires HalvesStored(was, ram[..], base, hs, done)
    modifies ram
    ensures inOrder <==> done == 0 || HalfKey(hs[done - 1], mask) <= id
    ensures inOrder ==> next == count + done % 2 && HalvesStored(was, ram[..], base, hs, done + 1)
    ensures !inOrder ==> next == count && HalvesStored(was, ram[..], base, hs, done)
  {
    hide HalfKey;
    if done % 2 == 0 {
      if done != 0 && HalfKey(ram[count - 1].lo, mask) > id {
        return false, count;
      }
      ram[count] := Word(entry, ram[count].lo);
      next := count;
    } else {
      if HalfKey(ram[count].hi, mask) > id {
        return false, count;
      }
      ram[count] := Word(ram[count].hi, entry);
      next := count + 1;
    }
    inOrder := true;
  }

  // lpc17xx_can.c:241-286 and 292-339
  method SetupHalves(ram: array<Word>, base: nat, ds: seq<StdDef>, flag: Half, mask: nat, cap: nat)
    returns (status: CanError, done: nat, count: nat)
    requires (flag == 0 || flag == 0x800) && (mask == 0x400 || mask == 0x1000) && cap <= ram.Length
    modifies ram
    ensures Stopped(HalfKeys(DefHalves(ds, flag), mask), DefIds(ds), HalvesFit(base, cap), status, done)
    ensures done <= |ds| && done <= HalvesFit(base, cap) && (status == Ok ==> done == |ds|)
    ensures count == base + done / 2
    ensures ram[..] == StoreHalves(old(ram[..]), base, DefHalves(ds, flag), done)
  {
    hide HalvesStored, HalfKey, StoreHalves;
    ghost var was, hs := ram[..], DefHalves(ds, flag);
    status, done, count := Ok, 0, base;
    assert HalvesStored(was, ram[..], base, hs, 0) by { NothingStored(was, base, hs); }
    while done < |ds|
      invariant done <= |ds| && base <= count && done == 2 * (count - base) + done % 2
      invariant done <= HalvesFit(base, cap) && InOrder(HalfKeys(hs, mask), DefIds(ds), done)
      invariant HalvesStored(was, ram[..], base, hs, done)
    {
      HalvesStoredIs(was, ram[..], base, hs, done);
      if count + 1 > cap {
        return ObjectsFull, done, count;
      }
      var inOrder;
      inOrder, count := StoreHalf(ram, DefHalf(ds[done], flag), ds[done].id, mask, done, count, was, base, hs);
      if !inOrder {
        HalvesStoredIs(was, ram[..], base, hs, done);
        return TableOrder, done, count;
      }
      done := done + 1;
    }
    HalvesStoredIs(was, ram[..], base, hs, done);
  }

  lemma HalvesStoredIs(was: seq<Word>, now: seq<Word>, base: nat, hs: seq<Half>, n: nat)
    requires n <= |hs| && HalvesStored(was, now, base, hs, n)
    ensures now == StoreHalves(was, base, hs, n)
  {}

  lemma NoHalves(was: seq<Word>, base: nat, hs: seq<Half>)
    ensures StoreHalves(was, base, hs, 0) == was
  {}

  lemma NothingStored(was: seq<Word>, base: nat, hs: seq<Half>)
    ensures HalvesStored(was, was, base, hs, 0)
  {}

  /** An even list fills whole words, and those only. */
  lemma EvenHalvesPack(was: seq<Word>, base: nat, hs: seq<Half>)
    requires |hs| % 2 == 0 && base + |hs| / 2 <= |was|
    ensures StoreHalves(was, base, hs, |hs|) == Overwrite(was, base, PackHalves(hs))
  {
    var n, ws := |hs| / 2, PackHalves(hs);
    forall j | 0 <= j < |was| ensures StoredWord(was, base, hs, |hs|, j) == Overwrite(was, base, ws)[j] {
      if base <= j < base + n {
        assert ws[j - base] == Word(hs[2 * (j - base)], hs[2 * (j - base) + 1]);
      }
    }
  }

  // ---------- whole words ----------

  function GroupKeys(ws: seq<Word>): (ks: seq<nat>)
    ensures |ks| == |ws|
  {
    seq(|ws|, i requires 0 <= i < |ws| => HalfKey(ws[i].lo, 0x1000))
  }

  function GroupIds(ds: seq<GroupDef>): (ids: seq<nat>)
    ensures |ids| == |ds|
  {
    seq(|ds|, i requires 0 <= i < |ds| => ds[i].lower.id)
  }

  function ExtKeys(ws: seq<Word>): (ks: seq<nat>)
    ensures |ks| == |ws|
  {
    seq(|ws|, i requires 0 <= i < |ws| => WordKey(ws[i]))
  }

  function ExtIds(ds: seq<ExtDef>): (ids: seq<nat>)
    ensures |ids| == |ds|
  {
    seq(|ds|, i requires 0 <= i < |ds| => ds[i].id)
  }

  function ExtGroupKeys(gs: seq<ExtGroup>): (ks: seq<nat>)
    ensures |ks| == |gs|
  {
    seq(|gs|, i requires 0 <= i < |gs| => WordKey(gs[i].upper))
  }

  function ExtGroupIds(ds: seq<ExtGroupDef>): (ids: seq<nat>)
    ensures |ids| == |ds|
  {
    seq(|ds|, i requires 0 <= i < |ds| => ds[i].lower.id)
  }

  function WordsFit(base: nat, cap: nat, d: nat): nat
    requires d > 0
  {
    if base < cap then (cap - base) / d else 0
  }

  // One word more onto a run of words being written.
  lemma OverwriteOneMore(was: seq<Word>, base: nat, ws: seq<Word>, x: Word)
    requires base + |ws| < |was|
    ensures Overwrite(was, base, ws)[base + |ws| := x] == Overwrite(was, base, ws + [x])
  {}

  lemma FlattenOneMore(gs: seq<ExtGroup>, g: ExtGroup)
    ensures Flatten(gs + [g]) == Flatten(gs) + [g.lower, g.upper]
  {}

  // lpc17xx_can.c:343-383
  method SetupGroups(ram: array<Word>, base: nat, ds: seq<GroupDef>, cap: nat)
      returns (status: CanError, done: nat, count: nat)
    requires base <= cap <= ram.Length
    modifies ram
    ensures Stopped(GroupKeys(DefGroups(ds)), GroupIds(ds), WordsFit(base, cap, 1), status, done)
    ensures done <= |ds| && (status == Ok ==> done == |ds|)
    ensures count == base + done <= cap && ram[..] == Overwrite(old(ram[..]), base, DefGroups(ds)[..done])
  {
    hide HalfKey, DefGroup, Overwrite;
    ghost var was, ws := ram[..], DefGroups(ds);
    status, done, count := Ok, 0, base;
    OverwriteNothing(was, base, ws);
    while done < |ds|
      invariant done <= |ds| && count == base + done <= cap
      invariant InOrder(GroupKeys(ws), GroupIds(ds), done)
      invariant ram[..] == Overwrite(was, base, ws[..done])
    {
      if count + 1 > cap {
        return ObjectsFull, done, count;
      }
      LastWritten(was, base, ws, done);
      if done != 0 && HalfKey(ram[count - 1].lo, 0x1000) > ds[done].lower.id {
        return TableOrder, done, count;
      }
      ram[count] := DefGroup(ds[done]);
      OverwriteOneMore(was, base, ws[..done], ws[done]);
      assert ws[..done + 1] == ws[..done] + [ws[done]];
      count, done := count + 1, done + 1;
    }
  }

  lemma OverwriteNothing(was: seq<Word>, base: nat, ws: seq<Word>)
    requires base <= |was|
    ensures Overwrite(was, base, ws[..0]) == was
  {}

  lemma LastWritten(was: seq<Word>, base: nat, ws: seq<Word>, n: nat)
    requires n <= |ws| && base + n <= |was|
    ensures n > 0 ==> Overwrite(was, base, ws[..n])[base + n - 1] == ws[n - 1]
  {}

  // lpc17xx_can.c:386-417
  method SetupExt(ram: array<Word>, base: nat, ds: seq<ExtDef>, cap: nat)
      returns (status: CanError, done: nat, count: nat)
    requires base <= cap <= ram.Length
    modifies ram
    ensures Stopped(ExtKeys(DefWords(ds)), ExtIds(ds), WordsFit(base, cap, 1), status, done)
    ensures done <= |ds| && (status == Ok ==> done == |ds|)
    ensures count == base + done <= cap && ram[..] == Overwrite(old(ram[..]), base, DefWords(ds)[..done])
  {
    hide WordKey, DefWord, Overwrite;
    ghost var was, ws := ram[..], DefWords(ds);
    status, done, count := Ok, 0, base;
    OverwriteNothing(was, base, ws);
    while done < |ds|
      invariant done <= |ds| && count == base + done <= cap
      invariant InOrder(ExtKeys(ws), ExtIds(ds), done)
      invariant ram[..] == Overwrite(was, base, ws[..done])
    {
      if count + 1 > cap {
        return ObjectsFull, done, count;
      }
      LastWritten(was, base, ws, done);
      if done != 0 && WordKey(ram[count - 1]) > ds[done].id {
        return TableOrder, done, count;
      }
      ram[count] := DefWord(ds[done]);
      OverwriteOneMore(was, base, ws[..done], ws[done]);
      assert ws[..done + 1] == ws[..done] + [ws[done]];
      count, done := count + 1, done + 1;
    }
  }

  // lpc17xx_can.c:420-456
  method SetupExtGroups(ram: array<Word>, base: nat, ds: seq<ExtGroupDef>, cap: nat)
      returns (status: CanError, done: nat, count: nat)
    requires base <= cap <= ram.Length
    modifies ram
    ensures Stopped(ExtGroupKeys(DefExtGroups(ds)), ExtGroupIds(ds), WordsFit(base, cap, 2), status, done)
    ensures done <= |ds| && (status == Ok ==> done == |ds|)
    ensures count == base + 2 * done <= cap
        && ram[..] == Overwrite(old(ram[..]), base, Flatten(DefExtGroups(ds)[..done]))
  {
    hide WordKey, DefExtGroup, Overwrite, Flatten;
    ghost var was, gs := ram[..], DefExtGroups(ds);
    status, done, count := Ok, 0, base;
    NoPairs(was, base, gs);
    while done < |ds|
      invariant done <= |ds| && count == base + 2 * done <= cap
      invariant InOrder(ExtGroupKeys(gs), ExtGroupIds(ds), done)
      invariant ram[..] == Overwrite(was, base, Flatten(gs[..done]))
    {
      if count + 2 > cap {
        return ObjectsFull, done, count;
      }
      LastPair(was, base, gs, done);
      if done != 0 && WordKey(ram[count - 1]) > ds[done].lower.id {
        return TableOrder, done, count;
      }
      ram[count] := DefExtGroup(ds[done]).lower;
      ram[count + 1] := DefExtGroup(ds[done]).upper;
      OverwritePairMore(was, base, gs, done);
      count, done := count + 2, done + 1;
    }
  }

  lemma NoPairs(was: seq<Word>, base: nat, gs: seq<ExtGroup>)
    requires base <= |was|
    ensures Overwrite(was, base, Flatten(gs[..0])) == was
  {}

  lemma LastPair(was: seq<Word>, base: nat, gs: seq<ExtGroup>, n: nat)
    requires n <= |gs| && base + 2 * n <= |was|
    ensures n > 0 ==> Overwrite(was, base, Flatten(gs[..n]))[base + 2 * n - 1] == gs[n - 1].upper
  {
    if n > 0 {
      assert Flatten(gs[..n])[2 * n - 1] == gs[..n][n - 1].upper;
    }
  }

  lemma OverwritePairMore(was: seq<Word>, base: nat, gs: seq<ExtGroup>, n: nat)
    requires n < |gs| && base + 2 * n + 2 <= |was|
    ensures Overwrite(was, base, Flatten(gs[..n]))[base + 2 * n := gs[n].lower][base + 2 * n + 1 := gs[n].upper]
         == Overwrite(was, base, Flatten(gs[..n + 1]))
  {
    var ws := Flatten(gs[..n]);
    FlattenOneMore(gs[..n], gs[n]);
    assert gs[..n + 1] == gs[..n] + [gs[n]];
    OverwriteOneMore(was, base, ws, gs[n].lower);
    OverwriteOneMore(was, base, ws + [gs[n].lower], gs[n].upper);
    assert ws + [gs[n].lower] + [gs[n].upper] == ws + [gs[n].lower, gs[n].upper];
  }

  // ---------- the whole table ----------

  // The five lists; without a FullCAN list, FullCAN mode stays off.
  datatype Lists = Lists(hasFullCan: bool, fullCanList: seq<StdDef>, std: seq<StdDef>, groups: seq<GroupDef>,
                         ext: seq<ExtDef>, extGroups: seq<ExtGroupDef>) {
    function FullCan(): seq<StdDef> { if hasFullCan then fullCanList else [] }
  }

  // The table the lists describe.
  function TableOf(l: Lists, objects: seq<Word>): Table {
    Table(DefHalves(l.FullCan(), 0x800), DefHalves(l.std, 0), DefGroups(l.groups), DefWords(l.ext),
        DefExtGroups(l.extGroups), objects)
  }

  lemma TableOfIs(l: Lists, objects: seq<Word>)
    ensures var t := TableOf(l, objects);
            && t.objects == objects && |t.fullCan| == |l.FullCan()| && t.(objects := []) == TableOf(l, [])
            && Whole(l) == Taken(|t.fullCan|, |t.std|, |t.groups|, |t.ext|, |t.extGroups|)
  {}

  // Entries taken from each list.
  datatype Taken = Taken(fullCan: nat, std: nat, groups: nat, ext: nat, extGroups: nat)

  // The running word count `count` at the start of sections 1 to 4, and at the end.
  function Reached(n: Taken, i: nat): nat
    requires i <= 5
  {
    (if i > 0 then n.fullCan / 2 else 0) + (if i > 1 then n.std / 2 else 0) + (if i > 2 then n.groups else 0)
    + (if i > 3 then n.ext else 0) + (if i > 4 then 2 * n.extGroups else 0)
  }

  const FULLCAN_CAP := 64

  predicate SectionStopped(l: Lists, i: nat, n: Taken, status: CanError)
    requires i < 5
  {
    if i == 0 then Stopped(HalfKeys(DefHalves(l.FullCan(), 0x800), 0x400), DefIds(l.FullCan()),
        HalvesFit(0, FULLCAN_CAP), status, n.fullCan)
    else if i == 1 then Stopped(HalfKeys(DefHalves(l.std, 0), 0x1000), DefIds(l.std),
        HalvesFit(Reached(n, 1), RAM_WORDS), status, n.std)
    else if i == 2 then Stopped(GroupKeys(DefGroups(l.groups)), GroupIds(l.groups),
        WordsFit(Reached(n, 2), RAM_WORDS, 1), status, n.groups)
    else if i == 3 then Stopped(ExtKeys(DefWords(l.ext)), ExtIds(l.ext), WordsFit(Reached(n, 3), RAM_WORDS, 1), status,
        n.ext)
    else Stopped(ExtGroupKeys(DefExtGroups(l.extGroups)), ExtGroupIds(l.extGroups),
        WordsFit(Reached(n, 4), RAM_WORDS, 2), status, n.extGroups)
  }

  // Sections 0 to i - 1 were taken whole, section i ended with `status`, nothing was taken after it.
  predicate StoppedIn(l: Lists, i: nat, n: Taken, status: CanError)
    requires i < 5
  {
    && (forall j :: 0 <= j < i ==> SectionStopped(l, j, n, Ok))
    && SectionStopped(l, i, n, status)
    && (i < 1 ==> n.std == 0) && (i < 2 ==> n.groups == 0) && (i < 3 ==> n.ext == 0) && (i < 4 ==> n.extGroups == 0)
  }

  predicate Within(l: Lists, n: Taken) {
    && n.fullCan <= |l.FullCan()| && n.std <= |l.std| && n.groups <= |l.groups| && n.ext <= |l.ext|
        && n.extGroups <= |l.extGroups|
    && Reached(n, 5) <= RAM_WORDS
  }

  // RAM after the first i sections, with this many entries of each.
  function Filled(was: seq<Word>, l: Lists, n: Taken, i: nat): (now: seq<Word>)
    requires Within(l, n) && RAM_WORDS <= |was| && i <= 5
    ensures |now| == |was|
  {
    if i == 0 then was
    else
      var before := Filled(was, l, n, i - 1);
      if i == 1 then StoreHalves(before, 0, DefHalves(l.FullCan(), 0x800), n.fullCan)
      else if i == 2 then StoreHalves(before, Reached(n, 1), DefHalves(l.std, 0), n.std)
      else if i == 3 then Overwrite(before, Reached(n, 2), DefGroups(l.groups)[..n.groups])
      else if i == 4 then Overwrite(before, Reached(n, 3), DefWords(l.ext)[..n.ext])
      else Overwrite(before, Reached(n, 4), Flatten(DefExtGroups(l.extGroups)[..n.extGroups]))
  }

  // Only what precedes section i matters for the RAM after it.
  lemma FilledAlike(was: seq<Word>, l: Lists, n: Taken, m: Taken, i: nat)
    requires Within(l, n) && Within(l, m) && RAM_WORDS <= |was| && i <= 5
    requires (i > 0 ==> n.fullCan == m.fullCan) && (i > 1 ==> n.std == m.std) && (i > 2 ==> n.groups == m.groups)
    requires (i > 3 ==> n.ext == m.ext) && (i > 4 ==> n.extGroups == m.extGroups)
    ensures Filled(was, l, n, i) == Filled(was, l, m, i)
  {
    hide StoreHalves, Overwrite, Flatten, DefHalves, DefGroups, DefWords, DefExtGroups;
    if i > 0 {
      FilledAlike(was, l, n, m, i - 1);
    }
  }

  // A section nothing is taken from leaves RAM alone.
  lemma FilledIdle(was: seq<Word>, l: Lists, n: Taken, i: nat)
    requires Within(l, n) && RAM_WORDS <= |was| && 0 < i <= 5
    requires match i
             case 1 => n.fullCan == 0
             case 2 => n.std == 0
             case 3 => n.groups == 0
             case 4 => n.ext == 0
             case _ => n.extGroups == 0
    ensures Filled(was, l, n, i) == Filled(was, l, n, i - 1)
  {
    hide DefHalves, DefGroups, DefWords, DefExtGroups, StoreHalves, Overwrite;
    var before := Filled(was, l, n, i - 1);
    match i
    case 1 => NoHalves(before, 0, DefHalves(l.FullCan(), 0x800));
    case 2 => NoHalves(before, Reached(n, 1), DefHalves(l.std, 0));
    case 3 => OverwriteNothing(before, Reached(n, 2), DefGroups(l.groups));
    case 4 => OverwriteNothing(before, Reached(n, 3), DefWords(l.ext));
    case _ => NoPairs(before, Reached(n, 4), DefExtGroups(l.extGroups));
  }

  lemma FilledStops(was: seq<Word>, l: Lists, n: Taken, i: nat)
    requires Within(l, n) && RAM_WORDS <= |was| && i <= 5
    requires (i < 1 ==> n.fullCan == 0) && (i < 2 ==> n.std == 0) && (i < 3 ==> n.groups == 0)
        && (i < 4 ==> n.ext == 0) && (i < 5 ==> n.extGroups == 0)
    ensures Filled(was, l, n, 5) == Filled(was, l, n, i)
    decreases 5 - i
  {
    if i < 5 {
      FilledStops(was, l, n, i + 1);
      FilledIdle(was, l, n, i + 1);
    }
  }

  // lpc17xx_can.c:233-456, up to the registers; the counters start from zero.
  method SetupSections(ram: array<Word>, l: Lists) returns (status: CanError, n: Taken, ghost section: nat)
    requires RAM_WORDS <= ram.Length
    modifies ram
    ensures SetUp(l, section, n, status, old(ram[..]), ram[..])
  {
    hide Stopped, StoreHalves, Overwrite, Flatten, DefHalves, DefGroups, DefWords, DefExtGroups;
    ghost var was := ram[..];
    var done, count;
    status, done, count := SetupHalves(ram, 0, l.FullCan(), 0x800, 0x400, FULLCAN_CAP);
    n, section := Taken(done, 0, 0, 0, 0), 0;
    assert ram[..] == Filled(was, l, n, 1);
    if status == Ok {
      status, done, count := SetupHalves(ram, count, l.std, 0, 0x1000, RAM_WORDS);
      FilledAlike(was, l, n, n.(std := done), 1);
      n, section := n.(std := done), 1;
    }
    assert ram[..] == Filled(was, l, n, section + 1);
    assert StoppedIn(l, section, n, status);
    if status == Ok {
      status, done, count := SetupGroups(ram, count, l.groups, RAM_WORDS);
      FilledAlike(was, l, n, n.(groups := done), 2);
      n, section := n.(groups := done), 2;
    }
    assert ram[..] == Filled(was, l, n, section + 1);
    assert StoppedIn(l, section, n, status);
    if status == Ok {
      status, done, count := SetupExt(ram, count, l.ext, RAM_WORDS);
      FilledAlike(was, l, n, n.(ext := done), 3);
      n, section := n.(ext := done), 3;
    }
    assert ram[..] == Filled(was, l, n, section + 1);
    assert StoppedIn(l, section, n, status);
    if status == Ok {
      status, done, count := SetupExtGroups(ram, count, l.extGroups, RAM_WORDS);
      FilledAlike(was, l, n, n.(extGroups := done), 4);
      n, section := n.(extGroups := done), 4;
    }
    FilledStops(was, l, n, section + 1);
  }

  // ---------- when the set-up succeeds, and what it then leaves ----------

  function Whole(l: Lists): Taken {
    Taken(|l.FullCan()|, |l.std|, |l.groups|, |l.ext|, |l.extGroups|)
  }

  // Each list is in order by the driver's comparison, and the running word count stays within RAM.
  predicate Acceptable(l: Lists) {
    forall i :: 0 <= i < 5 ==> SectionStopped(l, i, Whole(l), Ok)
  }

  /** The set-up returns OK exactly for acceptable lists, and has then taken every entry. */
  lemma SetupOkIff(l: Lists, section: nat, n: Taken, status: CanError)
    requires section < 5 && StoppedIn(l, section, n, status) && (status == Ok ==> section == 4)
    ensures status == Ok <==> Acceptable(l)
    ensures status == Ok ==> n == Whole(l)
  {
    if status == Ok {
      assert forall j {:trigger SectionStopped(l, j, n, Ok)} :: 0 <= j < 5 ==> SectionStopped(l, j, n, Ok);
      WholeWhenOk(l, n);
    } else if Acceptable(l) {
      FirstSectionsWhole(l, n, section);
      SectionStoppedOnce(l, section, n, status);
    }
  }

  lemma WholeWhenOk(l: Lists, n: Taken)
    requires forall j :: 0 <= j < 5 ==> SectionStopped(l, j, n, Ok)
    ensures n == Whole(l)
  {
    hide InOrder;
    assert SectionStopped(l, 0, n, Ok) && SectionStopped(l, 1, n, Ok) && SectionStopped(l, 2, n, Ok);
    assert SectionStopped(l, 3, n, Ok) && SectionStopped(l, 4, n, Ok);
  }

  // n and the whole lists agree on the sections before i.
  predicate WholeBefore(l: Lists, n: Taken, i: nat) {
    && (i > 0 ==> n.fullCan == |l.FullCan()|) && (i > 1 ==> n.std == |l.std|)
    && (i > 2 ==> n.groups == |l.groups|) && (i > 3 ==> n.ext == |l.ext|)
  }

  lemma FirstSectionsWhole(l: Lists, n: Taken, i: nat)
    requires i < 5 && forall j :: 0 <= j < i ==> SectionStopped(l, j, n, Ok)
    ensures WholeBefore(l, n, i)
  {
    hide InOrder;
    if i > 0 { assert SectionStopped(l, 0, n, Ok); }
    if i > 1 { assert SectionStopped(l, 1, n, Ok); }
    if i > 2 { assert SectionStopped(l, 2, n, Ok); }
    if i > 3 { assert SectionStopped(l, 3, n, Ok); }
  }

  lemma SectionStoppedOnce(l: Lists, i: nat, n: Taken, status: CanError)
    requires i < 5 && WholeBefore(l, n, i) && SectionStopped(l, i, n, status) && SectionStopped(l, i, Whole(l), Ok)
    ensures status == Ok
  {
    var w := Whole(l);
    assert Reached(n, i) == Reached(w, i);
    hide Reached, Stopped;
    match i
    case 0 => StoppedOnce(HalfKeys(DefHalves(l.FullCan(), 0x800), 0x400), DefIds(l.FullCan()),
        HalvesFit(0, FULLCAN_CAP), status, n.fullCan, Ok, w.fullCan);
    case 1 => StoppedOnce(HalfKeys(DefHalves(l.std, 0), 0x1000), DefIds(l.std), HalvesFit(Reached(w, 1), RAM_WORDS),
        status, n.std, Ok, w.std);
    case 2 => StoppedOnce(GroupKeys(DefGroups(l.groups)), GroupIds(l.groups), WordsFit(Reached(w, 2), RAM_WORDS, 1),
        status, n.groups, Ok, w.groups);
    case 3 => StoppedOnce(ExtKeys(DefWords(l.ext)), ExtIds(l.ext), WordsFit(Reached(w, 3), RAM_WORDS, 1), status,
        n.ext, Ok, w.ext);
    case _ => StoppedOnce(ExtGroupKeys(DefExtGroups(l.extGroups)), ExtGroupIds(l.extGroups),
        WordsFit(Reached(w, 4), RAM_WORDS, 2), status, n.extGroups, Ok, w.extGroups);
  }

  lemma OverwriteMore(was: seq<Word>, a: seq<Word>, b: seq<Word>)
    requires |a| + |b| <= |was|
    ensures Overwrite(Overwrite(was, 0, a), |a|, b) == Overwrite(was, 0, a + b)
  {}

  /** With even FullCAN and standard lists, RAM then starts with exactly the five lists laid out in order. */
  lemma FilledEncodes(was: seq<Word>, l: Lists)
    requires RAM_WORDS <= |was| && Within(l, Whole(l)) && |l.FullCan()| % 2 == 0 && |l.std| % 2 == 0
    ensures |Encode(TableOf(l, []))| <= RAM_WORDS
    ensures Filled(was, l, Whole(l), 5) == Overwrite(was, 0, Encode(TableOf(l, [])))
  {
    hide Filled, Overwrite, StoreHalves, PackHalves, Flatten, DefHalves, DefGroups, DefWords, DefExtGroups, Encode;
    var t := TableOf(l, []);
    var p0, p1, p2, p3, p4 := PackHalves(t.fullCan), PackHalves(t.std), t.groups, t.ext, Flatten(t.extGroups);
    StartIs(t, 0);
    FiveParts(t);
    FilledInTurn(was, l);
    EvenHalvesPack(was, 0, t.fullCan);
    EvenHalvesPack(Overwrite(was, 0, p0), |p0|, t.std);
    OverwriteMore(was, p0, p1);
    OverwriteMore(was, p0 + p1, p2);
    OverwriteMore(was, p0 + p1 + p2, p3);
    OverwriteMore(was, p0 + p1 + p2 + p3, p4);
  }

  lemma FiveParts(t: Table)
    requires t.objects == []
    ensures Encode(t) == PackHalves(t.fullCan) + PackHalves(t.std) + t.groups + t.ext + Flatten(t.extGroups)
  {
    hide PackHalves, Flatten;
    var ps := Parts(t);
    assert Concat(ps[6..]) == [] && ps[5..] == [ps[5]] && ps[0..] == ps;
    assert ps[4..][1..] == ps[5..] && ps[3..][1..] == ps[4..] && ps[2..][1..] == ps[3..] && ps[1..][1..] == ps[2..];
    assert Concat(ps[5..]) == [];
    assert Concat(ps[4..]) == ps[4];
    assert Concat(ps[3..]) == ps[3] + ps[4];
    assert Concat(ps[2..]) == ps[2] + (ps[3] + ps[4]);
    assert Concat(ps[1..]) == ps[1] + (ps[2] + (ps[3] + ps[4]));
    assert Concat(ps) == ps[0] + Concat(ps[1..]);
  }

  lemma FilledInTurn(was: seq<Word>, l: Lists)
    requires RAM_WORDS <= |was| && Within(l, Whole(l))
    ensures var n := Whole(l);
            Filled(was, l, n, 5) ==
              Overwrite(Overwrite(Overwrite(StoreHalves(StoreHalves(was, 0, DefHalves(l.FullCan(), 0x800), n.fullCan),
                        Reached(n, 1), DefHalves(l.std, 0), n.std),
                        Reached(n, 2), DefGroups(l.groups)),
                        Reached(n, 3), DefWords(l.ext)),
                        Reached(n, 4), Flatten(DefExtGroups(l.extGroups)))
  {
    hide StoreHalves, Overwrite, Flatten, DefHalves, DefGroups, DefWords, DefExtGroups;
    var n := Whole(l);
    assert DefGroups(l.groups)[..n.groups] == DefGroups(l.groups) && DefWords(l.ext)[..n.ext] == DefWords(l.ext);
    assert DefExtGroups(l.extGroups)[..n.extGroups] == DefExtGroups(l.extGroups);
    assert Filled(was, l, n, 4) == Overwrite(Filled(was, l, n, 3), Reached(n, 3), DefWords(l.ext)[..n.ext]);
    assert Filled(was, l, n, 3) == Overwrite(Filled(was, l, n, 2), Reached(n, 2), DefGroups(l.groups)[..n.groups]);
    assert Filled(was, l, n, 2) == StoreHalves(Filled(was, l, n, 1), Reached(n, 1), DefHalves(l.std, 0), n.std);
    assert Filled(was, l, n, 1) == StoreHalves(Filled(was, l, n, 0), 0, DefHalves(l.FullCan(), 0x800), n.fullCan);
  }

  /** The table the set-up leaves, with the words behind it as the message objects. */
  lemma SetupIsTable(was: seq<Word>, now: seq<Word>, l: Lists)
    requires RAM_WORDS <= |was| && |Encode(TableOf(l, []))| <= RAM_WORDS
        && now == Overwrite(was, 0, Encode(TableOf(l, [])))
    requires IdSize(TableOf(l, [])) + 3 * |l.FullCan()| <= RAM_WORDS
    ensures |Encode(TableOf(l, []))| == IdSize(TableOf(l, []))
    ensures var w := IdSize(TableOf(l, []));
            Encode(TableOf(l, now[w..w + 3 * |l.FullCan()|])) <= now
  {
    hide Encode, DefHalves, DefGroups, DefWords, DefExtGroups;
    var t := TableOf(l, []);
    StartIs(t, 0);
    var w := IdSize(t);
    var objects := now[w..w + 3 * |l.FullCan()|];
    assert Encode(t) <= now;
    hide Overwrite;
    assert Start(t, 5) == Size(t) == w;
    hide Start, IdSize, Halfwords;
    ObjectsPrefix(t, objects, now);
  }

  // Both halfword lists fill whole words.
  predicate Even(l: Lists) { |l.FullCan()| % 2 == 0 && |l.std| % 2 == 0 }

  // The outcome of a set-up, as far as status, entries taken and RAM go.
  ghost predicate SetUp(l: Lists, section: nat, n: Taken, status: CanError, was: seq<Word>, now: seq<Word>) {
    && section < 5 && StoppedIn(l, section, n, status) && (status == Ok ==> section == 4)
    && RAM_WORDS <= |was| && Within(l, n) && now == Filled(was, l, n, 5)
  }

  /**
    The set-up returns OK exactly for acceptable lists; with even halfword lists RAM then starts with the
    five lists laid out in order, and behind them is as it was.
   */
  lemma SetUpMeans(l: Lists, section: nat, n: Taken, status: CanError, was: seq<Word>, now: seq<Word>)
    requires SetUp(l, section, n, status, was, now)
    ensures status == Ok <==> Acceptable(l)
    ensures status == Ok ==> n == Whole(l)
    ensures status == Ok && Even(l) ==>
              |Encode(TableOf(l, []))| <= RAM_WORDS <= |was| && now == Overwrite(was, 0, Encode(TableOf(l, [])))
  {
    SetupOkIff(l, section, n, status);
    hide StoppedIn, Acceptable, Filled, Encode, Overwrite;
    if status == Ok && Even(l) {
      FilledEncodes(was, l);
    }
  }

  // lpc17xx_can.c:458-462
  function RegistersFor(fc: nat, st: nat, gs: nat, ex: nat, gx: nat): Registers {
    var sff := (fc + 1) / 2 * 4;
    var grp := sff + (st + 1) / 2 * 4;
    var eff := grp + gs * 4;
    var effGrp := eff + ex * 4;
    Registers(sff, grp, eff, effGrp, effGrp + gx * 8)
  }

  lemma RegistersAre(l: Lists)
    ensures var n := Whole(l); RegistersFor(n.fullCan, n.std, n.groups, n.ext, n.extGroups) == StartsOf(TableOf(l, []))
  {}
}

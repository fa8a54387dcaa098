/**
  The abstract acceptance-filter look-up table, its layout in RAM, and what each driver call does
  to it.  CanFilter proves that the RAM operations compute these functions; the lemmas here and in
  CanRuns say what the functions mean.
 */
module CanTable {
  import opened CanWords
  import opened CanSections

  datatype Controller = Can1 | Can2 {
    function Number(): nat { if Can1? then 0 else 1 }
  }

  datatype ExtGroup = ExtGroup(lower: Word, upper: Word)

  // The five identifier sections and the FullCAN message objects, three words per FullCAN entry.
  datatype Table = Table(fullCan: seq<Half>, std: seq<Half>, groups: seq<Word>, ext: seq<Word>,
                         extGroups: seq<ExtGroup>, objects: seq<Word>)

  const EMPTY := Table([], [], [], [], [], [])

  // ---------- layout ----------

  function Flatten(gs: seq<ExtGroup>): (ws: seq<Word>)
    ensures |ws| == 2 * |gs|
  {
    seq(2 * |gs|, i requires 0 <= i < 2 * |gs| => if i % 2 == 0 then gs[i / 2].lower else gs[i / 2].upper)
  }

  function Halfwords(n: nat): nat { (n + 1) / 2 }

  // The six runs of words, in RAM order.
  function Parts(t: Table): (ps: seq<seq<Word>>)
    ensures |ps| == 6
  {
    [PackHalves(t.fullCan), PackHalves(t.std), t.groups, t.ext, Flatten(t.extGroups), t.objects]
  }

  function Concat(ps: seq<seq<Word>>): seq<Word> {
    if ps == [] then [] else ps[0] + Concat(ps[1..])
  }

  function Encode(t: Table): seq<Word> { Concat(Parts(t)) }

  // Words taken by the identifier sections, and by the whole table.
  function IdSize(t: Table): nat {
    Halfwords(|t.fullCan|) + Halfwords(|t.std|) + |t.groups| + |t.ext| + 2 * |t.extGroups|
  }

  function Size(t: Table): nat { IdSize(t) + |t.objects| }

  // Word at which part i starts; part 6 would start behind the table.
  function Start(t: Table, i: nat): nat
    requires i <= 6
  {
    (if i > 0 then Halfwords(|t.fullCan|) else 0) + (if i > 1 then Halfwords(|t.std|) else 0)
    + (if i > 2 then |t.groups| else 0) + (if i > 3 then |t.ext| else 0)
    + (if i > 4 then 2 * |t.extGroups| else 0) + (if i > 5 then |t.objects| else 0)
  }

  // ---------- start-address registers ----------

  // SFF_sa, SFF_GRP_sa, EFF_sa, EFF_GRP_sa and ENDofTable: byte offsets of parts 1 to 5.
  datatype Registers = Registers(sffSa: int, sffGrpSa: int, effSa: int, effGrpSa: int, endOfTable: int)

  function StartsOf(t: Table): Registers {
    Registers(4 * Start(t, 1), 4 * Start(t, 2), 4 * Start(t, 3), 4 * Start(t, 4), 4 * Start(t, 5))
  }

  // The start addresses of the parts from the i-th on move by d bytes.
  function MoveStarts(r: Registers, i: nat, d: int): Registers {
    Registers(if i <= 1 then r.sffSa + d else r.sffSa,
              if i <= 2 then r.sffGrpSa + d else r.sffGrpSa,
              if i <= 3 then r.effSa + d else r.effSa,
              if i <= 4 then r.effGrpSa + d else r.effGrpSa,
              r.endOfTable + d)
  }

  // ---------- entries ----------

  // lpc17xx_can.c:521-522
  function StdEntry(ctrl: Controller, id: nat): Half { id % 0x800 + ctrl.Number() * 0x2000 }

  // lpc17xx_can.c:727-728
  function FullCanEntry(ctrl: Controller, id: nat): Half { id % 0x800 + ctrl.Number() * 0x2000 + 0x800 }

  // lpc17xx_can.c:640 : bit 29 is set for the second controller; id is not masked.
  function ExtEntry(ctrl: Controller, id: UInt32): Word {
    WordOf(if ctrl.Can1? || (id / 0x2000_0000) % 2 == 1 then id else id + 0x2000_0000)
  }

  // lpc17xx_can.c:916-918 and 980-983
  function GroupEntry(ctrl: Controller, lower: nat, upper: nat): Word {
    Word(lower % 0x800 + ctrl.Number() * 0x2000, upper % 0x800 + ctrl.Number() * 0x2000)
  }

  function ExtGroupEntry(ctrl: Controller, lower: nat, upper: nat): ExtGroup {
    ExtGroup(WordOf(lower % 0x2000_0000 + ctrl.Number() * 0x2000_0000),
             WordOf(upper % 0x2000_0000 + ctrl.Number() * 0x2000_0000))
  }

  function Values(ws: seq<Word>): (vs: seq<int>)
    ensures |vs| == |ws|
  {
    seq(|ws|, i requires 0 <= i < |ws| => ws[i].Value())
  }

  // ---------- ranges ----------

  datatype Range = Range(lower: int, upper: int)

  // `& 0x7FF` and `& 0x1FFFFFFF` : the identifier without controller and disable bits.
  function Id11(h: Half): nat { h % 0x800 }

  function Id29(w: Word): nat { w.Value() % 0x2000_0000 }

  function StdRange(w: Word): Range { Range(Id11(w.hi), Id11(w.lo)) }

  function ExtRange(g: ExtGroup): Range { Range(Id29(g.lower), Id29(g.upper)) }

  function StdRanges(ws: seq<Word>): (rs: seq<Range>)
    ensures |rs| == |ws|
  {
    seq(|ws|, i requires 0 <= i < |ws| => StdRange(ws[i]))
  }

  function ExtRanges(gs: seq<ExtGroup>): (rs: seq<Range>)
    ensures |rs| == |gs|
  {
    seq(|gs|, i requires 0 <= i < |gs| => ExtRange(gs[i]))
  }

  datatype Slot = At(index: nat) | Conflict

  // The driver's walk: before the first range that starts at or above `upper`, unless a range that
  // ends above `lower` comes first.
  function FindSlot(rs: seq<Range>, lower: int, upper: int): (s: Slot)
    ensures s.At? ==> s.index <= |rs|
  {
    if rs == [] || upper <= rs[0].lower then At(0)
    else if lower >= rs[0].upper then
      match FindSlot(rs[1..], lower, upper)
      case At(k) => At(k + 1)
      case Conflict => Conflict
    else Conflict
  }

  // Range k of rs could be [lower, upper] without disturbing the order.
  predicate Fits(rs: seq<Range>, k: nat, lower: int, upper: int) {
    && k <= |rs|
    && (forall i :: 0 <= i < k ==> rs[i].upper <= lower)
    && (forall i :: k <= i < |rs| ==> upper <= rs[i].lower)
  }

  predicate Disjoint(rs: seq<Range>) {
    && (forall i :: 0 <= i < |rs| ==> rs[i].lower <= rs[i].upper)
    && (forall i, j :: 0 <= i < j < |rs| ==> rs[i].upper <= rs[j].lower)
  }

  predicate Ascending(s: seq<int>) {
    forall i, j :: 0 <= i < j < |s| ==> s[i] <= s[j]
  }

  // ---------- what the calls do to the table ----------

  function AddStd(t: Table, entry: Half): (t': Table)
    ensures t' == t.(std := t'.std) && |t'.std| == |t.std| + 1
  {
    t.(std := InsertAt(t.std, FirstAbove(t.std, entry), entry))
  }

  function AddExt(t: Table, entry: Word): (t': Table)
    ensures t' == t.(ext := t'.ext) && |t'.ext| == |t.ext| + 1
  {
    t.(ext := InsertAt(t.ext, FirstAbove(Values(t.ext), entry.Value()), entry))
  }

  // Three zero words opened in the object section, the word that followed it pushed along.
  function OpenObjectAt(objects: seq<Word>, after: Word, at: nat): (r: seq<Word>)
    requires at <= |objects| + 1
    ensures |r| == |objects| + 3
  {
    var s := objects + [after];
    (s[..at] + GAP + s[at..])[..|objects| + 3]
  }

  // Where the driver opens the new object.  With an even number of entries before the call that is
  // object boundary k; with an odd number it is one word late, and k is taken as 0 for the second entry.
  function ObjectSlot(fullCan: seq<Half>, entry: Half): (at: nat)
    ensures at <= 3 * |fullCan| + 1
  {
    if |fullCan| == 1 then 1 else 3 * FirstAbove(fullCan, entry) + |fullCan| % 2
  }

  // The identifier half of a FullCAN load.
  function AddFullCanId(t: Table, entry: Half): (t': Table)
    ensures t' == t.(fullCan := t'.fullCan) && |t'.fullCan| == |t.fullCan| + 1
  {
    t.(fullCan := InsertAt(t.fullCan, FirstAbove(t.fullCan, entry), entry))
  }

  // `after` is the RAM word behind the table.
  function AddFullCan(t: Table, entry: Half, after: Word): (t': Table)
    requires |t.objects| == 3 * |t.fullCan|
    ensures t' == AddFullCanId(t, entry).(objects := t'.objects) && |t'.objects| == |t.objects| + 3
  {
    AddFullCanId(t, entry).(objects := OpenObjectAt(t.objects, after, ObjectSlot(t.fullCan, entry)))
  }

  function AddGroupAt(t: Table, k: nat, entry: Word): (t': Table)
    requires k <= |t.groups|
    ensures t' == t.(groups := t'.groups) && |t'.groups| == |t.groups| + 1
  {
    t.(groups := InsertAt(t.groups, k, entry))
  }

  function AddExtGroupAt(t: Table, k: nat, entry: ExtGroup): (t': Table)
    requires k <= |t.extGroups|
    ensures t' == t.(extGroups := t'.extGroups) && |t'.extGroups| == |t.extGroups| + 1
  {
    t.(extGroups := InsertAt(t.extGroups, k, entry))
  }

  function Unflatten(ws: seq<Word>): (gs: seq<ExtGroup>)
    requires |ws| % 2 == 0
    ensures 2 * |gs| == |ws|
  {
    seq(|ws| / 2, i requires 0 <= i < |ws| / 2 => ExtGroup(ws[2 * i], ws[2 * i + 1]))
  }

  // The words of the sections behind the standard groups, and of the objects.
  function BehindGroups(t: Table): (ws: seq<Word>)
    ensures |ws| == |t.ext| + 2 * |t.extGroups| + |t.objects|
  {
    t.ext + (Flatten(t.extGroups) + t.objects)
  }

  // t with the words behind its groups read off ws.
  function WithBehindGroups(t: Table, ws: seq<Word>): (t': Table)
    requires |ws| == |t.ext| + 2 * |t.extGroups| + |t.objects|
    ensures t' == t.(ext := t'.ext, extGroups := t'.extGroups, objects := t'.objects)
    ensures |t'.ext| == |t.ext| && |t'.extGroups| == |t.extGroups| && |t'.objects| == |t.objects|
  {
    var e, x := |t.ext|, |t.ext| + 2 * |t.extGroups|;
    t.(ext := ws[..e], extGroups := Unflatten(ws[e..x]), objects := ws[x..])
  }

  // The first standard group is written over the word that follows the standard section: what was
  // there is lost, everything behind is read one word further on, and `after` comes in at the end.
  function AddFirstGroup(t: Table, entry: Word, after: Word): (t': Table)
    ensures |t'.groups| == 1 && t'.fullCan == t.fullCan && t'.std == t.std
    ensures |t'.ext| == |t.ext| && |t'.extGroups| == |t.extGroups| && |t'.objects| == |t.objects|
  {
    WithBehindGroups(t, (BehindGroups(t) + [after])[1..]).(groups := [entry])
  }

  // The first extended group is written over the first two object words.
  function AddFirstExtGroup(t: Table, entry: ExtGroup, after: seq<Word>): (t': Table)
    requires |after| == 2
    ensures t' == t.(extGroups := [entry], objects := t'.objects) && |t'.objects| == |t.objects|
  {
    t.(extGroups := [entry], objects := (t.objects + after)[2..])
  }

  // Removing a FullCAN entry takes three words out of the objects: those of entry p when the number
  // of entries was even, the three words from one word further when it was odd.
  function CloseObjectAt(objects: seq<Word>, at: nat): (r: seq<Word>)
    requires at + 3 <= |objects| + 1 && 3 <= |objects|
    ensures |r| == |objects| - 3
  {
    if at + 3 <= |objects| then objects[..at] + objects[at + 3..] else objects[..|objects| - 3]
  }

  function RemoveFullCanId(t: Table, p: nat): (t': Table)
    requires p < |t.fullCan|
    ensures t' == t.(fullCan := t'.fullCan) && |t'.fullCan| == |t.fullCan| - 1
  {
    t.(fullCan := RemoveHalf(t.fullCan, p))
  }

  function RemoveFullCan(t: Table, p: nat): (t': Table)
    requires p < |t.fullCan| && |t.objects| == 3 * |t.fullCan|
    ensures t' == RemoveFullCanId(t, p).(objects := t'.objects) && |t'.objects| == |t.objects| - 3
  {
    RemoveFullCanId(t, p).(objects := CloseObjectAt(t.objects, 3 * p + |t.fullCan| % 2))
  }

  function RemoveStd(t: Table, p: nat): (t': Table)
    requires p < |t.std|
    ensures t' == t.(std := t'.std) && |t'.std| == |t.std| - 1
  {
    t.(std := RemoveHalf(t.std, p))
  }

  // ---------- the register updates of each call ----------

  lemma StdStarts(t: Table, entry: Half)
    ensures MoveStarts(StartsOf(t), 2, 4) == StartsOf(AddStd(t, entry)) <==> |t.std| % 2 == 0
  {}

  lemma ExtStarts(t: Table, entry: Word)
    ensures MoveStarts(StartsOf(t), 4, 4) == StartsOf(AddExt(t, entry))
  {}

  lemma FullCanStarts(t: Table, entry: Half, after: Word)
    requires |t.objects| == 3 * |t.fullCan|
    ensures MoveStarts(StartsOf(t), 1, 4) == StartsOf(AddFullCan(t, entry, after)) <==> |t.fullCan| % 2 == 0
  {}

  // ---------- layout lemmas ----------

  lemma {:induction false} ConcatSplit(ps: seq<seq<Word>>, i: nat)
    requires i <= |ps|
    ensures Concat(ps) == Concat(ps[..i]) + Concat(ps[i..])
  {
    if i == 0 {
      assert ps[0..] == ps;
    } else {
      ConcatSplit(ps[1..], i - 1);
      assert ps[1..][..i - 1] == ps[..i][1..] && ps[1..][i - 1..] == ps[i..];
      assert ps[..i][0] == ps[0];
      assert ps[0] + (Concat(ps[..i][1..]) + Concat(ps[i..])) == ps[0] + Concat(ps[..i][1..]) + Concat(ps[i..]);
    }
  }

  // A table around its part i, whatever stands in that part.
  lemma AroundPart(ps: seq<seq<Word>>, i: nat, x: seq<Word>)
    requires i < |ps|
    ensures Concat(ps[i := x]) == Concat(ps[..i]) + x + Concat(ps[i + 1..])
  {
    var qs := ps[i := x];
    ConcatSplit(qs, i);
    assert qs[..i] == ps[..i] && qs[i..][1..] == ps[i + 1..];
    assert Concat(qs[i..]) == x + Concat(ps[i + 1..]);
  }

  lemma StartIs(t: Table, i: nat)
    requires i <= 6
    ensures |Concat(Parts(t)[..i])| == Start(t, i)
    ensures |Concat(Parts(t)[i..])| == Size(t) - Start(t, i)
    ensures |Encode(t)| == Size(t)
  {
    var ps := Parts(t);
    Lengths(ps, i);
    ConcatSplit(ps, i);
    Lengths(ps, 6);
    assert ps[..6] == ps;
  }

  lemma Lengths(ps: seq<seq<Word>>, i: nat)
    requires |ps| == 6 && i <= 6
    ensures |Concat(ps[..i])| == (if i > 0 then |ps[0]| else 0) + (if i > 1 then |ps[1]| else 0)
            + (if i > 2 then |ps[2]| else 0) + (if i > 3 then |ps[3]| else 0)
            + (if i > 4 then |ps[4]| else 0) + (if i > 5 then |ps[5]| else 0)
  {
    if i > 0 {
      Lengths(ps, i - 1);
      ConcatSplit(ps[..i], i - 1);
      assert ps[..i][..i - 1] == ps[..i - 1] && ps[..i][i - 1..] == [ps[i - 1]];
      assert Concat([ps[i - 1]]) == ps[i - 1];
    }
  }

  // ---------- the RAM steps keep the table encoded ----------

  // Where the words of part i are.
  lemma PartAt(s: seq<Word>, t: Table, i: nat)
    requires i < 6 && Encode(t) <= s
    ensures Start(t, i) + |Parts(t)[i]| <= Size(t) <= |s|
    ensures s[Start(t, i)..Start(t, i) + |Parts(t)[i]|] == Parts(t)[i]
  {
    hide PackHalves, Flatten, Concat, Halfwords;
    var ps := Parts(t);
    StartIs(t, i);
    AroundPart(ps, i, ps[i]);
    assert ps[i := ps[i]] == ps;
  }

  // xs inserted at place k of part i.
  lemma PartInserted(s: seq<Word>, t: Table, t': Table, i: nat, k: nat, xs: seq<Word>, end: nat)
    requires i < 6 && k <= |Parts(t)[i]| && Encode(t) <= s
    requires Size(t) <= end && end + |xs| <= |s|
    requires Parts(t') == Parts(t)[i := Parts(t)[i][..k] + xs + Parts(t)[i][k..]]
    ensures Start(t, i) + k <= Size(t)
    ensures Encode(t') <= InsertWords(s, Start(t, i) + k, xs, end)
  {
    hide PackHalves, Flatten, Concat, Halfwords, InsertWords;
    var ps := Parts(t);
    StartIs(t, i);
    AroundPart(ps, i, ps[i]);
    assert ps[i := ps[i]] == ps;
    AroundPart(ps, i, ps[i][..k] + xs + ps[i][k..]);
    InsertInside(s, Concat(ps[..i]), ps[i], Concat(ps[i + 1..]), k, xs, end);
  }

  // d words taken out at place k of part i.
  lemma PartRemoved(s: seq<Word>, t: Table, t': Table, i: nat, k: nat, d: nat, n: nat)
    requires i < 6 && k + d <= |Parts(t)[i]| && Encode(t) <= s
    requires Size(t) - Start(t, i) - k - d <= n && Start(t, i) + k + d + n <= |s|
    requires Parts(t') == Parts(t)[i := Parts(t)[i][..k] + Parts(t)[i][k + d..]]
    ensures Encode(t') <= MoveDown(s, Start(t, i) + k, d, n)
  {
    hide PackHalves, Flatten, Concat, Halfwords, MoveDown;
    var ps := Parts(t);
    StartIs(t, i);
    AroundPart(ps, i, ps[i]);
    assert ps[i := ps[i]] == ps;
    AroundPart(ps, i, ps[i][..k] + ps[i][k + d..]);
    MoveDownInside(s, Concat(ps[..i]), ps[i], Concat(ps[i + 1..]), k, d, n);
  }

  // Part i rewritten to x', with one more word opened at its end when x' is longer.
  lemma PartGrown(s: seq<Word>, s1: seq<Word>, t: Table, t': Table, i: nat, x': seq<Word>, end: nat)
    requires i < 6 && Encode(t) <= s && Size(t) <= end < |s|
    requires Parts(t') == Parts(t)[i := x']
    requires |Parts(t)[i]| <= |x'| <= |Parts(t)[i]| + 1
    requires Start(t, i) + |Parts(t)[i]| <= Size(t)
    requires var c := Start(t, i) + |Parts(t)[i]|;
             s1 == if |x'| > |Parts(t)[i]| then InsertWords(s, c, [s[c]], end) else s
    ensures Encode(t') <= Overwrite(s1, Start(t, i), x')
  {
    hide PackHalves, Flatten, Concat, Halfwords, Overwrite, InsertWords;
    var ps := Parts(t);
    StartIs(t, i);
    AroundPart(ps, i, ps[i]);
    assert ps[i := ps[i]] == ps;
    AroundPart(ps, i, x');
    GrowSection(s, s1, Concat(ps[..i]), ps[i], Concat(ps[i + 1..]), x', end);
  }

  // PartGrown for the two halfword sections, which gain a word when their length was even.
  lemma StdGrown(s: seq<Word>, s1: seq<Word>, t: Table, std: seq<Half>, end: nat)
    requires Encode(t) <= s && Start(t, 2) <= Size(t) <= end < |s| && |std| == |t.std| + 1
    requires s1 == if |t.std| % 2 == 0 then InsertWords(s, Start(t, 2), [s[Start(t, 2)]], end) else s
    ensures Encode(t.(std := std)) <= Overwrite(s1, Start(t, 1), PackHalves(std))
  {
    var x := PackHalves(std);
    assert |x| == |Parts(t)[1]| + (1 - |t.std| % 2);
    assert Parts(t.(std := std)) == Parts(t)[1 := x];
    assert Start(t, 2) == Start(t, 1) + |Parts(t)[1]|;
    hide PackHalves, Flatten, Encode, Overwrite, InsertWords, Parts, Start, Size;
    PartGrown(s, s1, t, t.(std := std), 1, x, end);
  }

  lemma FullCanGrown(s: seq<Word>, s1: seq<Word>, t: Table, fc: seq<Half>, end: nat)
    requires Encode(t) <= s && Start(t, 1) <= Size(t) <= end < |s| && |fc| == |t.fullCan| + 1
    requires s1 == if |t.fullCan| % 2 == 0 then InsertWords(s, Start(t, 1), [s[Start(t, 1)]], end) else s
    ensures Encode(t.(fullCan := fc)) <= Overwrite(s1, 0, PackHalves(fc))
  {
    var x := PackHalves(fc);
    assert |x| == |Parts(t)[0]| + (1 - |t.fullCan| % 2);
    assert Parts(t.(fullCan := fc)) == Parts(t)[0 := x];
    assert Start(t, 1) == |Parts(t)[0]| && Start(t, 0) == 0;
    hide PackHalves, Flatten, Encode, Overwrite, InsertWords, Parts, Start, Size;
    PartGrown(s, s1, t, t.(fullCan := fc), 0, x, end);
  }

  lemma GrowSection(s: seq<Word>, s1: seq<Word>, a: seq<Word>, x: seq<Word>, b: seq<Word>, x': seq<Word>, end: nat)
    requires a + x + b <= s && |a + x + b| <= end < |s|
    requires |x| <= |x'| <= |x| + 1
    requires var c := |a| + |x|;
             s1 == if |x'| > |x| then InsertWords(s, c, [s[c]], end) else s
    ensures a + x' + b <= Overwrite(s1, |a|, x')
  {
    var c := |a| + |x|;
    if |x| < |x'| {
      InsertPrefix(s, a + x, [s[c]], b, end);
      assert a + x + [s[c]] + b == a + (x + [s[c]]) + b;
      OverwritePrefix(s1, a, x + [s[c]], b, x');
    } else {
      OverwritePrefix(s, a, x, b, x');
    }
  }

  // Part i rewritten in s1 to x', which is at most one word shorter; the freed word is squeezed out.
  lemma PartShrunk(s: seq<Word>, s1: seq<Word>, t: Table, t': Table, i: nat, x': seq<Word>)
    requires i < 6 && Encode(t) <= s && |s1| == |s|
    requires Parts(t') == Parts(t)[i := x']
    requires |x'| <= |Parts(t)[i]| <= |x'| + 1
    requires Start(t, i) + |Parts(t)[i]| <= Size(t) <= |s|
    requires s1[..Start(t, i)] == s[..Start(t, i)] && s1[Start(t, i)..Start(t, i) + |x'|] == x'
    requires s1[Start(t, i) + |Parts(t)[i]|..] == s[Start(t, i) + |Parts(t)[i]|..]
    ensures |x'| == |Parts(t)[i]| ==> Encode(t') <= s1
    ensures |x'| < |Parts(t)[i]| ==>
              Encode(t') <= MoveDown(s1, Start(t, i) + |x'|, 1, Size(t) - Start(t, i) - |x'| - 1)[Size(t) - 1 := ZERO]
  {
    hide PackHalves, Flatten, Concat, Halfwords, MoveDown;
    var ps := Parts(t);
    StartIs(t, i);
    AroundPart(ps, i, ps[i]);
    assert ps[i := ps[i]] == ps;
    AroundPart(ps, i, x');
    ShrinkSection(s, s1, Concat(ps[..i]), ps[i], Concat(ps[i + 1..]), x');
  }

  lemma ShrinkSection(s: seq<Word>, s1: seq<Word>, a: seq<Word>, x: seq<Word>, b: seq<Word>, x': seq<Word>)
    requires a + x + b <= s && |s1| == |s|
    requires |x'| <= |x| <= |x'| + 1
    requires s1[..|a|] == s[..|a|] && s1[|a|..|a| + |x'|] == x' && s1[|a| + |x|..] == s[|a| + |x|..]
    ensures |x'| == |x| ==> a + x' + b <= s1
    ensures |x'| < |x| ==> a + x' + b <= MoveDown(s1, |a| + |x'|, 1, |b|)[|a + x' + b| := ZERO]
  {
    var w := s1[|a| + |x'|..|a| + |x|];
    assert s1 == Overwrite(s, |a|, x' + w);
    OverwritePrefix(s, a, x, b, x' + w);
    if |x'| < |x| {
      assert a + (x' + w) + b == (a + x') + w + b;
      MoveDownPrefix(s1, a + x', w, b, |b|);
    } else {
      assert x' + w == x';
    }
  }

  lemma FlattenInsert(gs: seq<ExtGroup>, k: nat, g: ExtGroup)
    requires k <= |gs|
    ensures Flatten(InsertAt(gs, k, g)) == Flatten(gs)[..2 * k] + [g.lower, g.upper] + Flatten(gs)[2 * k..]
  {}

  lemma FlattenRemove(gs: seq<ExtGroup>, k: nat)
    requires k < |gs|
    ensures Flatten(RemoveAt(gs, k)) == Flatten(gs)[..2 * k] + Flatten(gs)[2 * k + 2..]
  {}

  // ---------- the FullCAN objects ----------

  // The object step of a FullCAN load, s holding the table with the new entry already in its
  // section.  With an even count before, it opens at an object boundary ...
  lemma ObjectOpenedAligned(s: seq<Word>, t: Table, at: nat, after: Word)
    requires Encode(t) <= s && Size(t) + 3 <= |s| && Start(t, 5) + |t.objects| == Size(t)
    requires at <= |t.objects|
    ensures Encode(t.(objects := OpenObjectAt(t.objects, after, at)))
         <= InsertWords(s, Start(t, 5) + at, GAP, Size(t))
  {
    var o := t.objects;
    var t' := t.(objects := o[..at] + GAP + o[at..]);
    assert OpenObjectAt(o, after, at) == o[..at] + GAP + o[at..];
    PartInserted(s, t, t', 5, at, GAP, Size(t));
  }

  // ... with an odd count one word late, and the word behind the table moves along.
  lemma ObjectOpenedLate(s: seq<Word>, t: Table, at: nat, after: Word)
    requires Encode(t) <= s && Size(t) + 4 <= |s| && Start(t, 5) + |t.objects| == Size(t)
    requires at <= |t.objects| + 1 && s[Size(t)] == after
    ensures Encode(t.(objects := OpenObjectAt(t.objects, after, at)))
         <= InsertWords(s, Start(t, 5) + at, GAP, Size(t) + 1)
  {
    var o1 := t.objects + [after];
    var t1 := t.(objects := o1);
    ObjectsPrefix(t, o1, s);
    OpenedBeyond(s, t1, at);
    ObjectsCut(t.(objects := o1[..at] + GAP + o1[at..]), |t.objects| + 3,
               InsertWords(s, Start(t1, 5) + at, GAP, Size(t1)));
  }

  lemma OpenedBeyond(s: seq<Word>, t1: Table, at: nat)
    requires Encode(t1) <= s && Size(t1) + 3 <= |s| && at <= |t1.objects| && Start(t1, 5) + |t1.objects| == Size(t1)
    ensures Encode(t1.(objects := t1.objects[..at] + GAP + t1.objects[at..]))
         <= InsertWords(s, Start(t1, 5) + at, GAP, Size(t1))
  {
    PartInserted(s, t1, t1.(objects := t1.objects[..at] + GAP + t1.objects[at..]), 5, at, GAP, Size(t1));
  }

  // Words behind the table can be read as more object words, and object words can be dropped.
  lemma ObjectsPrefix(t: Table, o1: seq<Word>, s: seq<Word>)
    requires Encode(t) <= s && t.objects <= o1 && Start(t, 5) <= Size(t)
    requires Size(t) - |t.objects| + |o1| <= |s|
    requires s[Size(t)..Size(t) - |t.objects| + |o1|] == o1[|t.objects|..]
    ensures Encode(t.(objects := o1)) <= s
  {
    var ps := Parts(t);
    assert ps[5] == t.objects;
    StartIs(t, 5);
    AroundPart(ps, 5, ps[5]);
    assert ps[5 := ps[5]] == ps;
    AroundPart(ps, 5, o1);
    assert Concat(ps[6..]) == [];
    assert Parts(t.(objects := o1)) == ps[5 := o1];
    var h := Concat(ps[..5]);
    assert o1 == t.objects + o1[|t.objects|..];
    assert h + o1 == h + t.objects + o1[|t.objects|..];
  }

  lemma ObjectsCut(t: Table, n: nat, s: seq<Word>)
    requires Encode(t) <= s && n <= |t.objects|
    ensures Encode(t.(objects := t.objects[..n])) <= s
  {
    var ps := Parts(t);
    AroundPart(ps, 5, ps[5]);
    assert ps[5 := ps[5]] == ps;
    AroundPart(ps, 5, t.objects[..n]);
    assert Concat(ps[6..]) == [];
    assert Parts(t.(objects := t.objects[..n])) == ps[5 := t.objects[..n]];
    assert Concat(ps[..5]) + t.objects[..n] <= Concat(ps[..5]) + t.objects;
  }

  // The object step of a FullCAN removal.
  lemma ObjectClosed(s: seq<Word>, t: Table, at: nat, n: nat)
    requires Encode(t) <= s && Start(t, 5) <= Size(t) && 3 <= |t.objects|
    requires at + 3 <= |t.objects| + 1 && |t.objects| <= at + 3 + n && Start(t, 5) + at + 3 + n <= |s|
    ensures Encode(t.(objects := CloseObjectAt(t.objects, at))) <= MoveDown(s, Start(t, 5) + at, 3, n)
  {
    var o := t.objects;
    if at + 3 <= |o| {
      PartRemoved(s, t, t.(objects := o[..at] + o[at + 3..]), 5, at, 3, n);
    } else {
      var r := MoveDown(s, Start(t, 5) + at, 3, n);
      ObjectsCut(t, |o| - 3, s);
      StartIs(t.(objects := o[..|o| - 3]), 5);
    }
  }

  // ---------- the first group of a kind ----------

  lemma FlattenUnflatten(ws: seq<Word>)
    requires |ws| % 2 == 0
    ensures Flatten(Unflatten(ws)) == ws
  {}

  // The words from part 3 on.
  lemma BehindIs(t: Table)
    ensures Concat(Parts(t)[3..]) == BehindGroups(t)
  {
    var ps := Parts(t)[3..];
    assert ps == [t.ext, Flatten(t.extGroups), t.objects];
    assert ps[1..] == [Flatten(t.extGroups), t.objects] && ps[1..][1..] == [t.objects];
    assert Concat(ps[1..][1..]) == t.objects;
    assert Concat(ps[1..]) == Flatten(t.extGroups) + t.objects;
  }

  lemma FirstGroupEncoded(s: seq<Word>, t: Table, entry: Word, after: Word)
    requires Encode(t) <= s && t.groups == [] && Size(t) < |s| && s[Size(t)] == after
    requires Start(t, 2) <= Size(t)
    ensures Encode(AddFirstGroup(t, entry, after)) <= s[Start(t, 2) := entry]
  {
    var t' := AddFirstGroup(t, entry, after);
    var w := BehindGroups(t);
    var w' := (w + [after])[1..];
    BehindRead(t, w');
    StartIs(t, 2);
    AroundPart(Parts(t), 2, []);
    assert Parts(t)[2 := []] == Parts(t);
    AroundPart(Parts(t'), 2, [entry]);
    assert Parts(t')[2 := [entry]] == Parts(t');
    BehindIs(t);
    BehindIs(t');
    var a := Concat(Parts(t)[..2]);
    assert Parts(t')[..2] == Parts(t)[..2];
    OverwriteOne(s, a, w, entry, after);
  }

  lemma BehindRead(t: Table, ws: seq<Word>)
    requires |ws| == |t.ext| + 2 * |t.extGroups| + |t.objects|
    ensures BehindGroups(WithBehindGroups(t, ws)) == ws
  {
    var e, x := |t.ext|, |t.ext| + 2 * |t.extGroups|;
    FlattenUnflatten(ws[e..x]);
    assert Flatten(WithBehindGroups(t, ws).extGroups) == ws[e..x];
    ThreeParts(ws, e, x);
  }

  lemma ThreeParts(ws: seq<Word>, e: nat, x: nat)
    requires e <= x <= |ws|
    ensures ws == ws[..e] + (ws[e..x] + ws[x..])
  {}

  lemma OverwriteOne(s: seq<Word>, a: seq<Word>, w: seq<Word>, entry: Word, after: Word)
    requires a + [] + w <= s && |a| + |w| < |s| && s[|a| + |w|] == after
    ensures a + [entry] + (w + [after])[1..] <= s[|a| := entry]
  {
    assert forall i {:trigger s[i]} :: 0 <= i < |a| + |w| ==> s[i] == (a + [] + w)[i];
  }

  lemma OverwriteTwo(s: seq<Word>, a: seq<Word>, w: seq<Word>, g: ExtGroup, after: seq<Word>)
    requires a + w <= s && |after| == 2 && |a| + |w| + 2 <= |s| && s[|a| + |w|..|a| + |w| + 2] == after
    ensures a + ([g.lower, g.upper] + (w + after)[2..]) <= s[|a| := g.lower][|a| + 1 := g.upper]
  {
    assert forall i {:trigger s[i]} :: 0 <= i < |a| + |w| ==> s[i] == (a + w)[i];
    assert forall i {:trigger s[i]} :: |a| + |w| <= i < |a| + |w| + 2 ==> s[i] == after[i - |a| - |w|];
  }

  lemma FirstExtGroupEncoded(s: seq<Word>, t: Table, g: ExtGroup, after: seq<Word>)
    requires Encode(t) <= s && t.extGroups == [] && |after| == 2 && Size(t) + 2 <= |s|
    requires s[Size(t)..Size(t) + 2] == after && Start(t, 4) + |t.objects| == Size(t)
    ensures Encode(AddFirstExtGroup(t, g, after)) <= s[Start(t, 4) := g.lower][Start(t, 4) + 1 := g.upper]
  {
    var t' := AddFirstExtGroup(t, g, after);
    StartIs(t, 4);
    ConcatSplit(Parts(t), 4);
    ConcatSplit(Parts(t'), 4);
    LastTwo(t);
    LastTwo(t');
    assert Parts(t')[..4] == Parts(t)[..4];
    assert Flatten([g]) == [g.lower, g.upper];
    assert Flatten([]) + t.objects == t.objects;
    OverwriteTwo(s, Concat(Parts(t)[..4]), t.objects, g, after);
  }

  lemma LastTwo(t: Table)
    ensures Concat(Parts(t)[4..]) == Flatten(t.extGroups) + t.objects
  {
    var ps := Parts(t)[4..];
    assert ps == [Flatten(t.extGroups), t.objects];
    assert ps[1..] == [t.objects];
    assert Concat(ps[1..]) == t.objects;
  }

  // ---------- the walk over the groups ----------

  // One step of the walk, at range i.
  lemma SlotStep(rs: seq<Range>, i: nat, lower: int, upper: int)
    requires i <= |rs|
    ensures FindSlot(rs[i..], lower, upper) ==
            if i == |rs| || upper <= rs[i].lower then At(0)
            else if lower >= rs[i].upper then Later(FindSlot(rs[i + 1..], lower, upper), 1)
            else Conflict
  {
    if i < |rs| {
      assert rs[i..][1..] == rs[i + 1..];
    }
  }

  function Later(s: Slot, i: nat): Slot { match s case At(k) => At(k + i) case Conflict => Conflict }
}

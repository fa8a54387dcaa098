/**
  Reset-time initialisation: the walk over the section table in memory, copying the data sections from
  their load images and clearing the bss sections.  Memory is an array of words, one per four bytes of
  address, and the addresses in the table are those of whole words.
 */
module Startup {
  type Word = x: nat | x < 0x1_0000_0000

  // Words a loop advancing four bytes at a time covers for this many bytes.
  function Words(len: nat): nat { (len + 3) / 4 }

  datatype Data = Data(load: nat, exe: nat, count: nat)
  datatype Bss = Bss(exe: nat, count: nat)

  // Entry i of the data table that starts at word t, in words.
  function DataAt(mem: seq<Word>, t: nat, i: nat): Data
    requires t + 3 * i + 3 <= |mem|
  {
    Data(mem[t + 3 * i] / 4, mem[t + 3 * i + 1] / 4, Words(mem[t + 3 * i + 2]))
  }

  function BssAt(mem: seq<Word>, t: nat, i: nat): Bss
    requires t + 2 * i + 2 <= |mem|
  {
    Bss(mem[t + 2 * i] / 4, Words(mem[t + 2 * i + 1]))
  }

  // Where the linker put the tables: n data entries from word start, then m bss entries.
  datatype Table = Table(start: nat, n: nat, m: nat) {
    function BssStart(): nat { start + 3 * n }
    function End(): nat { start + 3 * n + 2 * m }
  }

  predicate Apart(a: nat, x: nat, b: nat, y: nat) {
    a + x <= b || b + y <= a || x == 0 || y == 0
  }

  // Section k of the table: data entries first, then bss entries.
  function Dest(mem: seq<Word>, t: Table, k: nat): Bss
    requires t.End() <= |mem| && k < t.n + t.m
  {
    if k < t.n then Bss(DataAt(mem, t.start, k).exe, DataAt(mem, t.start, k).count)
    else BssAt(mem, t.BssStart(), k - t.n)
  }

  // Destinations lie in memory, apart from one another, from the table and from every load image.
  predicate WellFormed(mem: seq<Word>, t: Table) {
    && t.End() <= |mem|
    && (forall k :: 0 <= k < t.n + t.m ==>
          var d := Dest(mem, t, k);
          d.exe + d.count <= |mem| && Apart(d.exe, d.count, t.start, t.End() - t.start))
    && (forall j, k :: 0 <= j < k < t.n + t.m ==>
          Apart(Dest(mem, t, j).exe, Dest(mem, t, j).count, Dest(mem, t, k).exe, Dest(mem, t, k).count))
    && (forall i :: 0 <= i < t.n ==> DataAt(mem, t.start, i).load + DataAt(mem, t.start, i).count <= |mem|)
    && (forall i, k :: 0 <= i < t.n && 0 <= k < t.n + t.m ==>
          Apart(Dest(mem, t, k).exe, Dest(mem, t, k).count, DataAt(mem, t.start, i).load,
              DataAt(mem, t.start, i).count))
  }

  predicate Covers(d: Bss, a: nat) { d.exe <= a < d.exe + d.count }

  // What section k leaves at address a of its destination.
  function Fill(mem: seq<Word>, t: Table, k: nat, a: nat): Word
    requires WellFormed(mem, t) && k < t.n + t.m && Covers(Dest(mem, t, k), a)
  {
    if k < t.n then mem[DataAt(mem, t.start, k).load + (a - DataAt(mem, t.start, k).exe)] else 0
  }

  // The first s sections are in place and nothing else has changed.
  ghost predicate Placed(was: seq<Word>, mem: seq<Word>, t: Table, s: nat)
    requires WellFormed(was, t) && s <= t.n + t.m
  {
    && |mem| == |was|
    && (forall k, a :: 0 <= k < s && 0 <= a < |was| && Covers(Dest(was, t, k), a) ==> mem[a] == Fill(was, t, k, a))
    && (forall a :: 0 <= a < |was| && (forall k :: 0 <= k < s ==> !Covers(Dest(was, t, k), a)) ==> mem[a] == was[a])
  }

  /** Placement determines the memory: no two outcomes meet it. */
  lemma PlacedOnce(was: seq<Word>, a: seq<Word>, b: seq<Word>, t: Table, s: nat)
    requires WellFormed(was, t) && s <= t.n + t.m && Placed(was, a, t, s) && Placed(was, b, t, s)
    ensures a == b
  {
    forall i | 0 <= i < |was| ensures a[i] == b[i] {
      if k :| 0 <= k < s && Covers(Dest(was, t, k), i) {
        assert a[i] == Fill(was, t, k, i);
      }
    }
  }

  // cr_startup_lpc176x.c:216-222
  method DataInit(mem: array<Word>, romstart: Word, start: Word, len: Word)
    requires romstart / 4 + Words(len) <= mem.Length && start / 4 + Words(len) <= mem.Length
    requires Apart(start / 4, Words(len), romstart / 4, Words(len))
    modifies mem
    ensures forall a :: 0 <= a < mem.Length ==>
              mem[a] == if start / 4 <= a < start / 4 + Words(len) then old(mem[romstart / 4 + (a - start / 4)])
                  else old(mem[a])
  {
    var pulDest, pulSrc, loop := start / 4, romstart / 4, 0;
    ghost var was := mem[..];
    while loop < len
      invariant loop % 4 == 0 && loop / 4 <= Words(len)
      invariant pulDest == start / 4 + loop / 4 && pulSrc == romstart / 4 + loop / 4
      invariant forall a {:trigger mem[a]} :: 0 <= a < mem.Length ==>
                  mem[a] == if start / 4 <= a < pulDest then was[romstart / 4 + (a - start / 4)] else was[a]
    {
      mem[pulDest] := mem[pulSrc];
      pulDest, pulSrc, loop := pulDest + 1, pulSrc + 1, loop + 4;
    }
  }

  // cr_startup_lpc176x.c:225-230
  method BssInit(mem: array<Word>, start: Word, len: Word)
    requires start / 4 + Words(len) <= mem.Length
    modifies mem
    ensures forall a :: 0 <= a < mem.Length ==>
        mem[a] == if start / 4 <= a < start / 4 + Words(len) then 0 else old(mem[a])
  {
    var pulDest, loop := start / 4, 0;
    ghost var was := mem[..];
    while loop < len
      invariant loop % 4 == 0 && loop / 4 <= Words(len) && pulDest == start / 4 + loop / 4
      invariant forall a {:trigger mem[a]} :: 0 <= a < mem.Length ==>
          mem[a] == if start / 4 <= a < pulDest then 0 else was[a]
    {
      mem[pulDest] := 0;
      pulDest, loop := pulDest + 1, loop + 4;
    }
  }

  // A word of the table, or of a load image, is in no destination.
  lemma Untouched(was: seq<Word>, mem: seq<Word>, t: Table, s: nat, a: nat)
    requires WellFormed(was, t) && s <= t.n + t.m && Placed(was, mem, t, s) && a < |was|
    requires t.start <= a < t.End() ||
             exists i :: 0 <= i < t.n && DataAt(was, t.start, i).load
                 <= a < DataAt(was, t.start, i).load + DataAt(was, t.start, i).count
    ensures mem[a] == was[a]
  {
    forall k | 0 <= k < s ensures !Covers(Dest(was, t, k), a) {
      var d := Dest(was, t, k);
      assert Apart(d.exe, d.count, t.start, t.End() - t.start);
    }
  }

  // Filling the next section's destination, and only that, places one section more.
  lemma PlaceNext(was: seq<Word>, mem: seq<Word>, after: seq<Word>, t: Table, s: nat)
    requires WellFormed(was, t) && s < t.n + t.m && Placed(was, mem, t, s) && |after| == |mem|
    requires forall a :: 0 <= a < |mem| && !Covers(Dest(was, t, s), a) ==> after[a] == mem[a]
    requires forall a :: 0 <= a < |mem| && Covers(Dest(was, t, s), a) ==> after[a] == Fill(was, t, s, a)
    ensures Placed(was, after, t, s + 1)
  {
    TableIn(was, t);
    hide WellFormed, Fill, Dest, Covers, Placed;
    forall k, a | 0 <= k < s + 1 && 0 <= a < |was| && Covers(Dest(was, t, k), a)
      ensures after[a] == Fill(was, t, k, a)
    {
      if k < s {
        StaysFilled(was, mem, after, t, s, k, a);
      }
    }
    forall a | 0 <= a < |was| && (forall k :: 0 <= k < s + 1 ==> !Covers(Dest(was, t, k), a))
      ensures after[a] == was[a]
    {
      StaysKept(was, mem, after, t, s, a);
    }
    PlacedIs(was, mem, after, t, s + 1);
  }

  lemma PlacedIs(was: seq<Word>, mem: seq<Word>, after: seq<Word>, t: Table, s: nat)
    requires WellFormed(was, t) && s <= t.n + t.m && |after| == |mem| && 0 < s && Placed(was, mem, t, s - 1)
    requires forall k, a :: 0 <= k < s && 0 <= a < |was| && Covers(Dest(was, t, k), a) ==>
        after[a] == Fill(was, t, k, a)
    requires forall a :: 0 <= a < |was| && (forall k :: 0 <= k < s ==> !Covers(Dest(was, t, k), a)) ==>
        after[a] == was[a]
    ensures Placed(was, after, t, s)
  {
    hide WellFormed, Fill, Dest, Covers;
  }

  lemma StaysKept(was: seq<Word>, mem: seq<Word>, after: seq<Word>, t: Table, s: nat, a: nat)
    requires WellFormed(was, t) && s < t.n + t.m && Placed(was, mem, t, s) && |after| == |mem| && a < |was|
    requires forall k :: 0 <= k < s + 1 ==> !Covers(Dest(was, t, k), a)
    requires !Covers(Dest(was, t, s), a) ==> after[a] == mem[a]
    ensures after[a] == was[a]
  {
    hide WellFormed, Fill, Covers, Dest;
  }

  lemma StaysFilled(was: seq<Word>, mem: seq<Word>, after: seq<Word>, t: Table, s: nat, k: nat, a: nat)
    requires WellFormed(was, t) && k < s < t.n + t.m && Placed(was, mem, t, s) && |after| == |mem|
    requires a < |was| && Covers(Dest(was, t, k), a)
    requires !Covers(Dest(was, t, s), a) ==> after[a] == mem[a]
    ensures after[a] == Fill(was, t, k, a)
  {
    DestsApart(was, t, k, s);
    hide WellFormed, Fill, Dest;
    assert mem[a] == Fill(was, t, k, a);
  }

  lemma TableIn(was: seq<Word>, t: Table)
    requires WellFormed(was, t)
    ensures t.End() <= |was|
  {}

  lemma DestsApart(was: seq<Word>, t: Table, j: nat, k: nat)
    requires WellFormed(was, t) && j < k < t.n + t.m
    ensures t.End() <= |was|
    ensures Apart(Dest(was, t, j).exe, Dest(was, t, j).count, Dest(was, t, k).exe, Dest(was, t, k).count)
  {}

  // A load image and its destination lie in memory.
  lemma SectionIn(was: seq<Word>, t: Table, i: nat)
    requires WellFormed(was, t) && i < t.n
    ensures t.End() <= |was|
    ensures var d := DataAt(was, t.start, i); d.load + d.count <= |was| && d.exe + d.count <= |was|
  {
    assert Dest(was, t, i).count == DataAt(was, t.start, i).count;
  }

  lemma TableStands(was: seq<Word>, mem: seq<Word>, t: Table, s: nat)
    requires WellFormed(was, t) && s < t.n && Placed(was, mem, t, s)
    ensures t.End() <= |mem| && DataAt(mem, t.start, s) == DataAt(was, t.start, s)
  {
    Untouched(was, mem, t, s, t.start + 3 * s);
    Untouched(was, mem, t, s, t.start + 3 * s + 1);
    Untouched(was, mem, t, s, t.start + 3 * s + 2);
  }

  lemma ImageStands(was: seq<Word>, mem: seq<Word>, t: Table, s: nat)
    requires WellFormed(was, t) && s < t.n && Placed(was, mem, t, s)
    ensures var d := DataAt(was, t.start, s);
            && |mem| == |was| && d.load + d.count <= |mem| && d.exe + d.count <= |mem|
            && Apart(d.exe, d.count, d.load, d.count)
            && forall a :: d.load <= a < d.load + d.count ==> mem[a] == was[a]
  {
    var d, e := DataAt(was, t.start, s), Dest(was, t, s);
    assert Apart(e.exe, e.count, d.load, d.count);
    forall a | d.load <= a < d.load + d.count ensures mem[a] == was[a] {
      Untouched(was, mem, t, s, a);
    }
  }

  // What the copy loop does is what placing a data section asks for.
  lemma FilledFrom(was: seq<Word>, mid: seq<Word>, after: seq<Word>, t: Table, s: nat)
    requires WellFormed(was, t) && s < t.n && Placed(was, mid, t, s) && |after| == |mid|
    requires var d := DataAt(was, t.start, s);
             && d.load + d.count <= |mid|
             && forall a {:trigger after[a]} :: 0 <= a < |mid| ==>
                 after[a] == if d.exe <= a < d.exe + d.count then mid[d.load + (a - d.exe)] else mid[a]
    ensures Placed(was, after, t, s + 1)
  {
    ImageStands(was, mid, t, s);
    var d, e := DataAt(was, t.start, s), Dest(was, t, s);
    assert e == Bss(d.exe, d.count);
    forall a | 0 <= a < |mid| ensures after[a] == if Covers(e, a) then Fill(was, t, s, a) else mid[a] {
      if Covers(e, a) {
        assert after[a] == mid[d.load + (a - d.exe)];
        assert was[d.load + (a - d.exe)] == mid[d.load + (a - d.exe)];
        assert Fill(was, t, s, a) == was[d.load + (a - d.exe)];
      } else {
        assert !(d.exe <= a < d.exe + d.count);
        assert after[a] == mid[a];
      }
    }
    hide WellFormed, Placed, Dest, Fill;
    PlaceNext(was, mid, after, t, s);
  }

  // One turn of the data loop: three words of the table, then the copy.
  method PlaceData(mem: array<Word>, t: Table, addr: nat, ghost s: nat, ghost was: seq<Word>)
    requires WellFormed(was, t) && s < t.n && addr == t.start + 3 * s && Placed(was, mem[..], t, s)
    modifies mem
    ensures Placed(was, mem[..], t, s + 1)
  {
    ghost var mid := mem[..];
    TableStands(was, mid, t, s);
    ImageStands(was, mid, t, s);
    var loadAddr, exeAddr, sectionLen := mem[addr], mem[addr + 1], mem[addr + 2];
    assert DataAt(mem[..], t.start, s) == Data(loadAddr / 4, exeAddr / 4, Words(sectionLen));
    hide Placed, Apart, Words;
    DataInit(mem, loadAddr, exeAddr, sectionLen);
    FilledFrom(was, mid, mem[..], t, s);
  }

  // One turn of the bss loop: two words of the table, then the clearing.
  method PlaceBss(mem: array<Word>, t: Table, addr: nat, ghost s: nat, ghost was: seq<Word>)
    requires WellFormed(was, t) && t.n <= s < t.n + t.m && addr == t.BssStart() + 2 * (s - t.n)
        && Placed(was, mem[..], t, s)
    modifies mem
    ensures Placed(was, mem[..], t, s + 1)
  {
    ghost var mid := mem[..];
    Untouched(was, mid, t, s, addr);
    Untouched(was, mid, t, s, addr + 1);
    var exeAddr, sectionLen := mem[addr], mem[addr + 1];
    ghost var e := Dest(was, t, s);
    BssInit(mem, exeAddr, sectionLen);
    PlaceNext(was, mid, mem[..], t, s);
  }

  // cr_startup_lpc176x.c:281-296 : both loops over the table, whose entries are read from memory.
  method ResetSections(mem: array<Word>, t: Table)
    requires WellFormed(mem[..], t)
    modifies mem
    ensures Placed(old(mem[..]), mem[..], t, t.n + t.m)
  {
    ghost var was, s := mem[..], 0;
    var sectionTableAddr := t.start;
    while sectionTableAddr < t.BssStart()
      invariant 0 <= s <= t.n && sectionTableAddr == t.start + 3 * s && Placed(was, mem[..], t, s)
    {
      PlaceData(mem, t, sectionTableAddr, s, was);
      sectionTableAddr, s := sectionTableAddr + 3, s + 1;
    }
    while sectionTableAddr < t.End()
      invariant t.n <= s <= t.n + t.m && sectionTableAddr == t.BssStart() + 2 * (s - t.n) && Placed(was, mem[..], t, s)
    {
      PlaceBss(mem, t, sectionTableAddr, s, was);
      sectionTableAddr, s := sectionTableAddr + 2, s + 1;
    }
  }

  // The table as the linker wrote it, word by word: entry i of the data part is the byte address of the
  // load image, that of the destination and the length in bytes; entry j of the bss part lacks the first.
  predicate DataEntry(mem: seq<Word>, t: Table, i: nat, load: nat, exe: nat, bytes: nat)
    requires t.End() <= |mem|
  {
    i < t.n && mem[t.start + 3 * i] == load && mem[t.start + 3 * i + 1] == exe && mem[t.start + 3 * i + 2] == bytes
  }

  predicate BssEntry(mem: seq<Word>, t: Table, j: nat, exe: nat, bytes: nat)
    requires t.End() <= |mem|
  {
    && j < t.m
    && mem[t.start + 3 * t.n + 2 * j] == exe && mem[t.start + 3 * t.n + 2 * j + 1] == bytes
  }

  /** In those terms: each word of a data section is the one at the same place of its load image. */
  lemma DataLoaded(was: seq<Word>, mem: seq<Word>, t: Table, i: nat, load: nat, exe: nat, bytes: nat, w: nat)
    requires WellFormed(was, t) && Placed(was, mem, t, t.n + t.m)
    requires DataEntry(was, t, i, load, exe, bytes) && 4 * w < bytes
    ensures load / 4 + w < |was| && exe / 4 + w < |mem| && mem[exe / 4 + w] == was[load / 4 + w]
  {
    var a := exe / 4 + w;
    SectionIn(was, t, i);
    hide WellFormed;
    assert Covers(Dest(was, t, i), a);
    assert mem[a] == Fill(was, t, i, a);
  }

  /** Each word of a bss section is zero. */
  lemma BssCleared(was: seq<Word>, mem: seq<Word>, t: Table, j: nat, exe: nat, bytes: nat, w: nat)
    requires WellFormed(was, t) && Placed(was, mem, t, t.n + t.m)
    requires BssEntry(was, t, j, exe, bytes) && 4 * w < bytes
    ensures exe / 4 + w < |mem| && mem[exe / 4 + w] == 0
  {
    var a := exe / 4 + w;
    assert Dest(was, t, t.n + j) == Bss(exe / 4, Words(bytes));
    assert Covers(Dest(was, t, t.n + j), a);
    assert mem[a] == Fill(was, t, t.n + j, a);
  }

  /** A word that belongs to no section is as it was. */
  lemma OthersKept(was: seq<Word>, mem: seq<Word>, t: Table, a: nat)
    requires WellFormed(was, t) && Placed(was, mem, t, t.n + t.m) && a < |was|
    requires forall i: nat, load: nat, exe: nat, bytes: nat :: DataEntry(was, t, i, load, exe, bytes) ==>
        a < exe / 4 || exe / 4 + (bytes + 3) / 4 <= a
    requires forall j: nat, exe: nat, bytes: nat :: BssEntry(was, t, j, exe, bytes) ==>
        a < exe / 4 || exe / 4 + (bytes + 3) / 4 <= a
    ensures |mem| == |was| && mem[a] == was[a]
  {
    forall k | 0 <= k < t.n + t.m ensures !Covers(Dest(was, t, k), a) {
      if k < t.n {
        assert DataEntry(was, t, k, was[t.start + 3 * k], was[t.start + 3 * k + 1], was[t.start + 3 * k + 2]);
      } else {
        var at := t.start + 3 * t.n + 2 * (k - t.n);
        assert BssEntry(was, t, k - t.n, was[at], was[at + 1]);
      }
    }
  }
}

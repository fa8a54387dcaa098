/**
  The acceptance-filter driver: look-up-table RAM, entry counters and filter registers, and the
  calls that add and remove entries.  Each call's contract is the functions of CanCalls applied to
  the state before.
 */
module CanFilter {
  import opened CanWords
  import opened CanTable
  import opened CanRam
  import opened CanCalls
  import opened CanSetup

  class AcceptanceFilter {
    // The memory from the first word of the RAM on.  The RAM is its first 512 words; the driver's
    // shifts may go further.
    const ram: array<Word>
    var fullCnt: nat
    var stdCnt: nat
    var gstdCnt: nat
    var extCnt: nat
    var gextCnt: nat
    var starts: Registers
    var afmr: UInt32

    // What RAM and counters mean.
    ghost var table: Table

    ghost predicate Valid()
      reads this, ram
    {
      && RAM_WORDS <= ram.Length && InRam(ram, table)
      && CountersMatch(table)
      && |table.objects| == 3 * |table.fullCan|
    }

    ghost predicate CountersMatch(t: Table)
      reads this
    {
      && fullCnt == |t.fullCan| && stdCnt == |t.std| && gstdCnt == |t.groups|
      && extCnt == |t.ext| && gextCnt == |t.extGroups|
    }

    // lpc17xx_can.c:51-55, 169-184 : power-on counters, then the table reset of CAN_Init.
    constructor (words: nat)
      requires RAM_WORDS <= words
      ensures Valid() && starts == StartsOf(table) && fresh(ram)
      ensures table == EMPTY && afmr == AFMR_NORMAL
      ensures ram.Length == words && ram[..RAM_WORDS] == seq(RAM_WORDS, _ => ZERO)
    {
      ram := new Word[words](_ => ZERO);
      fullCnt, stdCnt, gstdCnt, extCnt, gextCnt := 0, 0, 0, 0, 0;
      starts := Registers(0, 0, 0, 0, 0);
      afmr := AFMR_NORMAL;
      table := EMPTY;
      new;
      StartIs(EMPTY, 0);
      assert Encode(EMPTY) == [];
    }

    // From the old state to the current one, `call` returned `status` and did what CanCalls says.
    twostate predicate Performed(call: Call, status: CanError)
      requires old(Valid())
      reads this, ram
    {
      && status == StatusOf(old(table), call)
      && table == TableAfter(old(table), call, old(WordsBehind(ram, table)))
      && starts == StartsAfter(old(starts), old(table), call)
      && afmr == AfmrAfter(old(afmr), old(table), call)
      && (status != Ok ==> ram[..] == old(ram[..]))
    }

    // All words in use, as the load calls compute it from the counters.
    function Total(): nat
      reads this
    {
      (fullCnt + 1) / 2 + fullCnt * 3 + (stdCnt + 1) / 2 + gstdCnt + extCnt + gextCnt * 2
    }

    // lpc17xx_can.c:488-684
    method LoadExplicitEntry(ctrl: Controller, id: UInt32, format: IdFormat) returns (status: CanError, ghost top: nat)
      requires Valid() && InBounds(table, LoadExplicit(ctrl, id, format), ram.Length)
      modifies this, ram
      ensures Valid() && Performed(LoadExplicit(ctrl, id, format), status)
          && Accessed(old(table), LoadExplicit(ctrl, id, format), top)
    {
      if format.Standard? {
        status, top := LoadStandardEntry(ctrl, id);
      } else {
        status, top := LoadExtendedEntry(ctrl, id);
      }
    }

    // lpc17xx_can.c:507-634, 674-683
    method LoadStandardEntry(ctrl: Controller, id: UInt32) returns (status: CanError, ghost top: nat)
      requires Valid()
      modifies this, ram
      ensures Valid() && Performed(LoadExplicit(ctrl, id, Standard), status)
          && Accessed(old(table), LoadExplicit(ctrl, id, Standard), top)
    {
      assert StdEntry(ctrl, id) < PAD;
      hide InRam, WordsBehind, AddStd, StdEntry, MoveStarts;
      ghost var t, call, behind := table, LoadExplicit(ctrl, id, Standard), WordsBehind(ram, table);
      var total := Total();
      if total >= RAM_WORDS {
        return ObjectsFull, 0;
      }
      top := LoadStandard(ram, t, fullCnt, stdCnt, StdEntry(ctrl, id), total);
      stdCnt := stdCnt + 1;
      starts := MoveStarts(starts, 2, 4);
      afmr := if fullCnt == 0 then AFMR_NORMAL else AFMR_FULLCAN;
      table := TableAfter(t, call, behind);
      status := Ok;
    }

    // lpc17xx_can.c:507-516, 637-683
    method LoadExtendedEntry(ctrl: Controller, id: UInt32) returns (status: CanError, ghost top: nat)
      requires Valid() && InBounds(table, LoadExplicit(ctrl, id, Extended), ram.Length)
      modifies this, ram
      ensures Valid() && Performed(LoadExplicit(ctrl, id, Extended), status)
          && Accessed(old(table), LoadExplicit(ctrl, id, Extended), top)
    {
      hide InRam, WordsBehind, AddExt, ExtEntry, MoveStarts;
      ghost var t, call, behind := table, LoadExplicit(ctrl, id, Extended), WordsBehind(ram, table);
      var total := Total();
      if total >= RAM_WORDS {
        return ObjectsFull, 0;
      }
      top := LoadExtended(ram, t, (fullCnt + 1) / 2 + ((stdCnt + 1) / 2 + gstdCnt), extCnt, ExtEntry(ctrl, id), total);
      extCnt := extCnt + 1;
      starts := MoveStarts(starts, 4, 4);
      afmr := if fullCnt == 0 then AFMR_NORMAL else AFMR_FULLCAN;
      table := TableAfter(t, call, behind);
      status := Ok;
    }

    // lpc17xx_can.c:697-867
    method LoadFullCanEntry(ctrl: Controller, id: UInt32) returns (status: CanError, ghost top: nat)
      requires Valid() && InBounds(table, LoadFullCan(ctrl, id), ram.Length)
      modifies this, ram
      ensures Valid() && Performed(LoadFullCan(ctrl, id), status) && Accessed(old(table), LoadFullCan(ctrl, id), top)
    {
      hide FullCanLoaded;
      ghost var t, call, behind := table, Call.LoadFullCan(ctrl, id), WordsBehind(ram, table);
      var total := Total();
      if total >= 508 || fullCnt >= 64 {
        return ObjectsFull, 0;
      }
      assert FullCanEntry(ctrl, id) < PAD;
      hide InRam, WordsBehind, AddFullCan, FullCanEntry, MoveStarts;
      top := CanRam.LoadFullCan(ram, t, fullCnt, FullCanEntry(ctrl, id), total, behind);
      fullCnt := fullCnt + 1;
      starts := MoveStarts(starts, 1, 4);
      afmr := AFMR_FULLCAN;
      table := TableAfter(t, call, behind);
      status := Ok;
    }

    // lpc17xx_can.c:893-1047
    method LoadGroupEntry(ctrl: Controller, lower: UInt32, upper: UInt32, format: IdFormat)
        returns (status: CanError, ghost top: nat)
      requires Valid() && InBounds(table, LoadGroup(ctrl, lower, upper, format), ram.Length)
      modifies this, ram
      ensures Valid() && Performed(LoadGroup(ctrl, lower, upper, format), status)
          && Accessed(old(table), LoadGroup(ctrl, lower, upper, format), top)
    {
      if lower > upper {
        return ConflictId, 0;
      }
      if format.Standard? {
        status, top := LoadStandardGroup(ctrl, lower, upper);
      } else {
        status, top := LoadExtendedGroup(ctrl, lower, upper);
      }
    }

    // lpc17xx_can.c:911-971, 1045
    method LoadStandardGroup(ctrl: Controller, lower: UInt32, upper: UInt32) returns (status: CanError, ghost top: nat)
      requires Valid() && lower <= upper
      modifies this, ram
      ensures Valid() && Performed(LoadGroup(ctrl, lower, upper, Standard), status)
          && Accessed(old(table), LoadGroup(ctrl, lower, upper, Standard), top)
    {
      hide InRam, WordsBehind, LoadedStdGroup, GroupEntry, MoveStarts, FindSlot, StdRanges;
      ghost var t, call, behind := table, LoadGroup(ctrl, lower, upper, Standard), WordsBehind(ram, table);
      var total := Total();
      afmr := AFMR_OFF;
      if total >= RAM_WORDS {
        return ObjectsFull, 0;
      }
      var conflict;
      conflict, top := LoadStdGroup(ram, t, (fullCnt + 1) / 2 + (stdCnt + 1) / 2, gstdCnt,
          GroupEntry(ctrl, lower, upper),
                                   lower % 0x800, upper % 0x800, total, behind);
      if conflict {
        return ConflictId, 0;
      }
      gstdCnt := gstdCnt + 1;
      starts := MoveStarts(starts, 3, 4);
      afmr := AFMR_FULLCAN;
      table := TableAfter(t, call, behind);
      status := Ok;
    }

    // lpc17xx_can.c:975-1045
    method LoadExtendedGroup(ctrl: Controller, lower: UInt32, upper: UInt32) returns (status: CanError, ghost top: nat)
      requires Valid() && lower <= upper && InBounds(table, LoadGroup(ctrl, lower, upper, Extended), ram.Length)
      modifies this, ram
      ensures Valid() && Performed(LoadGroup(ctrl, lower, upper, Extended), status)
          && Accessed(old(table), LoadGroup(ctrl, lower, upper, Extended), top)
    {
      hide InRam, WordsBehind, LoadedExtGroup, ExtGroupEntry, MoveStarts, FindSlot, ExtRanges;
      ghost var t, call, behind := table, LoadGroup(ctrl, lower, upper, Extended), WordsBehind(ram, table);
      var total := Total();
      afmr := AFMR_OFF;
      if total >= RAM_WORDS - 1 {
        return ObjectsFull, 0;
      }
      var conflict;
      conflict, top := LoadExtGroup(ram, t, (fullCnt + 1) / 2 + (stdCnt + 1) / 2 + gstdCnt + extCnt, gextCnt,
                                   ExtGroupEntry(ctrl, lower, upper), lower % 0x2000_0000, upper % 0x2000_0000, total,
                                       behind);
      if conflict {
        return ConflictId, 0;
      }
      gextCnt := gextCnt + 1;
      starts := MoveStarts(starts, 5, 8);
      afmr := AFMR_FULLCAN;
      table := TableAfter(t, call, behind);
      status := Ok;
    }
  
    // lpc17xx_can.c:1063-1290
    method RemoveEntry(entryType: EntryType, position: nat) returns (status: CanError, ghost top: nat)
      requires Valid() && InBounds(table, Remove(entryType, position), ram.Length)
      modifies this, ram
      ensures Valid() && Performed(Remove(entryType, position), status)
          && Accessed(old(table), Remove(entryType, position), top)
    {
      match entryType
      case FullCan => status, top := RemoveFullCan(position);
      case ExplicitStd => status, top := RemoveStandard(position);
      case GroupStd => status, top := RemoveStandardGroup(position);
      case ExplicitExt => status, top := RemoveExtended(position);
      case GroupExt => status, top := RemoveExtendedGroup(position);
    }

    // lpc17xx_can.c:221-473 : the counters are those of power-on.  The set-up does not reserve the
    // FullCAN objects, so the table is a valid one only when they fit behind it.
    method SetupTable(l: Lists) returns (status: CanError, ghost n: Taken, ghost section: nat)
      requires RAM_WORDS <= ram.Length && CountersMatch(EMPTY)
      modifies this, ram
      ensures SetUp(l, section, n, status, old(ram[..]), ram[..])
      ensures n == Taken(fullCnt, stdCnt, gstdCnt, extCnt, gextCnt) && (status == Ok <==> Acceptable(l))
      ensures if status == Ok
              then starts == StartsOf(TableOf(l, [])) && afmr == (if l.hasFullCan then AFMR_FULLCAN else AFMR_NORMAL)
              else starts == old(starts) && afmr == AFMR_OFF
      ensures status == Ok && Even(l) && IdSize(TableOf(l, [])) + 3 * |l.FullCan()| <= RAM_WORDS ==>
                Valid() && table.(objects := []) == TableOf(l, [])
    {
      hide SetUp, Acceptable, Overwrite, Encode, StartsOf, RegistersFor, TableOf, Whole, IdSize, Even;
      ghost var was := ram[..];
      var taken;
      status, taken, section := SetupSections(ram, l);
      n := taken;
      SetUpMeans(l, section, n, status, was, ram[..]);
      fullCnt, stdCnt, gstdCnt, extCnt, gextCnt := taken.fullCan, taken.std, taken.groups, taken.ext, taken.extGroups;
      afmr := AFMR_OFF;
      if status == Ok {
        RegistersAre(l);
        starts := RegistersFor(fullCnt, stdCnt, gstdCnt, extCnt, gextCnt);
        afmr := if l.hasFullCan then AFMR_FULLCAN else AFMR_NORMAL;
        ghost var w := IdSize(TableOf(l, []));
        if Even(l) && w + 3 * |l.FullCan()| <= RAM_WORDS {
          SetupIsTable(was, ram[..], l);
          table := TableOf(l, ram[..][w..w + 3 * |l.FullCan()|]);
          TableOfIs(l, ram[..][w..w + 3 * |l.FullCan()|]);
        }
      }
    }

    // Words in use without the FullCAN objects.
    function IdTotal(): nat
      reads this
    {
      (fullCnt + 1) / 2 + (stdCnt + 1) / 2 + gstdCnt + extCnt + gextCnt * 2
    }

    // lpc17xx_can.c:1078-1153
    method RemoveFullCan(position: nat) returns (status: CanError, ghost top: nat)
      requires Valid() && InBounds(table, Remove(FullCan, position), ram.Length)
      modifies this, ram
      ensures Valid() && Performed(Remove(FullCan, position), status)
          && Accessed(old(table), Remove(FullCan, position), top)
    {
      hide InRam, WordsBehind, MoveStarts, CanTable.RemoveFullCan, RemoveFullCanId;
      ghost var t := table;
      afmr := AFMR_OFF;
      if position >= fullCnt {
        return EntryNotExist, 0;
      }
      top := RemoveFullCanEntry(ram, t, fullCnt, position, IdTotal());
      starts := if fullCnt % 2 == 1 then MoveStarts(starts, 1, -4) else starts;
      fullCnt := fullCnt - 1;
      table := CanTable.RemoveFullCan(t, position);
      afmr := AFMR_FULLCAN;
      status := Ok;
    }

    // lpc17xx_can.c:1156-1216
    method RemoveStandard(position: nat) returns (status: CanError, ghost top: nat)
      requires Valid() && InBounds(table, Remove(ExplicitStd, position), ram.Length)
      modifies this, ram
      ensures Valid() && Performed(Remove(ExplicitStd, position), status)
          && Accessed(old(table), Remove(ExplicitStd, position), top)
    {
      hide InRam, WordsBehind, MoveStarts, RemoveStd;
      ghost var t := table;
      afmr := AFMR_OFF;
      if position >= stdCnt {
        return EntryNotExist, 0;
      }
      top := 0;
      RemoveStdEntry(ram, t, (fullCnt + 1) / 2, stdCnt, position, IdTotal() + fullCnt * 3);
      starts := if stdCnt % 2 == 1 then MoveStarts(starts, 2, -4) else starts;
      stdCnt := stdCnt - 1;
      table := RemoveStd(t, position);
      afmr := AFMR_FULLCAN;
      status := Ok;
    }

    // lpc17xx_can.c:1219-1241
    method RemoveStandardGroup(position: nat) returns (status: CanError, ghost top: nat)
      requires Valid() && InBounds(table, Remove(GroupStd, position), ram.Length)
      modifies this, ram
      ensures Valid() && Performed(Remove(GroupStd, position), status)
          && Accessed(old(table), Remove(GroupStd, position), top)
    {
      hide InRam, WordsBehind, MoveStarts, RemoveAt;
      ghost var t := table;
      afmr := AFMR_OFF;
      if position >= gstdCnt {
        return EntryNotExist, 0;
      }
      top := 0;
      RemoveGroupEntry(ram, t, (fullCnt + 1) / 2 + (stdCnt + 1) / 2, position, IdTotal() + fullCnt * 3);
      starts := MoveStarts(starts, 3, -4);
      gstdCnt := gstdCnt - 1;
      table := t.(groups := RemoveAt(t.groups, position));
      afmr := AFMR_FULLCAN;
      status := Ok;
    }

    // lpc17xx_can.c:1244-1264
    method RemoveExtended(position: nat) returns (status: CanError, ghost top: nat)
      requires Valid() && InBounds(table, Remove(ExplicitExt, position), ram.Length)
      modifies this, ram
      ensures Valid() && Performed(Remove(ExplicitExt, position), status)
          && Accessed(old(table), Remove(ExplicitExt, position), top)
    {
      hide InRam, WordsBehind, MoveStarts, RemoveAt;
      ghost var t := table;
      afmr := AFMR_OFF;
      if position >= extCnt {
        return EntryNotExist, 0;
      }
      top := 0;
      RemoveExtEntry(ram, t, (fullCnt + 1) / 2 + (stdCnt + 1) / 2 + gstdCnt, position, IdTotal() + fullCnt * 3);
      starts := MoveStarts(starts, 4, -4);
      extCnt := extCnt - 1;
      table := t.(ext := RemoveAt(t.ext, position));
      afmr := AFMR_FULLCAN;
      status := Ok;
    }

    // lpc17xx_can.c:1267-1287
    method RemoveExtendedGroup(position: nat) returns (status: CanError, ghost top: nat)
      requires Valid() && InBounds(table, Remove(GroupExt, position), ram.Length)
      modifies this, ram
      ensures Valid() && Performed(Remove(GroupExt, position), status)
          && Accessed(old(table), Remove(GroupExt, position), top)
    {
      hide InRam, WordsBehind, MoveStarts, RemoveAt;
      ghost var t := table;
      afmr := AFMR_OFF;
      if position >= gextCnt {
        return EntryNotExist, 0;
      }
      top := RemoveExtGroupEntry(ram, t, IdTotal() - gextCnt * 2, position, IdTotal() + fullCnt * 3);
      starts := MoveStarts(starts, 5, -8);
      gextCnt := gextCnt - 1;
      table := t.(extGroups := RemoveAt(t.extGroups, position));
      afmr := AFMR_FULLCAN;
      status := Ok;
    }
  }
}

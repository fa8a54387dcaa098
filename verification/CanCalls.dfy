/**
  The driver's calls as functions on the abstract table: which error a call returns, the table,
  start-address registers and filter mode it leaves, and how far it reaches in memory.
 */
module CanCalls {
  import opened CanWords
  import opened CanTable
  import opened CanRam

  datatype CanError = Ok | ObjectsFull | ConflictId | EntryNotExist | TableOrder

  datatype IdFormat = Standard | Extended

  datatype EntryType = FullCan | ExplicitStd | GroupStd | ExplicitExt | GroupExt

  datatype Call =
    | LoadExplicit(ctrl: Controller, id: UInt32, format: IdFormat)
    | LoadFullCan(ctrl: Controller, id: UInt32)
    | LoadGroup(ctrl: Controller, lower: UInt32, upper: UInt32, format: IdFormat)
    | Remove(entryType: EntryType, position: nat)

  const AFMR_OFF: UInt32 := 1
  const AFMR_NORMAL: UInt32 := 0
  const AFMR_FULLCAN: UInt32 := 4

  function Count(t: Table, e: EntryType): nat {
    match e
    case FullCan => |t.fullCan|
    case ExplicitStd => |t.std|
    case GroupStd => |t.groups|
    case ExplicitExt => |t.ext|
    case GroupExt => |t.extGroups|
  }

  // The slot a group load finds; the first group of a kind is not compared with anything.
  function GroupSlot(t: Table, lower: UInt32, upper: UInt32, format: IdFormat): Slot {
    match format
    case Standard =>
      if t.groups == [] then At(0) else FindSlot(StdRanges(t.groups), lower % 0x800, upper % 0x800)
    case Extended =>
      if t.extGroups == [] then At(0) else FindSlot(ExtRanges(t.extGroups), lower % 0x2000_0000, upper % 0x2000_0000)
  }

  function StatusOf(t: Table, call: Call): CanError {
    match call
    case LoadExplicit(_, _, _) => if Size(t) >= RAM_WORDS then ObjectsFull else Ok
    case LoadFullCan(_, _) => if Size(t) >= 508 || |t.fullCan| >= 64 then ObjectsFull else Ok
    case LoadGroup(_, lower, upper, format) =>
      if lower > upper then ConflictId
      else if Size(t) >= (if format.Standard? then RAM_WORDS else RAM_WORDS - 1) then ObjectsFull
      else if GroupSlot(t, lower, upper, format).Conflict? then ConflictId else Ok
    case Remove(e, p) => if p >= Count(t, e) then EntryNotExist else Ok
  }

  function LastWord(t: Table): nat { if Size(t) == 0 then 0 else Size(t) - 1 }

  // The highest word a successful call accesses: where its last shift ends when that is behind the
  // table, and the last word of the table otherwise.
  function Furthest(t: Table, call: Call): nat {
    match call
    case LoadExplicit(_, _, Standard) => if |t.std| % 2 == 0 then Size(t) else LastWord(t)
    case LoadExplicit(_, _, Extended) => Start(t, 3) + Size(t)
    case LoadFullCan(_, _) => FullCanReach(t)
    case LoadGroup(_, _, _, Standard) => if t.groups == [] then Max(LastWord(t), Start(t, 2)) else Size(t)
    case LoadGroup(_, _, _, Extended) => if t.extGroups == [] then Max(LastWord(t), Start(t, 4) + 1) else PairReach(t)
    case Remove(FullCan, _) => Size(t) + 2
    case Remove(GroupExt, _) => PairReach(t)
    case Remove(_, _) => LastWord(t)
  }

  // A memory of this many words holds all that the call accesses.
  predicate InBounds(t: Table, call: Call, words: nat) {
    StatusOf(t, call) == Ok ==> Furthest(t, call) < words
  }

  // `top` is the highest word accessed, if that is behind the table.
  predicate Accessed(t: Table, call: Call, top: nat) {
    StatusOf(t, call) == Ok && Size(t) <= Furthest(t, call) ==> top == Furthest(t, call)
  }

  // `behind` is what the memory holds behind the table.
  function TableAfter(t: Table, call: Call, behind: seq<Word>): (t': Table)
    requires |t.objects| == 3 * |t.fullCan| && RAM_WORDS <= Size(t) + |behind|
    ensures |t'.objects| == 3 * |t'.fullCan|
  {
    if StatusOf(t, call) != Ok then t
    else
      match call
      case LoadExplicit(ctrl, id, format) =>
        if format.Standard? then AddStd(t, StdEntry(ctrl, id)) else AddExt(t, ExtEntry(ctrl, id))
      case LoadFullCan(ctrl, id) => AddFullCan(t, FullCanEntry(ctrl, id), behind[0])
      case LoadGroup(ctrl, lower, upper, format) =>
        if format.Standard?
        then LoadedStdGroup(t, GroupEntry(ctrl, lower, upper), lower % 0x800, upper % 0x800, behind[0])
        else LoadedExtGroup(t, ExtGroupEntry(ctrl, lower, upper), lower % 0x2000_0000, upper % 0x2000_0000, behind[..2])
      case Remove(e, p) =>
        match e
        case FullCan => RemoveFullCan(t, p)
        case ExplicitStd => RemoveStd(t, p)
        case GroupStd => t.(groups := RemoveAt(t.groups, p))
        case ExplicitExt => t.(ext := RemoveAt(t.ext, p))
        case GroupExt => t.(extGroups := RemoveAt(t.extGroups, p))
  }

  // Every load moves the registers behind its section; a removal does when it frees words.
  function StartsAfter(r: Registers, t: Table, call: Call): Registers {
    if StatusOf(t, call) != Ok then r
    else
      match call
      case LoadExplicit(_, _, format) => MoveStarts(r, if format.Standard? then 2 else 4, 4)
      case LoadFullCan(_, _) => MoveStarts(r, 1, 4)
      case LoadGroup(_, _, _, format) => if format.Standard? then MoveStarts(r, 3, 4) else MoveStarts(r, 5, 8)
      case Remove(e, p) =>
        match e
        case FullCan => if |t.fullCan| % 2 == 1 then MoveStarts(r, 1, -4) else r
        case ExplicitStd => if |t.std| % 2 == 1 then MoveStarts(r, 2, -4) else r
        case GroupStd => MoveStarts(r, 3, -4)
        case ExplicitExt => MoveStarts(r, 4, -4)
        case GroupExt => MoveStarts(r, 5, -8)
  }

  // The filter is switched off before the table is touched; only a successful call switches it on again.
  function AfmrAfter(afmr: UInt32, t: Table, call: Call): UInt32 {
    if StatusOf(t, call) == Ok then
      if call.LoadExplicit? && t.fullCan == [] then AFMR_NORMAL else AFMR_FULLCAN
    else if call.Remove? || (call.LoadGroup? && call.lower <= call.upper) then AFMR_OFF
    else afmr
  }
}

/**
  Sequences of calls on the driver: the invariant of CanRuns kept by the class of CanFilter, whatever
  the memory behind the table holds when each call comes.
 */
module CanDriver {
  import opened CanWords
  import opened CanTable
  import opened CanRam
  import opened CanCalls
  import opened CanFilter
  import opened CanRuns
  import opened CanSetup
  import opened CanSetupRuns

  method Perform(filter: AcceptanceFilter, call: Call) returns (status: CanError, ghost top: nat)
    requires filter.Valid() && InBounds(filter.table, call, filter.ram.Length)
    modifies filter, filter.ram
    ensures filter.Valid() && filter.Performed(call, status) && Accessed(old(filter.table), call, top)
  {
    hide InBounds, Accessed;
    match call
    case LoadExplicit(ctrl, id, format) => status, top := filter.LoadExplicitEntry(ctrl, id, format);
    case LoadFullCan(ctrl, id) => status, top := filter.LoadFullCanEntry(ctrl, id);
    case LoadGroup(ctrl, lower, upper, format) => status, top := filter.LoadGroupEntry(ctrl, lower, upper, format);
    case Remove(entryType, position) => status, top := filter.RemoveEntry(entryType, position);
  }

  // Every call is an intended one and has the memory it needs, whatever the words behind the table
  // are when it comes.
  ghost predicate Safe(t: Table, calls: seq<Call>, words: nat)
    decreases |calls|
  {
    |t.objects| == 3 * |t.fullCan| &&
    (calls != [] ==>
       && Intended(t, calls[0]) && InBounds(t, calls[0], words)
       && forall behind: seq<Word> :: RAM_WORDS <= Size(t) + |behind| ==>
           Safe(TableAfter(t, calls[0], behind), calls[1..], words))
  }

  // t' is what the call makes of t.
  ghost predicate Follows(t: Table, call: Call, status: CanError, t': Table) {
    && |t.objects| == 3 * |t.fullCan| && status == StatusOf(t, call)
    && exists behind: seq<Word> :: RAM_WORDS <= Size(t) + |behind| && t' == TableAfter(t, call, behind)
  }

  /** The driver performs the calls one after the other and keeps its table well formed throughout. */
  method PerformAll(filter: AcceptanceFilter, calls: seq<Call>)
      returns (statuses: seq<CanError>, ghost tables: seq<Table>)
    requires filter.Valid() && WellFormed(filter.table) && Safe(filter.table, calls, filter.ram.Length)
    modifies filter, filter.ram
    ensures filter.Valid() && WellFormed(filter.table)
    ensures |statuses| == |calls| == |tables| - 1 && tables[0] == old(filter.table) && tables[|calls|] == filter.table
    ensures forall i :: 0 <= i < |calls| ==> Follows(tables[i], calls[i], statuses[i], tables[i + 1])
    ensures forall t :: t in tables ==> WellFormed(t)
  {
    hide WellFormed, Follows, Safe;
    statuses, tables := [], [filter.table];
    for i := 0 to |calls|
      invariant filter.Valid() && WellFormed(filter.table)
      invariant Safe(filter.table, calls[i..], filter.ram.Length)
      invariant |statuses| == i == |tables| - 1 && tables[0] == old(filter.table) && tables[i] == filter.table
      invariant forall k :: 0 <= k < i ==> Follows(tables[k], calls[k], statuses[k], tables[k + 1])
      invariant forall t :: t in tables ==> WellFormed(t)
    {
      assert calls[i..][0] == calls[i] && calls[i..][1..] == calls[i + 1..];
      var status := PerformFirst(filter, calls[i], calls[i..]);
      statuses, tables := statuses + [status], tables + [filter.table];
    }
  }

  // The first of a safe sequence of calls leaves the rest safe.
  method PerformFirst(filter: AcceptanceFilter, call: Call, ghost calls: seq<Call>) returns (status: CanError)
    requires filter.Valid() && WellFormed(filter.table) && calls != [] && call == calls[0]
        && Safe(filter.table, calls, filter.ram.Length)
    modifies filter, filter.ram
    ensures filter.Valid() && WellFormed(filter.table) && Safe(filter.table, calls[1..], filter.ram.Length)
    ensures Follows(old(filter.table), call, status, filter.table)
  {
    ghost var t, behind := filter.table, WordsBehind(filter.ram, filter.table);
    CallKeepsWellFormed(t, call, behind);
    SafeNext(t, calls, behind, filter.ram.Length);
    hide WellFormed, Intended, InBounds, StatusOf, TableAfter, Follows, Safe;
    ghost var top;
    status, top := Perform(filter, call);
    IsFollowed(t, call, status, behind);
  }

  lemma SafeNext(t: Table, calls: seq<Call>, behind: seq<Word>, words: nat)
    requires Safe(t, calls, words) && calls != [] && RAM_WORDS <= Size(t) + |behind|
    ensures |t.objects| == 3 * |t.fullCan| && InBounds(t, calls[0], words)
        && Safe(TableAfter(t, calls[0], behind), calls[1..], words)
  {}

  lemma IsFollowed(t: Table, call: Call, status: CanError, behind: seq<Word>)
    requires |t.objects| == 3 * |t.fullCan| && status == StatusOf(t, call) && RAM_WORDS <= Size(t) + |behind|
    ensures Follows(t, call, status, TableAfter(t, call, behind))
  {}

  /** The same from power-on through a table set-up. */
  method SetUpAndPerform(filter: AcceptanceFilter, l: Lists, calls: seq<Call>)
      returns (statuses: seq<CanError>, ghost tables: seq<Table>)
    requires RAM_WORDS <= filter.ram.Length && filter.CountersMatch(EMPTY)
    requires Acceptable(l) && Even(l) && Loadable(l)
    requires forall objects: seq<Word> :: |objects| == 3 * |l.FullCan()| ==>
        Safe(TableOf(l, objects), calls, filter.ram.Length)
    modifies filter, filter.ram
    ensures filter.Valid() && |statuses| == |calls| == |tables| - 1
    ensures tables[0].(objects := []) == TableOf(l, []) && tables[|calls|] == filter.table
    ensures forall i :: 0 <= i < |calls| ==> Follows(tables[i], calls[i], statuses[i], tables[i + 1])
    ensures forall t :: t in tables ==> WellFormed(t)
  {
    hide Acceptable, SetUp, WellFormed, Safe, Follows, Encode, StartsOf, Sorted, ExtSorted, GroupsOrdered,
        ExtGroupsOrdered;
    var status, n, section := filter.SetupTable(l);
    ghost var objects := filter.table.objects;
    assert filter.table == TableOf(l, objects);
    SetUpWellFormedIff(l, objects);
    statuses, tables := PerformAll(filter, calls);
  }
}

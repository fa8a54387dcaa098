# Verified models of the LPC17xx drivers and the EBN anchor node

Dafny models of the parts of this firmware whose correctness depends on more than one function at a
time, with proofs about them for all inputs, all runs and all sizes.  `dafny verify dfyconfig.toml`
checks everything.

- **CAN acceptance filter.**  The look-up table is five packed sections and a run of message objects in
  512 words, rewritten in place by halfword and word shifts.  `CanSections` holds the shifting loops,
  `CanTable` the abstract table and its layout in RAM, `CanRam` the loops applied to a RAM that holds a
  table, `CanCalls` what each call does to the abstract table, `CanFilter` the driver itself, `CanSetup`
  the filling of a table from five lists, `CanRuns` and `CanSetupRuns` what it all means, `CanMeaning` what
  it means to the hardware that reads entries, mode and start addresses, and `CanDriver` whole sequences
  of calls on the driver.  The memory is modelled beyond the RAM, because the driver's shifts go there.
  A 32-bit word is a pair of halfwords, which is how the driver takes words apart.
- **I2C.**  `I2cBus` models the controller: registers decide what happens next on the bus, and the bus
  answers with any code it likes.  `I2cSetup` is the transfer record, `I2cPolling` the polling master
  transfer with its retries, `I2cInterrupt` the interrupt handler, `I2cRuns` whole interrupt-driven
  transfers on any bus that keeps to the protocol, `I2cSlave` the polling slave loop and its time-out.
- **Ethernet MAC.**  `EthernetCrc` relates the nibble-at-a-time CRC to the bit-serial register of section
  3.2.9 of IEEE 802.3-2008, `EthernetBursts` draws the error-detection consequences, `HashFilter` is the
  64-bit imperfect filter indexed by that CRC, and `ReceiveRing` the receive descriptor ring with the MAC
  as the other party.
- **Reset.**  `Startup` is the walk over the section table, which lies in the memory it initialises.
- **Scan and advertise.**  `ScanMachine` is the anchor node's event machine with its eight-bit flags.

Where the code does something other than its comments or its evident intent say, the model follows the
code.  The main places, each with a lemma that says exactly when the intent is met or a witness that it
is not: removal at an odd position of an odd halfword section (`RemoveHalfIff`), message objects after
loads at odd counts and after removals (`OddLoadKeepsObjectsIff`, `RemovalKeepsObjectsIff`), the first
group of a kind (`FirstGroupKeepsRestIff`, `FirstExtGroupKeepsRestIff`), start-address registers after
odd loads (`RegistersRightIff`, `RunDrift`), capacity checks that let the shifting loops run past RAM
(`StaysInRamIff`, `LoadCheckAdmitsOverrun`, `RemoveAdmitsOverrun`), the compare masks of the table set-up
(`FullCanOrderIff`, `ExtOrderIff`, `JudgedRightIff`), its order against that of the loads
(`SetupOrderIsLoadOrderIff`, `AcceptedLoadableIff`), odd lists in it (`SetUpIsTableIff`), the
interrupt transfer's retry count and spliced receive buffer
(`GivenUpLeavesNoRetries`, `LastAttemptFillsBufferIff`), and the slave answering past the end of its data
with a stale byte instead of the idle character its documentation announces (`AnswersInOrder`, `StaleAnswers`).

## Model

| member | source | states |
|---|---|---|
| `CanFilter.AcceptanceFilter.constructor` | LibTest/Drivers/lpc17xx_can.c:169-184 | after power-on and the table reset the cleared RAM, counters and registers describe the empty table, in a memory of any size |
| `CanFilter.AcceptanceFilter.SetupTable` | LibTest/Drivers/lpc17xx_can.c:221-473 | OK exactly for acceptable lists; the five registers are then the cumulative section offsets, and with even halfword lists whose objects fit the state is a valid table holding exactly the five lists; a refusal leaves the registers and the filter off |
| `CanFilter.AcceptanceFilter.LoadExplicitEntry` | LibTest/Drivers/lpc17xx_can.c:488-684 | in any memory that reaches as far as the call does: status, abstract table, registers and mode are those of the call; memory and counters keep encoding the table; an error changes no word; the highest word accessed, when behind the table, is the one `Furthest` names |
| `CanFilter.AcceptanceFilter.LoadFullCanEntry` | LibTest/Drivers/lpc17xx_can.c:697-867 | the same for a FullCAN load: sorted insertion of the identifier and a zeroed object opened where the driver opens it |
| `CanFilter.AcceptanceFilter.LoadGroupEntry` | LibTest/Drivers/lpc17xx_can.c:893-1047 | the same for both group formats, with the conflict error and the filter left off on failure |
| `CanFilter.AcceptanceFilter.RemoveEntry` | LibTest/Drivers/lpc17xx_can.c:1063-1290 | the same for removal from each of the five sections |
| `CanSections.FindHalf` | LibTest/Drivers/lpc17xx_can.c:560-579 | the search stops at the first entry above the new one, whichever half it is in |
| `CanSections.InsertStd` | LibTest/Drivers/lpc17xx_can.c:538-627 | the packed section becomes the packing of the sorted insertion, for both parities of count and position; no other word changes |
| `CanSections.InsertFullCan` | LibTest/Drivers/lpc17xx_can.c:747-835 | the same for the FullCAN section, and the position it reports for the object |
| `CanSections.RemoveHalfword` | LibTest/Drivers/lpc17xx_can.c:1086-1118 | the halfword shifts of a removal, for both parities of length and position |
| `CanSections.RemovedWordsPack` | LibTest/Drivers/lpc17xx_can.c:1164-1196 | what those shifts leave is the packing of the section without the entry, or of what the driver leaves for an odd position in an odd section |
| `CanSections.InsertedWordsPack` | LibTest/Drivers/lpc17xx_can.c:597-626 | words shifted by a halfword are the packing of the section with the entry inserted |
| `CanSections.OpenObject` | LibTest/Drivers/lpc17xx_can.c:837-856 | carrying three words upwards round by round inserts a zeroed object, the last word of the run being pushed out |
| `CanSections.OpenPair` | LibTest/Drivers/lpc17xx_can.c:1026-1039 | carrying two words upwards two at a time inserts an extended group |
| `CanSections.MoveDownPairs` | LibTest/Drivers/lpc17xx_can.c:1277-1283 | the two-at-a-time copy moves the words behind an extended group down by two |
| `CanSections.MoveDownObjects` | LibTest/Drivers/lpc17xx_can.c:1141-1151 | the object copy moves the words behind an object down by three |
| `CanRam.LoadStandard` | LibTest/Drivers/lpc17xx_can.c:525-627 | a RAM holding a table becomes a RAM holding it with the standard entry inserted |
| `CanRam.LoadExtended` | LibTest/Drivers/lpc17xx_can.c:642-669 | the same for an extended entry, with every word of the memory after the shift and the highest word accessed |
| `CanRam.LoadFullCan` | LibTest/Drivers/lpc17xx_can.c:732-856 | the same for a FullCAN entry and its object |
| `CanRam.FindGroup` | LibTest/Drivers/lpc17xx_can.c:929-948 | the walk over the standard groups finds the abstract slot or conflict |
| `CanRam.FindExtGroup` | LibTest/Drivers/lpc17xx_can.c:995-1017 | the walk over the extended groups finds the abstract slot or conflict |
| `CanRam.LoadStdGroup` | LibTest/Drivers/lpc17xx_can.c:919-965 | a conflict leaves RAM as it was; otherwise RAM holds the table with the group, the first group being written without making room |
| `CanRam.LoadExtGroup` | LibTest/Drivers/lpc17xx_can.c:985-1040 | the same for extended groups |
| `CanRam.RemoveStdEntry` | LibTest/Drivers/lpc17xx_can.c:1164-1207 | RAM holds the table with the standard entry removed as the driver removes it, every other section intact |
| `CanRam.RemoveFullCanEntry` | LibTest/Drivers/lpc17xx_can.c:1086-1152 | the same for a FullCAN entry and the object the driver closes |
| `CanRam.RemoveGroupEntry` | LibTest/Drivers/lpc17xx_can.c:1227-1234 | RAM holds the table without the group |
| `CanRam.RemoveExtEntry` | LibTest/Drivers/lpc17xx_can.c:1252-1259 | RAM holds the table without the extended entry |
| `CanRam.RemoveExtGroupEntry` | LibTest/Drivers/lpc17xx_can.c:1275-1283 | RAM holds the table without the extended group |
| `CanRuns.AddStdSorts` | LibTest/Drivers/lpc17xx_can.c:519-634 | a standard load is sorted insertion after all entries not above the new one; everything else in the table is untouched |
| `CanRuns.AddExtSorts` | LibTest/Drivers/lpc17xx_can.c:639-669 | the same for the extended section |
| `CanRuns.AddFullCanSorts` | LibTest/Drivers/lpc17xx_can.c:732-835 | the same for the FullCAN identifiers; only the objects change besides |
| `CanRuns.EvenLoadKeepsObjects` | LibTest/Drivers/lpc17xx_can.c:837-856 | with an even count a FullCAN load inserts a zeroed object at the entry's index and keeps all others in order |
| `CanRuns.OddLoadKeepsObjectsIff` | LibTest/Drivers/lpc17xx_can.c:837-856 | with an odd count of three or more it does so if and only if one particular word happens to be zero |
| `CanRuns.SecondLoadKeepsObjectsIff` | LibTest/Drivers/lpc17xx_can.c:837-856 | the same question for the second FullCAN entry |
| `CanRuns.OddLoadLosesObject` | LibTest/Drivers/lpc17xx_can.c:837-856 | well-formed tables of one and of three FullCAN entries on which the next load damages an object |
| `CanRuns.RemovalLosesObject` | LibTest/Drivers/lpc17xx_can.c:1137-1151 | a well-formed table on which a FullCAN removal damages another entry's object |
| `CanRuns.RemovalKeepsObjectsIff` | LibTest/Drivers/lpc17xx_can.c:1137-1151 | a FullCAN removal deletes exactly the object of the entry if and only if the count is even, the entry is the last, or two words coincide |
| `CanRuns.RemoveHalfIff` | LibTest/Drivers/lpc17xx_can.c:1086-1129 | removal at p from a halfword section deletes entry p if and only if p or the length is even, or the last entry equals what is left in its place |
| `CanRuns.OddRemovalLosesEntry` | LibTest/Drivers/lpc17xx_can.c:1178-1207 | concrete sections on which removal loses an entry it was not asked to |
| `CanRuns.LoadRemoveStd` | LibTest/Drivers/lpc17xx_can.c:519-634 | loading a standard entry and removing it where it landed restores the table, exactly when the removal keeps the entries |
| `CanRuns.LoadRemoveExt` | LibTest/Drivers/lpc17xx_can.c:639-669 | loading an extended entry and removing it where it landed restores the table, always |
| `CanRuns.GroupLoadMeaning` | LibTest/Drivers/lpc17xx_can.c:928-965 | conflict exactly when no insertion point keeps the ranges in order; otherwise the slot found is such a point and the ranges stay ordered and disjoint |
| `CanRuns.FirstGroupKeepsRestIff` | LibTest/Drivers/lpc17xx_can.c:921-925 | the first standard group keeps the sections behind it if and only if what follows is a run of one and the same word |
| `CanRuns.FirstExtGroupKeepsRestIff` | LibTest/Drivers/lpc17xx_can.c:987-991 | the first extended group keeps the objects if and only if their words alternate, up to the end, between the two words behind the table |
| `CanRuns.FirstExtGroupLosesObject` | LibTest/Drivers/lpc17xx_can.c:987-991 | a well-formed table on which it damages a FullCAN object |
| `CanRuns.FirstGroupLosesExt` | LibTest/Drivers/lpc17xx_can.c:921-925 | a table on which the first standard group destroys an extended entry |
| `CanRuns.CallKeepsWellFormed` | LibTest/Drivers/lpc17xx_can.c:488-1290 | every intended call keeps sections ascending, groups disjoint, three object words per FullCAN entry, and all within 512 words, whatever memory holds behind the table |
| `CanRuns.RunKeepsWellFormed` | LibTest/Drivers/lpc17xx_can.c:488-1290 | so does every sequence of intended calls |
| `CanRuns.EveryRunWellFormed` | LibTest/Drivers/lpc17xx_can.c:488-1290 | so every sequence of intended calls from the empty table ends in a well-formed table |
| `CanDriver.PerformAll` | LibTest/Drivers/lpc17xx_can.c:488-1290 | the driver performs any safe sequence of calls with the statuses and tables of the call functions, and keeps its table well formed throughout |
| `CanDriver.SetUpAndPerform` | LibTest/Drivers/lpc17xx_can.c:221-1290 | the same from power-on through a table set-up with sorted even lists |
| `CanRuns.DecodeEncoded` | LibTest/Drivers/lpc17xx_can.c:488-1290 | RAM and the five counters determine the table: reading RAM back by the counters gives exactly the five lists and the objects |
| `CanRuns.PadExactlyWhenOdd` | LibTest/Drivers/lpc17xx_can.c:538-556 | the low half of the last word of a halfword section is 0xFFFF exactly when its length is odd |
| `CanRuns.RegistersRightIff` | LibTest/Drivers/lpc17xx_can.c:628-633 | a call keeps the start-address registers right if and only if it is not a successful load into an odd halfword section |
| `CanRuns.OddStdLoadMisplacesStarts` | LibTest/Drivers/lpc17xx_can.c:628-633 | a standard load after which they are wrong |
| `CanRuns.OddFullCanLoadMisplacesStarts` | LibTest/Drivers/lpc17xx_can.c:857-863 | a FullCAN load after which they are wrong |
| `CanRuns.StaysInRamIff` | LibTest/Drivers/lpc17xx_can.c:488-1290 | in the driver's counters, when the highest word a successful call accesses is inside the 512 words of RAM |
| `CanRuns.ExtOverrunWrites` | LibTest/Drivers/lpc17xx_can.c:660-669 | an extended load that goes further overwrites the first word behind the RAM, whatever it held |
| `CanRuns.FullCanOverrunWrites` | LibTest/Drivers/lpc17xx_can.c:732-746 | so does a FullCAN load |
| `CanRuns.ExtGroupOverrunWrites` | LibTest/Drivers/lpc17xx_can.c:1026-1039 | so does an extended group load |
| `CanRuns.LoadCheckAdmitsOverrun` | LibTest/Drivers/lpc17xx_can.c:507-512 | well-formed tables for which an extended, a FullCAN and a group load pass the capacity check and still access words behind the RAM |
| `CanRuns.RemoveAdmitsOverrun` | LibTest/Drivers/lpc17xx_can.c:1139-1283 | the same for the removal of a FullCAN entry and of an extended group |
| `CanTable.PartInserted` | LibTest/Drivers/lpc17xx_can.c:488-1043 | words inserted into one section leave a RAM that encodes the table with that section grown, all others intact |
| `CanTable.PartRemoved` | LibTest/Drivers/lpc17xx_can.c:1063-1290 | words closed up in one section leave a RAM that encodes the table with that section shrunk, all others intact |
| `CanTable.FirstGroupEncoded` | LibTest/Drivers/lpc17xx_can.c:921-925 | what overwriting the word behind the standard section does to the table |
| `CanTable.ObjectOpenedLate` | LibTest/Drivers/lpc17xx_can.c:837-856 | an object opened one word late still leaves an encoded table |
| `CanSetup.SetupSections` | LibTest/Drivers/lpc17xx_can.c:233-456 | where the five filling loops stop, with which status, and every RAM word they leave, for any lists |
| `CanSetup.SetupHalves` | LibTest/Drivers/lpc17xx_can.c:241-339 | one list into two entries per word: room is tested before order, the first entry at fault decides |
| `CanSetup.SetUpMeans` | LibTest/Drivers/lpc17xx_can.c:221-473 | OK exactly for acceptable lists; with even halfword lists RAM then starts with the five lists laid out in order and is otherwise unchanged |
| `CanSetup.StoppedOnce` | LibTest/Drivers/lpc17xx_can.c:241-286 | status and number of entries taken are determined by the list |
| `CanSetupRuns.StdOrderIff` | LibTest/Drivers/lpc17xx_can.c:310-331 | a standard list passes the order check exactly when its identifiers ascend |
| `CanSetupRuns.FullCanOrderIff` | LibTest/Drivers/lpc17xx_can.c:257-278 | ascending FullCAN lists pass the check, and only those as long as every identifier but the last is inside the ten-bit mask |
| `CanSetupRuns.JudgedRightIff` | LibTest/Drivers/lpc17xx_can.c:257-278 | an identifier is judged rightly before every other one if and only if it is below the mask |
| `CanSetupRuns.ExtOrderIff` | LibTest/Drivers/lpc17xx_can.c:402-410 | the same as for FullCAN lists for the extended list and its 28-bit mask |
| `CanSetupRuns.GroupOrderIs` | LibTest/Drivers/lpc17xx_can.c:367-375 | in a group list the end of each range is compared with the start of the next |
| `CanSetupRuns.ExtGroupOrderIs` | LibTest/Drivers/lpc17xx_can.c:440-448 | the same for extended groups, the end cut to 28 bits |
| `CanSetupRuns.FullCanMaskAdmitsDescent` | LibTest/Drivers/lpc17xx_can.c:257-265 | a descending FullCAN list that is accepted |
| `CanSetupRuns.ExtMaskAdmitsDescent` | LibTest/Drivers/lpc17xx_can.c:402-410 | a descending extended list that is accepted |
| `CanSetupRuns.ExtMaskAdmitsOverlap` | LibTest/Drivers/lpc17xx_can.c:440-448 | overlapping extended groups that are accepted |
| `CanSetupRuns.SetUpAdmitsReversedRange` | LibTest/Drivers/lpc17xx_can.c:367-377 | a group whose ends are reversed that is accepted |
| `CanSetupRuns.EntriesAscendIff` | LibTest/Drivers/lpc17xx_can.c:319-332 | the packed entries of a list ascend, as the loads expect, if and only if it is sorted by controller, then disable bit, then identifier |
| `CanSetupRuns.ExtEntriesAscendIff` | LibTest/Drivers/lpc17xx_can.c:411-412 | the same for extended entries, by controller, then identifier |
| `CanSetupRuns.SetupOrderIsLoadOrderIff` | LibTest/Drivers/lpc17xx_can.c:310-331 | a standard list that passes the check leaves a section the loads find sorted if and only if its controllers and disable bits ascend |
| `CanSetupRuns.SetupOrderIsNotLoadOrder` | LibTest/Drivers/lpc17xx_can.c:310-318 | a list for which it does not |
| `CanSetupRuns.SetUpLays` | LibTest/Drivers/lpc17xx_can.c:233-456 | for any accepted lists on a cleared RAM, every word the set-up leaves: even parts packed, an odd entry only while nothing follows |
| `CanSetupRuns.SetUpIsTableIff` | LibTest/Drivers/lpc17xx_can.c:233-456 | on a cleared RAM an accepted set-up leaves RAM starting with the table of its lists if and only if both halfword lists are even |
| `CanSetupRuns.OddFullCanOverwritten` | LibTest/Drivers/lpc17xx_can.c:319-322 | after an odd FullCAN list the first standard entry overwrites the last FullCAN entry, whatever RAM held |
| `CanSetupRuns.SetUpWellFormedIff` | LibTest/Drivers/lpc17xx_can.c:221-473 | the table of a set-up is one the loads and removals keep in order if and only if the lists are sorted as they sort, the groups are ranges in order and everything fits |
| `CanSetupRuns.GroupsOrderedIff` | LibTest/Drivers/lpc17xx_can.c:367-375 | an accepted list of groups is in order if and only if no range is the wrong way round |
| `CanSetupRuns.ExtGroupsOrderedIff` | LibTest/Drivers/lpc17xx_can.c:440-448 | an accepted list of extended groups is in order if and only if no range is the wrong way round and no end outside the 28-bit mask exceeds the next start |
| `CanSetupRuns.SortedIff` | LibTest/Drivers/lpc17xx_can.c:257-331 | a FullCAN or standard list that passed its check is sorted as the loads sort if and only if controllers and disable bits do not fall and no identifier outside the mask exceeds the next of the same owner |
| `CanSetupRuns.ExtSortedIff` | LibTest/Drivers/lpc17xx_can.c:402-410 | the same for an extended list |
| `CanSetupRuns.AcceptableIff` | LibTest/Drivers/lpc17xx_can.c:233-456 | exactly which lists the set-up accepts, in terms of the lists alone: each entry not below the one before as the masks cut it, at most 128 FullCAN entries, and 512 words in all as the driver counts them |
| `CanSetupRuns.AcceptedLoadableIff` | LibTest/Drivers/lpc17xx_can.c:221-473 | what acceptance leaves to the caller: accepted lists are ones the loads keep in order if and only if they step up, ranges are forward, long ends do not overlap and the objects fit |
| `CanSetupRuns.RunFromSetUp` | LibTest/Drivers/lpc17xx_can.c:221-1290 | so runs of intended calls keep it well formed from such a set-up on |
| `CanMeaning.StdLoadAdmits` | LibTest/Drivers/lpc17xx_can.c:507-634 | a successful standard load puts one entry into the section, before the first higher one, and its bit fields read: this controller, enabled, no message object, the low eleven bits of the identifier; nothing else in the table changes |
| `CanMeaning.FullCanLoadAdmits` | LibTest/Drivers/lpc17xx_can.c:712-863 | the same for a FullCAN load, whose entry has the message-object bit set, with three object words more |
| `CanMeaning.ExtLoadAdmits` | LibTest/Drivers/lpc17xx_can.c:636-684 | the same for an extended load; since the identifier is not masked, the entry admits this controller and identifier if and only if the bits above the identifier agree |
| `CanMeaning.GroupLoadAdmits` | LibTest/Drivers/lpc17xx_can.c:907-972 | a successful standard group load adds one range with both ends of this controller and the low eleven bits, at a place where it fits; only the first group of its kind changes anything else |
| `CanMeaning.ExtGroupLoadAdmits` | LibTest/Drivers/lpc17xx_can.c:974-1043 | the same for an extended group and 29 bits |
| `CanMeaning.ReadsOnce` | LibTest/Drivers/lpc17xx_can.c:519-523 | a halfword entry reads in one way only and is determined by it, so the entry of a load admits one controller and identifier and nothing else |
| `CanMeaning.AdmitsExtOnce` | LibTest/Drivers/lpc17xx_can.c:639-640 | the same for extended entries |
| `CanMeaning.SetUpAdmits` | LibTest/Drivers/lpc17xx_can.c:233-456 | what every entry of a table set up from lists reads as, by bit fields |
| `CanMeaning.LoadSucceedsIff` | LibTest/Drivers/lpc17xx_can.c:505-512 | an explicit load succeeds exactly while the table takes less than 512 words, a FullCAN load below 508 words and 64 entries |
| `CanMeaning.GroupLoadSucceedsIff` | LibTest/Drivers/lpc17xx_can.c:903-965 | how a group load ends: ends reversed, no room, or, from the second group on, OK exactly when some place keeps the ranges in order |
| `CanMeaning.ExtGroupLoadSucceedsIff` | LibTest/Drivers/lpc17xx_can.c:903-1017 | the same for extended groups, which need two words |
| `CanMeaning.RemovalSucceedsIff` | LibTest/Drivers/lpc17xx_can.c:1063-1290 | a removal succeeds exactly for positions in the section, which is then one shorter with nothing else changed; otherwise the table stays |
| `CanMeaning.RemovalTakes` | LibTest/Drivers/lpc17xx_can.c:1063-1290 | the element gone is the one asked for, always in sections of whole words, at even positions or lengths in the others |
| `CanMeaning.OddRemovalLeaves` | LibTest/Drivers/lpc17xx_can.c:1178-1207 | from an odd position of an odd length only the last element is wrong, and what it is |
| `CanMeaning.StdLoadThenRemove` | LibTest/Drivers/lpc17xx_can.c:488-1216 | loading a standard identifier and removing it where it landed: both calls return OK, and exactly when the table is as before |
| `CanMeaning.ExtLoadThenRemove` | LibTest/Drivers/lpc17xx_can.c:488-1264 | the same for an extended identifier, where it always is |
| `CanMeaning.GroupLoadThenRemove` | LibTest/Drivers/lpc17xx_can.c:893-1241 | the same for a standard group from the second on |
| `CanMeaning.ExtGroupLoadThenRemove` | LibTest/Drivers/lpc17xx_can.c:893-1287 | the same for an extended group from the second on |
| `CanMeaning.RemovalsEmpty` | LibTest/Drivers/lpc17xx_can.c:1063-1290 | for each of the five sections, as many removals at position 0 as it has entries all return OK and empty it, touching nothing else |
| `CanMeaning.ModeAfter` | LibTest/Drivers/lpc17xx_can.c:514-684 | the mode register in numbers: on after every success, with FullCAN whenever there is a FullCAN entry, off after a failed removal or forward group load, otherwise as it was |
| `CanMeaning.RunDrift` | LibTest/Drivers/lpc17xx_can.c:628-633 | after any run of calls each start-address register is off by four bytes for every load into an odd section before it, and by nothing else |
| `EthernetCrc.MixIsFourSteps` | LibTest/Drivers/lpc17xx_emac.c:231-251 | four table-free XORs on the shifted register are four steps of the serial register |
| `EthernetCrc.NibbleFeeds` | LibTest/Drivers/lpc17xx_emac.c:230-253 | one turn of the inner loop feeds four bits, for signed and unsigned char and shifts |
| `EthernetCrc.CrcCalc` | LibTest/Drivers/lpc17xx_emac.c:220-256 | the nibble loop computes the bit-serial register of generator 0x04C11DB7, initially all ones, bits least significant first, for every frame |
| `EthernetCrc.KnownCrc` | LibTest/Drivers/lpc17xx_emac.c:220-256 | the register after 01-80-C2-00-00-00 is 0x67D8C317 |
| `EthernetBursts.SameCrcIff` | LibTest/Drivers/lpc17xx_emac.c:220-256 | two frames of equal length have equal CRCs exactly when their flipped bits alone keep a cleared register cleared |
| `EthernetBursts.ShortBurstsDetected` | LibTest/Drivers/lpc17xx_emac.c:220-256 | frames that differ, and only inside 32 consecutive bits, have different CRCs, for every length |
| `EthernetBursts.LongerBurstMissed` | LibTest/Drivers/lpc17xx_emac.c:220-256 | 32 is the best bound: every frame of five bytes or more has another with the same CRC that differs inside 33 consecutive bits |
| `HashFilter.MacFilter.SetHashFilter` | LibTest/Drivers/lpc17xx_emac.c:635-656 | the command sets or clears exactly the accept bit the address hashes to |
| `HashFilter.IndexBits` | LibTest/Drivers/lpc17xx_emac.c:641-644 | bit j of the index is bit 23 + j of the CRC register, for j below six, and no other bit is set |
| `HashFilter.KnownIndex` | LibTest/Drivers/lpc17xx_emac.c:641-644 | the index of 01-80-C2-00-00-00 is 15 |
| `HashFilter.AcceptBits` | LibTest/Drivers/lpc17xx_emac.c:646-648 | accept bits 0 to 31 are those of the low register, 32 to 63 those of the high one |
| `HashFilter.ProgrammedBit` | LibTest/Drivers/lpc17xx_emac.c:641-653 | a command decides its own accept bit and leaves the other 63 alone |
| `HashFilter.HistoryDecides` | LibTest/Drivers/lpc17xx_emac.c:635-656 | after any history accept bit k is what the last command on it said, or its initial value |
| `HashFilter.EnabledIsAccepted` | LibTest/Drivers/lpc17xx_emac.c:635-656 | an enabled address is accepted unless one with the same index was disabled later |
| `ReceiveRing.PlayInOrder` | LibTest/Drivers/lpc17xx_emac.c:753-920 | for any interleaving of arrivals with single driver calls, a queue of limited room hands frames on in the order accepted, none lost, none twice, each copied from itself |
| `ReceiveRing.Ring.constructor` | LibTest/Drivers/lpc17xx_emac.c:96-115 | the initialised ring, with its descriptors, control words and registers, is empty, for any size of at least two |
| `ReceiveRing.Ring.HardwareReceive` | LibTest/Drivers/lpc17xx_emac.c:96-115 | the MAC stores a frame behind those waiting unless size - 1 are waiting |
| `ReceiveRing.Ring.CheckReceiveIndex` | LibTest/Drivers/lpc17xx_emac.c:834-841 | true exactly when a frame is waiting |
| `ReceiveRing.Ring.ReadPacketBuffer` | LibTest/Drivers/lpc17xx_emac.c:753-767 | copies the oldest waiting frame, whole words, and nothing beyond them |
| `ReceiveRing.Ring.GetReceiveDataSize` | LibTest/Drivers/lpc17xx_emac.c:898-903 | the size of the oldest waiting frame |
| `ReceiveRing.Ring.UpdateRxConsumeIndex` | LibTest/Drivers/lpc17xx_emac.c:912-920 | gives back what the descriptor holds, which is the oldest accepted frame; the ring stays valid exactly when one was waiting |
| `ReceiveRing.Ring.TakeFrame` | LibTest/Drivers/lpc17xx_emac.c:753-920 | check, size, read and give back without interruption: the oldest frame is delivered, its words in the caller's buffer; for buffers of any width the frames fit, the driver's own included |
| `ReceiveRing.Ring.DriverCall` | LibTest/Drivers/lpc17xx_emac.c:753-920 | one of the four driver calls is one step of the queue's reader, the copy being the words of the oldest frame |
| `ReceiveRing.Ring.Run` | LibTest/Drivers/lpc17xx_emac.c:753-920 | any interleaving of arrivals with single driver calls is that queue, also when frames arrive during a copy, what is handed on being what the buffers held |
| `ReceiveRing.AdvanceEmpty` | LibTest/Drivers/lpc17xx_emac.c:912-920 | advancing an empty ring announces size - 1 frames that never arrived |
| `ReceiveRing.SizeIsLowBits` | LibTest/Drivers/lpc17xx_emac.c:892-903 | the size is what the low eleven bits of the status word say |
| `ReceiveRing.WordsHold` | LibTest/Drivers/lpc17xx_emac.c:753-770 | a frame's words hold all its bytes and are no more than needed |
| `I2cBus.Port.StartCondition` | LibTest/Drivers/lpc17xx_i2c.c:122-131 | requests a START whatever the controller was doing and clears the request |
| `I2cBus.Port.SendByte` | LibTest/Drivers/lpc17xx_i2c.c:162-174 | performs the action the registers then ask for: an address after a START, data after an acknowledgement |
| `I2cBus.Port.GetByte` | LibTest/Drivers/lpc17xx_i2c.c:186-201 | the same for a read, with the acknowledge bit as asked |
| `I2cPolling.WriteBytes` | LibTest/Drivers/lpc17xx_i2c.c:815-848 | the write half follows the script or breaks at its first failure |
| `I2cPolling.ReadBytes` | LibTest/Drivers/lpc17xx_i2c.c:869-922 | the read half follows the script or breaks; when whole, the buffer holds what was read and nothing beyond it changed |
| `I2cPolling.Attempt` | LibTest/Drivers/lpc17xx_i2c.c:791-922 | one pass from the label retry is the script, or a broken beginning of it ending in its first failure |
| `I2cPolling.MasterTransferData` | LibTest/Drivers/lpc17xx_i2c.c:771-932 | the bus trace is broken attempts, then on success one whole script, then STOP, all of it concerning the slave asked for; success delivers exactly the transmit bytes and leaves the buffer filled by the last attempt alone; ERROR comes after exactly retransmissions_max + 1 broken attempts and reports the last |
| `I2cPolling.OneReading` | LibTest/Drivers/lpc17xx_i2c.c:785-926 | the trace of a transfer that succeeded cuts into attempts in one way only, so it tells how often and where it failed before |
| `I2cPolling.OneFailedReading` | LibTest/Drivers/lpc17xx_i2c.c:785-931 | the same for a transfer that gave up |
| `I2cPolling.FullAttemptTransfers` | LibTest/Drivers/lpc17xx_i2c.c:800-922 | a whole script delivers exactly the transmit bytes, acknowledged and in order, and reads exactly the bytes asked for, to and from the slave asked for |
| `I2cPolling.AttemptAimed` | LibTest/Drivers/lpc17xx_i2c.c:800-922 | in every attempt, whole or broken, each address octet carries the address asked for in its upper seven bits, with low bit 0 before bytes sent and 1 before bytes read |
| `I2cPolling.TransferAimed` | LibTest/Drivers/lpc17xx_i2c.c:785-931 | so does everything a transfer puts on the bus |
| `I2cPolling.GivenUpStatus` | LibTest/Drivers/lpc17xx_i2c.c:891-931 | a transfer that gave up reports the code of its very last event, flagged as a missing acknowledgement exactly when that was an address or a byte sent |
| `I2cInterrupt.MasterDriver.MasterTransferData` | LibTest/Drivers/lpc17xx_i2c.c:934-947 | starting an interrupt transfer resets everything but the retry count |
| `I2cInterrupt.MasterDriver.MasterHandler` | LibTest/Drivers/lpc17xx_i2c.c:406-599 | one interrupt does to state and registers what the step function says, sending STOP exactly when the transfer ends |
| `I2cInterrupt.MasterDriver.Service` | LibTest/Drivers/lpc17xx_i2c.c:406-599 | the same with the bus action before it, whose kind the registers decide |
| `I2cInterrupt.MasterDriver.MasterTransferComplete` | LibTest/Drivers/lpc17xx_i2c.c:1335-1342 | reports the end of a transfer once |
| `I2cRuns.EveryRunSound` | LibTest/Drivers/lpc17xx_i2c.c:406-599 | the invariant of every conforming run: while reading, a byte is acknowledged exactly when another follows, all bytes are out, the buffer is what was read, and every address octet, sent or pending, carries the order's address and the direction |
| `I2cRuns.StatusTells` | LibTest/Drivers/lpc17xx_i2c.c:484-498 | after every interrupt of a conforming run the status holds the code seen, with arbitration at 0x38 and no acknowledgement at 0x20, 0x30 and 0x48; a transfer that gave up names a failure |
| `I2cRuns.UnknownCodeRetries` | LibTest/Drivers/lpc17xx_i2c.c:484-495 | any code the phase does not know, within the protocol or not, is a failure: a retry or the end, with the right flags |
| `I2cRuns.NothingHappened` | LibTest/Drivers/lpc17xx_i2c.c:413-424 | 0xF8 changes nothing but the status and the registers read |
| `I2cRuns.SampleTransfer` | LibTest/Drivers/lpc17xx_i2c.c:406-599 | one transfer octet by octet: the actions on the bus for one byte to slave 0x50 and two from it, and how it ends |
| `I2cRuns.DoneMeansTransferred` | LibTest/Drivers/lpc17xx_i2c.c:406-599 | a run ended with DONE has had all transmit bytes acknowledged in order and has filled the receive buffer, whatever failures came between |
| `I2cRuns.FailureIffSpent` | LibTest/Drivers/lpc17xx_i2c.c:577-595 | a run has given up exactly when one failure more than the retries left has occurred |
| `I2cRuns.FailureRetries` | LibTest/Drivers/lpc17xx_i2c.c:577-587 | a failure keeps direction and bytes read and starts the write over, or ends the transfer when no retry is left |
| `I2cRuns.EveryRunEnds` | LibTest/Drivers/lpc17xx_i2c.c:406-599 | no conforming run is longer than (retries left + 1) * (bytes out + bytes in + 4) interrupts |
| `I2cRuns.Serve` | LibTest/Drivers/lpc17xx_i2c.c:406-599 | the driver serving interrupts is a run, with its trace and the STOP at its end |
| `I2cRuns.Transfer` | LibTest/Drivers/lpc17xx_i2c.c:406-947 | a whole transfer by the driver: on a conforming bus it concerns the slave of the setup alone, is over within (retries left + 1) * (bytes out + bytes in + 4) interrupts, and with DONE has all bytes out, acknowledged, and the buffer what was read |
| `I2cRuns.GivenUpLeavesNoRetries` | LibTest/Drivers/lpc17xx_i2c.c:934-947 | after a transfer that gave up, the next one with the same setup gives up at its first failure |
| `I2cRuns.UnfailingRunFollowsScript` | LibTest/Drivers/lpc17xx_i2c.c:406-599 | without failures the interrupts perform exactly the script of a successful polling attempt, and end with DONE just when it is complete |
| `I2cRuns.BufferSplits` | LibTest/Drivers/lpc17xx_i2c.c:536-587 | the buffer is what the attempts before the last read, followed by what the last one read |
| `I2cRuns.EarlierReadLess` | LibTest/Drivers/lpc17xx_i2c.c:536-587 | the earlier attempts never read all that was asked for |
| `I2cRuns.Splice` | LibTest/Drivers/lpc17xx_i2c.c:536-587 | with a retry left and two bytes or more asked for, a bus can make a transfer end with DONE and a spliced buffer |
| `I2cRuns.LastAttemptFillsBufferIff` | LibTest/Drivers/lpc17xx_i2c.c:406-599 | every finished transfer is filled by its last attempt alone if and only if no retry is left at the start or at most one byte is asked for |
| `I2cSlave.Setup.Keep` | LibTest/Drivers/lpc17xx_i2c.c:1048-1052 | a received byte is kept in order while there is room and ignored after |
| `I2cSlave.SlaveTransferData` | LibTest/Drivers/lpc17xx_i2c.c:983-1142 | the loop ends at the first unknown code, or when an armed time-out has run out, and not before; what was stored and answered until then |
| `I2cSlave.AnswersInOrder` | LibTest/Drivers/lpc17xx_i2c.c:1084-1098 | the master reads the transmit bytes in order, and past their end whatever I2DAT held |
| `I2cSlave.StaleAnswers` | LibTest/Drivers/lpc17xx_i2c.c:1084-1098 | a sequence of polls whose answers past the end are not the idle character |
| `I2cSlave.CodesMean` | LibTest/Drivers/lpc17xx_i2c.c:1020-1114 | the status codes of the slave modes in numbers and what the loop makes of each |
| `I2cSlave.QuietEnds` | LibTest/Drivers/lpc17xx_i2c.c:1120-1137 | after a STOP or the last byte read the loop ends at the 65538th quiet look at the flag and not before |
| `I2cSlave.BroughtInOrder` | LibTest/Drivers/lpc17xx_i2c.c:1040-1056 | each byte the master writes is recorded behind those written before it |
| `Startup.DataInit` | EBN_Anchor_Node/src/cr_startup_lpc176x.c:216-222 | the destination equals the source image as it was, all else unchanged, for any length rounded up to words |
| `Startup.BssInit` | EBN_Anchor_Node/src/cr_startup_lpc176x.c:225-230 | the destination is zero, all else unchanged |
| `Startup.PlaceNext` | EBN_Anchor_Node/src/cr_startup_lpc176x.c:281-296 | placing one more section disturbs none placed before |
| `Startup.ResetSections` | EBN_Anchor_Node/src/cr_startup_lpc176x.c:281-296 | after both loops every data section is its load image, every bss word is zero and all other memory is as before, for every well-formed table read from memory |
| `Startup.PlacedOnce` | EBN_Anchor_Node/src/cr_startup_lpc176x.c:281-296 | that determines the whole memory |
| `Startup.DataLoaded` | EBN_Anchor_Node/src/cr_startup_lpc176x.c:281-296 | in terms of the table words: every word of a data section is the one at the same place of its load image |
| `Startup.BssCleared` | EBN_Anchor_Node/src/cr_startup_lpc176x.c:281-296 | every word of a bss section is zero |
| `Startup.OthersKept` | EBN_Anchor_Node/src/cr_startup_lpc176x.c:281-296 | a word in no section of the table is as it was |
| `ScanMachine.Node.ScanHandler` | EBN_Anchor_Node/src/main.c:53-63 | a discovery request exactly when the stack can send, START_SCAN is one and no scan is running |
| `ScanMachine.Node.EpochChangeHandler` | EBN_Anchor_Node/src/main.c:64-75 | advertising ends only on a roll-over while active; the advert is always updated with what the EBN core returns |
| `ScanMachine.Node.PacketHandler` | EBN_Anchor_Node/src/main.c:78-212 | one packet does what its meaning says, the tests being tried in the order of the code |
| `ScanMachine.OneRequestAhead` | EBN_Anchor_Node/src/main.c:53-63 | in every run requests are at most one ahead of the discoveries ended, and none is unless a scan is running |
| `ScanMachine.StartScanIs` | EBN_Anchor_Node/src/main.c:154-190 | START_SCAN is, modulo 256, one once the scan response is set up plus all devices found since |
| `ScanMachine.RequestIff` | EBN_Anchor_Node/src/main.c:53-63 | once set up, the timer sends a request exactly when it can, no scan is running and the devices found number a multiple of 256 |
| `ScanMachine.ParamStateCounts` | EBN_Anchor_Node/src/main.c:101-117 | PARAM_STATE counts the parameters sent modulo 256; with at most one initialisation they are the three expected, in order |
| `ScanMachine.FlagsTell` | EBN_Anchor_Node/src/main.c:148-175 | in every run BROADCASTING says that advertising was heard to start and not to end since, STATE that the scan response was set up, CHANGING_ADDR that advertising was asked to end |
| `ScanMachine.SendsByHistory` | EBN_Anchor_Node/src/main.c:53-175 | what any event has the node send after any run, by what was heard: discoverable exactly when the scan response is set up while off air, ended exactly when the epoch rolls over after a set-up |
| `ScanMachine.BroughtUp` | EBN_Anchor_Node/src/main.c:53-190 | a bring-up byte by byte: configured, on air once, off air, one scan, and no further one with three devices found |

## Left out

- The start-address registers are unbounded integers; a start address never leaves 32 bits while the table stays inside RAM, so wrap-around is not modelled.
- CanFilter.AcceptanceFilter.LoadFullCanEntry: the filter-off write before the table is touched is left out of the FullCAN and explicit loads, because the mode is written again before they return; group loads and removals, which can return with the filter off, do model it.
- CanFilter.AcceptanceFilter.SetupTable: from power-on counters only; with counters left from before, the loops compare with the word before the section, which for the first one is outside RAM.  List entries are taken to be within the ranges `CHECK_PARAM` asks for, and the caller's list pointers, which the loops advance, are not modelled.
- CanRuns.EveryRunWellFormed: says nothing of the contents of message objects, whose fate the lemmas on objects state call by call.
- A second `CAN_Init`, which clears RAM and registers but not the entry counters; CAN bit timing, message buffers, interrupts and modes.
- I2cBus.Port.StartCondition: clearing SI and setting STA, two register writes in a row, are one step; a controller that acted on its pending action between them is not modelled.
- I2cBus.Port.Transact: waiting for SI is taken to end; bus answers are arbitrary in the polling modes and, for the interrupt-mode theorems, any code the protocol allows or any code outside master mode.
- I2cPolling.MasterTransferData: requires `retransmissions_max` below 2^32 - 1, since otherwise the 32-bit counter wraps and the loop need not end, and that the two buffers do not overlap; the interrupt and slave transfers ask the same of the buffers.
- I2cSlave.SlaveTransferData: looks at a given sequence of polls and reports that it would go on when they run out, because the loop has no time-out before the first STOP.
- The slave interrupt handler, the callbacks, and the I2C clock, address and monitor set-up.
- The Ethernet transmit ring, whose full test subtracts one without wrapping; PHY and MII access; statistics and status bits of received frames.
- ReceiveRing.Ring.HardwareReceive: a frame fills one descriptor; fragments and reception errors are not modelled.  The size field is the number of bytes, as the driver reads it.
- Startup.ResetSections: the table has whole entries and its addresses are word-aligned; the old-style initialisation, the C library start and the vector table are left out.
- ScanMachine.Node.PacketHandler: commands are recorded by kind and by the arguments the state machine chooses; addresses, advert contents and console output are not.  A packet is long enough for the bytes the code reads.
- What the stack and the EBN core answer (whether a packet can be sent, whether the epoch rolled over, whether there is an advert) are inputs of the events.
- Setters that write one register, the other peripherals, string and memory helpers, and console output: they would only add easy members.

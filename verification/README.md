# A verified model of OtterClient's algorithms

OtterClient is a fork of the Minetest client and server. This project models the parts of it that are
algorithms and state machines in their own right, and proves what they are for. One file models one
component; each compiles into one module.

- **Crafting** (`Matching`, `ItemNames`, `Pairing`, `Shapeless`, `Shaped`, `Translation`, `CraftDefs`,
  `CraftManager`): the Hopcroft-Karp test for perfect matchings over mutable arrays, the checks of all kinds
  of recipe, and the three-layer hash index that must agree with a plain scan of all recipes, down to which kind
  of recipe is preferred.
  The search of each phase is proved to find shortest walks, and these to become longer from phase to phase, so
  there are at most twice as many phases as the square root of the nodes.
- **Inventories** (`Items`, `InventoryTokens`, `InventoryLists`, `InventoryOrder`, `Inventories`, `MoveAction`,
  `MoveAnswers`, `MoveAssertion`): stacks, lists, inventories and the action that moves items, to one slot or
  wherever there is room, with conservation of items, agreement of queries and mutators, what the answers of the
  callbacks allow, and incremental serialisation that keeps two copies synchronised.
- **Noise** (`Noise`, `Interpolation`, `NoiseBuffers`, `Pcg`, `PcgDraws`): the incremental walk over a lattice that
  must equal the direct formula, what that formula interpolates, the size of the buffer, and the PCG generator with
  its bounded draws. The generator is proved to have full period, so the rejection loop ends, and to be evenly
  distributed; restored states are classified by their orbits.
- **Collision** (`Collision`): the swept test of two boxes over the reals, sound and complete up to corner
  hits, and the pruned search for the nearest of many boxes.
- **Emerge queue** (`Emerge`): requests, counters and per-thread queues under one mutex, for every
  interleaving of steps.
- **Chat** (`ChatFormat`, `ChatBreaks`, `ChatBuffer`, `ChatView`): the word-wrapping layout loop, where its lines end,
  the cache of formatted lines, and what the console shows of it.
- **Paths, node ids, node timers** (`Paths`, `NodeIds`, `NodeTimers`): path normalisation in place, the
  renumbering of node ids and its inverse, and the two-map timer index.

Objects that the program updates in place are classes here; their methods are tied to functions on values,
and the lemmas are about those functions. Runs are sequences of steps of these functions.

Results that do not hold everywhere in the program are stated with the exact condition, next to a concrete
input on which they fail:

- A recipe lookup loses nothing if and only if no group contains the empty slot (`LosesNothingIff`).
- A noise map equals the direct formula for every noise if and only if scaling is applied or offset and scale
  are exactly neutral (`MapEqualsDirect`): parameters inside the tolerance of the skip are not scaled at all
  (`SmallOffsetIsLost`).
- The lattice buffer has room for every octave from a lacunarity of one on. Below one the first octave is the
  finest, and the buffer is sized for a coarser one: it has room exactly under the condition of `Roomy`
  (`EveryOctaveFits`, `HalvingOverruns`). The guard against octaves with a spread below one looks at the coarser
  one, too: it keeps all steps within a cell if and only if the lacunarity or both spreads are at least one
  (`EveryStepSmall`, `GuardMissesFirstOctave`), and longer steps leave the direct formula (`WalkedIsDirectIff`).
- A sweep into another box is reported if and only if the last two axes do not close at the same instant
  (`ReportedUnlessTied`, `TieIsMissed`).
- The search for the nearest collision finds the earliest hit if and only if no axis looked at before closes
  after the best time so far (`EarliestFoundIff`), which is always so for hits in the future; among boxes that
  intersect already it may miss the deepest (`DeepestIsMissed`).
- A chat line is written if and only if its indentation is less than the columns (`NothingWritten`). The
  comparison that picks the indentation looks at the name up to its first NUL character, and the indentation
  at the whole name, so a name with a NUL inside can take all columns of any console (`NoRoom`).
- Deleting chat lines keeps the cache right if and only if all of them have room for text, or no later line has
  (`DeletedInSync`, `UnfitLineBreaksCache`).
- `ChatBuffer::clear` resets the scroll position to 0, which is out of range whenever the console has rows
  (`ChatBuffer.Clear`).
- Node ids survive a round trip if and only if each used id comes back (`RoundTrip`); an id that is not
  registered does not (`UnregisteredIsLost`).
- A node timer at time -1 is taken for "no timer" if and only if it is the earliest one (`StepFires`,
  `NextRepresents`, `SentinelHidesTimer`).
- The bounded draw ends for every bound unless 2^59 divides the drift of the state, which takes an increment
  that is a multiple of four (`SomeDrawAccepted`, `SeededDrawsEnd`). Then there are at most 32 states to look at:
  it ends if and only if one of them is accepted (`EndsIff`). Every multiple of four has a state that stands
  still (`FixedState`, `FixedIff`, `RestoredStateHangs`).
- Moving items without a destination slot subtracts what a round reports from what is left, even for a round
  that returns early and reports nothing new. The assertion on that holds for all lists and callbacks if and
  only if the source has at most one item, or the count is at most that of the source, or at most two if the
  source is in the destination list itself (`AssertionHoldsIff`, `StaleCountFails`).
- `InventoryList::moveItemSomewhere` puts what finds no place back onto whatever is left in the source slot. It
  conserves items if and only if something of the stack is left there, or all of it finds a place, or both lists
  are one (`MovedSomewhereConservesIff`, `WholeStackIsLost`).

Where code and comments differ the code is followed: the constructor of fuel recipes looks at the item name
before it is known, so the priority of fuel never counts as using groups (src/craftdef.cpp:946); link
detection prefers any secure link further on to a plain one before it (src/chat.cpp:343-345, `LinkIff`,
`PlainBeforeSecure`); a change of the number of rows alone scrolls to the top unless the console was at the
bottom (src/chat.cpp:158-197).

## Model

| member | source | states |
|---|---|---|
| `Matching.CanMatchAll` | src/craftdef.cpp:503-601 | the matching test returns true exactly when the bipartite graph has a perfect matching; it takes at most as many phases as there are nodes on one side, and at most twice the square root of that number |
| `Matching.DoBfs` | src/craftdef.cpp:520-551 | the breadth-first search layers the nodes by distance from the unmatched ones, every edge leads at most one level on up to the level of the dummy, and when the dummy is not reached the reached set is closed under alternating steps |
| `Matching.DistanceIsShortest` | src/craftdef.cpp:516-551 | the distance of the dummy is the length of the shortest alternating walk to it from an unmatched node |
| `Matching.WalkTo` | src/craftdef.cpp:538-547 | every visited node is the end of an alternating walk as long as its distance |
| `Matching.WalkClimbs` | src/craftdef.cpp:538-547 | no alternating walk is on a node before the distance of that node, up to the level of the dummy |
| `Matching.Pop` | src/craftdef.cpp:534-548 | one round of the search keeps the queue in order of distance and everything that has left it settled |
| `Matching.EnqueueUnmatched` | src/craftdef.cpp:523-532 | the search starts from exactly the unmatched left nodes |
| `Matching.Expand` | src/craftdef.cpp:538-547 | one node is expanded: unvisited partners get the next distance, keep a predecessor and are queued in order |
| `Matching.DoDfs` | src/craftdef.cpp:553-581 | a successful walk makes the root matched, un-matches nobody, keeps both pairings mutually inverse on graph edges and pairs the right nodes on it one level lower; a failing walk changes no pairing and closes off its root; either way only dead ends are closed off; it terminates because distances rise |
| `Matching.TryEdge` | src/craftdef.cpp:560-572 | one edge is followed only if it leads one level on, and a walk that succeeds beyond it is taken over |
| `Matching.TryRoots` | src/craftdef.cpp:589-598 | one phase after a search that reached the dummy matches strictly more nodes, keeps everyone matched who was, counts them exactly, and leaves only longer augmenting walks |
| `Matching.NoShortWalk` | src/craftdef.cpp:589-598 | after a phase every augmenting walk is longer than the shortest one before it |
| `Matching.DeadAfterSuccess` | src/craftdef.cpp:566-576 | the nodes that failed walks have closed off are dead ends for the changed pairing, too |
| `Matching.PhasesRise` | src/craftdef.cpp:589-598 | the next search finds the dummy farther away, or not at all |
| `Matching.LevelCut` | src/craftdef.cpp:516-551 | every level of the search before the dummy is a cut: no matching has more edges than the current one and the nodes of that level together |
| `Matching.FewAreMissing` | src/craftdef.cpp:516-551 | the distance of the dummy, times what any matching has more than the current one, is at most the number of nodes |
| `Matching.OnePhaseMore` | src/craftdef.cpp:586-598 | with k the root of the number of nodes: a further phase keeps it true that at most k phases have been run, or that the matches still missing and the phases run are at most 2k together |
| `Matching.UnreachableDummyMeansMaximum` | src/craftdef.cpp:516-551 | if the search does not reach the dummy, no matching of the graph is larger than the current one |
| `Matching.Decided` | src/craftdef.cpp:600 | after the last search, everyone is matched if and only if a perfect matching exists |
| `Matching.RootsClosedMeansAllClosed` | src/craftdef.cpp:574-576 | if failed walks closed off every root, then every node the search had visited is closed off |
| `Matching.SomeRootSucceeds` | src/craftdef.cpp:589-598 | a phase in which no walk succeeds contradicts a reached dummy, so the outer loop always makes progress |
| `Matching.SwappedIn` | src/craftdef.cpp:566-571 | swapping one edge into the pairings keeps them mutually inverse and adds one matched node |
| `Matching.Rewired` | src/craftdef.cpp:560-571 | a walk that succeeded from the partner lets the current node take over the right node, and the whole path stays a valid augmentation |
| `Matching.PrunedTransitive` | src/craftdef.cpp:574-576 | what one failed walk closed off stays closed off through the next ones |
| `ItemNames.SortedUnique` | src/craftdef.cpp:623-632 | two sorted name lists with the same names are equal, so sorting forgets exactly the order |
| `ItemNames.MatchesIff` | src/craftdef.cpp:84-109 | an item matches its own name, and "group:" with a list of groups if and only if it is known and in every group that stands between two commas |
| `Pairing.FitsIgnoresOrder` | src/craftdef.cpp:603-678 | neither the order of the inputs nor that of the recipe slots matters for whether a bijection exists |
| `Pairing.ServedByName` | src/craftdef.cpp:642-652 | a slot that is no group can only be served by an input of its own name, and both can be taken away |
| `Pairing.PrefilterKeepsTheAnswer` | src/craftdef.cpp:642-656 | serving the plain slots first by exact name does not change whether all slots can be served |
| `Shapeless.FilterEmpty` | src/craftdef.cpp:608-613 | keeps the non-empty names in order |
| `Shapeless.PartitionGroups` | src/craftdef.cpp:634-640 | splits the sorted slots into group slots and plain slots; none is lost and order is kept |
| `Shapeless.SetDifference` | src/craftdef.cpp:642-648 | the merge of two sorted lists yields exactly the multiset difference |
| `Shapeless.Prefiltered` | src/craftdef.cpp:650-656 | the size test on the difference is true exactly when all plain slots are served, and then the asserted sizes agree |
| `Shapeless.BuildGraph` | src/craftdef.cpp:663-674 | the graph over the remaining inputs and group slots has a perfect matching exactly when a bijection exists |
| `Shapeless.CheckNames` | src/craftdef.cpp:603-678 | a shapeless recipe checks exactly when a bijection matches every non-empty input to a slot by name or group, up to the bound on group slots |
| `Shaped.GetBounds` | src/craftdef.cpp:158-189 | finds the bounding rectangle of the non-empty names, and fails exactly when there is none |
| `Shaped.BoundsUnique` | src/craftdef.cpp:158-189 | a grid has only one bounding rectangle |
| `Shaped.Pad` | src/craftdef.cpp:370-371 | completes the last row with empty names and changes no cell |
| `Shaped.CheckGrids` | src/craftdef.cpp:360-424 | a shaped recipe checks exactly when the bounding rectangles have the same size and every cell matches |
| `Shaped.CompareRow` | src/craftdef.cpp:407-421 | one row of cells is compared |
| `Shaped.SameAfterPadding` | src/craftdef.cpp:370-390 | the padding does not change what is compared |
| `Translation.PatternIffMoved` | src/craftdef.cpp:360-424 | as long as no group contains the empty slot, the shaped check means that some translation lays the recipe on the input |
| `Translation.PatternLaysOut` | src/craftdef.cpp:360-424 | a shaped match pairs the non-empty names of input and recipe in reading order |
| `CraftDefs.Check` | src/craftdef.cpp:360-424 | the checks of all five kinds of recipe decide what the recipe means |
| `CraftDefs.CheckOne` | src/craftdef.cpp:849-873 | a cooking or fuel recipe matches a single matching item and nothing else |
| `CraftDefs.CheckToolRepair` | src/craftdef.cpp:770-789 | tool repair applies exactly to two occupied slots that repair to something |
| `CraftDefs.RepairAddsUses` | src/craftdef.cpp:737-763 | a repaired tool has the uses of both tools together, less the additional wear, up to those of a new one; there is none if nothing is left |
| `CraftDefs.GetHashForGrid` | src/craftdef.cpp:55-80 | the hash over sorted names: by names, by count, or none |
| `CraftDefs.MatchHasInputHash` | src/craftdef.cpp:442-464 | every definition that matches an input has been filed under the hash the input is looked up by |
| `CraftDefs.EmptySlotInGroupIsMisfiled` | src/craftdef.cpp:442-464 | a group that contains the empty slot makes a shaped recipe with a known output match an input that is looked up under another hash |
| `CraftManager.CraftDefManager.RegisterCraft` | src/craftdef.cpp:1212 | a new definition is appended to the unhashed layer |
| `CraftManager.CraftDefManager.InitHashes` | src/craftdef.cpp:1232-1247 | all unhashed definitions are moved into their layers, each under its own hash, in order of registration |
| `CraftManager.CraftDefManager.Clear` | src/craftdef.cpp:1221-1229 | all layers are emptied |
| `CraftManager.CraftDefManager.GetCraftResult` | src/craftdef.cpp:1054-1108 | the layered lookup returns what scanning the three addressed lists returns, with its output; a recipe of the kind that is preferred among all that match |
| `CraftManager.SearchList` | src/craftdef.cpp:1078-1105 | one list is walked from back to front, keeping the first definition of the highest priority |
| `CraftManager.ScanPicksTheBest` | src/craftdef.cpp:1078-1105 | the scan returns the last registered candidate among those of the highest priority |
| `CraftManager.OtherHashesDoNotMatter` | src/craftdef.cpp:1066-1076 | looking only at the definitions with the hash of the input gives the same as looking at all of the layer |
| `CraftManager.LayersLoseNothing` | src/craftdef.cpp:1050-1112 | if no group contains the empty slot, the layered lookup returns what a scan of all definitions returns: something exactly when a definition matches with a known output; plain shaped recipes win over shaped ones with groups, these over shapeless, cooking and fuel recipes without groups, these over those with groups, and tools are only repaired when nothing else matches |
| `CraftManager.LosesNothingIff` | src/craftdef.cpp:1050-1112 | the lookup always returns what a scan of all definitions returns if and only if no group contains the empty slot, for a game with an item, a known output, and an itemstring for every such group |
| `CraftManager.MisfiledIsLost` | src/craftdef.cpp:1066-1076 | a definition filed under another hash than that of the input is found by the scan and not by the lookup |
| `CraftManager.FiledOneMore` | src/craftdef.cpp:1232-1247 | filing one more definition under its hash keeps the layers exact |
| `Items.AddItemConserves` | src/inventory.cpp:319-354 | adding one stack to another conserves the count of every kind of item and stays within 16 bits |
| `Items.TakeItemConserves` | src/inventory.cpp:402-420 | taking from a stack conserves the count of every kind and takes the smaller of the two counts |
| `Items.AddFillsUp` | src/inventory.cpp:319-354 | a stack is filled up to the maximum of its item, but not beyond, before anything is left over; other kinds stay outside |
| `Items.OnlyCountsChange` | src/inventory.cpp:319-420 | a stack put into an empty slot arrives with its wear and metadata; otherwise only numbers change |
| `Items.FitsPredictsAdd` | src/inventory.cpp:356-393 | itemFits predicts exactly what addItem leaves over |
| `InventoryLists.InventoryList.ChangeItem` | src/inventory.cpp:598-609 | replaces one slot, returns the old stack, and marks the list exactly when it changed |
| `InventoryLists.InventoryList.AddItemAt` | src/inventory.cpp:657-666 | adds to one slot and marks the list exactly when something was taken |
| `InventoryLists.InventoryList.AddItem` | src/inventory.cpp:618-655 | pours the item onto occupied slots and then into empty ones; the flag tells whether anything was taken |
| `InventoryLists.InventoryList.RoomForItem` | src/inventory.cpp:681-692 | true exactly when the list has room for the non-empty item |
| `InventoryLists.AddedAllFillsRoom` | src/inventory.cpp:618-692 | addItem leaves nothing over exactly when roomForItem says so, although they visit the slots in different orders, and it conserves every kind of item |
| `InventoryLists.PourConserves` | src/inventory.cpp:618-655 | each pass of addItem conserves the count of every kind |
| `InventoryLists.PourOntoStacks` | src/inventory.cpp:625-637 | the pass over occupied slots takes exactly the free space of stacking slots |
| `InventoryLists.PourIntoEmpty` | src/inventory.cpp:639-651 | the pass over empty slots takes everything as soon as there is an empty slot |
| `InventoryOrder.EarlierStacksFirst` | src/inventory.cpp:625-637 | a stack grows only when every stack of its kind before it is full |
| `InventoryOrder.FirstEmptyTakesAll` | src/inventory.cpp:639-651 | the first empty slot takes all that is left |
| `InventoryLists.InventoryList.ContainsItem` | src/inventory.cpp:694-711 | true exactly when the matching stacks hold at least the count |
| `InventoryLists.CountAlikeIs` | src/inventory.cpp:694-711 | with metadata the total of that kind is counted; without, metadata does not matter |
| `InventoryLists.InventoryList.RemoveItem` | src/inventory.cpp:713-731 | removes from the back; what is removed is what disappears, at most the requested count |
| `InventoryLists.RemovedBackCounts` | src/inventory.cpp:713-731 | removal from the back lowers the count of the name by exactly the requested count or to zero |
| `InventoryOrder.LaterSlotsFirst` | src/inventory.cpp:713-731 | a slot gives items only when those of that name behind it have given all |
| `InventoryLists.InventoryList.TakeItem` | src/inventory.cpp:733-742 | takes from one slot and marks the list exactly when it changed |
| `InventoryLists.InventoryList.MoveItem` | src/inventory.cpp:766-808 | moves or swaps between two slots, of one list or two, as the value function of the two stacks says; for a source slot off the list nothing moves |
| `InventoryLists.InventoryList.Transfer` | src/inventory.cpp:773-780 | the first half of a move: takes the items and adds what fits |
| `InventoryLists.InventoryList.PutBack` | src/inventory.cpp:783-805 | the second half: what did not fit goes back, and the slots are swapped if nothing fitted |
| `InventoryLists.MoveConserves` | src/inventory.cpp:766-808 | a move or swap conserves every kind over both slots, swaps exactly when nothing can be stacked, and reports what it moved |
| `InventoryLists.InventoryList.MoveItemSomewhere` | src/inventory.cpp:744-764 | takes items and adds them wherever the other list has room, and the rest to the source slot, as the value function says; the lists stay valid exactly when the kind is kept |
| `InventoryLists.MovedSomewhereConservesIff` | src/inventory.cpp:744-764 | every kind is conserved if and only if part of the stack stays behind, or all of it finds a place, or both lists are one |
| `InventoryLists.WholeStackIsLost` | src/inventory.cpp:759-763 | a whole stack moved to a list full of other items: its count stays behind without a name |
| `InventoryLists.InventoryList.ClearItems` | src/inventory.cpp:445-454 | empties all slots and marks the list |
| `InventoryLists.InventoryList.SetSize` | src/inventory.cpp:456-467 | keeps what fits the new size and marks the list when the size changes |
| `InventoryLists.InventoryList.SetWidth` | src/inventory.cpp:469-473 | sets the width and marks the list |
| `InventoryLists.InventoryList.SetName` | src/inventory.cpp:475-479 | renames the list and marks it |
| `InventoryLists.InventoryList.DeleteItem` | src/inventory.cpp:611-616 | empties one slot and marks the list |
| `InventoryLists.InventoryList.Serialize` | src/inventory.cpp:481-501 | writes the list as token lines |
| `InventoryLists.InventoryList.DeSerialize` | src/inventory.cpp:503-557 | reads token lines into the slots, and fails exactly where the parser fails |
| `InventoryTokens.ItemsReadBack` | src/inventory.cpp:481-557 | the slot lines of a list, read back from any slot on, restore those slots |
| `InventoryTokens.ListReadsBack` | src/inventory.cpp:481-557 | a written list reads back with its width and all its items, and leaves the rest of the input |
| `InventoryTokens.OnlyChangesAreSent` | src/inventory.cpp:882-895 | incrementally only lists with changes are sent in full and only those without are kept: with no change there is one line for each list |
| `InventoryTokens.IncrementalSync` | src/inventory.cpp:882-968 | reading full or incremental output makes the receiver agree with the sender on all lists, provided that it agreed on the lists whose flag is clear; lists the sender does not have are dropped |
| `InventoryTokens.StepKeepsSync` | src/inventory.cpp:882-968 | an edit, a send or a flag reset keeps the receiver in agreement on all unmarked lists |
| `InventoryTokens.RunsStaySynchronised` | src/inventory.cpp:882-968 | along any run of edits, sends and resets the receiver agrees on all lists right after every send |
| `Inventories.Inventory.GetListIndex` | src/inventory.cpp:1026-1034 | finds the first list of a name |
| `Inventories.Inventory.CheckModified` | src/inventory.h:363-373 | true exactly when the inventory or one of its lists is marked |
| `Inventories.Inventory.ResetModified` | src/inventory.h:375-383 | clears all flags and changes no contents |
| `Inventories.Inventory.Serialize` | src/inventory.cpp:882-895 | writes marked lists in full and others as kept, or all in full |
| `Inventories.Inventory.DeSerialize` | src/inventory.cpp:897-968 | the loop over the input does to the lists what the reading function says, including the removal of lists that were not mentioned |
| `Inventories.Inventory.AddList` | src/inventory.cpp:970-994 | adds a list or resizes and empties the existing one, refuses names with a space, marks the list; this is an edit in the sense of the synchronisation |
| `Inventories.Inventory.DeleteList` | src/inventory.cpp:1004-1016 | removes the list of a name; this is an edit in the sense of the synchronisation |
| `Inventories.EditedOne` | src/inventory.cpp:598-742 | a change of one list that marks it is an edit that synchronisation survives |
| `MoveAction.IMoveAction.SwapDirections` | src/inventorymanager.cpp:158-163 | exchanges source and destination |
| `MoveAction.IMoveAction.MakePlan` | src/inventorymanager.cpp:370-398 | how many items would be moved and whether a swap is needed |
| `MoveAction.PlanMeans` | src/inventorymanager.cpp:370-398 | a swap is planned exactly when the destination takes nothing; otherwise the plan is what it takes |
| `MoveAnswers.MovesWhatIsAllowed` | src/inventorymanager.cpp:370-494 | when something fits, exactly that is asked about, and what the answers allow of it is moved: no answer but -1 is ever exceeded |
| `MoveAnswers.SwapsByConsent` | src/inventorymanager.cpp:370-494 | when nothing fits, the stacks are exchanged if and only if every answer, in both directions, covers the stack asked about; otherwise nothing happens |
| `MoveAction.IMoveAction.AskWithin` | src/inventorymanager.cpp:400-418 | the callbacks inside one inventory, asked in both directions for a swap; directions are restored |
| `MoveAction.IMoveAction.AskAcross` | src/inventorymanager.cpp:419-443 | the callbacks across inventories, asked in both directions for a swap; directions are restored |
| `MoveAction.IMoveAction.ApplyLimits` | src/inventorymanager.cpp:447-455 | the answers limit the count, where -1 means no limit |
| `MoveAction.SwapsAsAllowed` | src/inventorymanager.cpp:400-494 | whatever the callbacks answer, the move swaps exactly when a swap was allowed, so the assertion holds; the count stays within the plan |
| `MoveAction.IMoveAction.MoveStacks` | src/inventorymanager.cpp:479-527 | the move and the resets of infinite ends change the two lists as the value function says |
| `MoveAction.IMoveAction.ResetInfiniteSource` | src/inventorymanager.cpp:496-518 | an infinite source gets its stack back, and the displaced stack goes to the first empty slot |
| `MoveAction.IMoveAction.ResetInfiniteDestination` | src/inventorymanager.cpp:519-527 | an infinite destination gets its stack back |
| `MoveAction.IMoveAction.Apply` | src/inventorymanager.cpp:342-527 | a move between two slots has the outcome the value function says, and reports what it moved; it changes nothing for slots out of range, and marks every list it changes |
| `MoveAction.FiniteMoveConserves` | src/inventorymanager.cpp:479-527 | with answers of at least zero the count of every kind over both lists stays the same |
| `MoveAction.OutcomeConserves` | src/inventorymanager.cpp:342-527 | for callbacks that never answer -1 the whole action conserves every kind over both lists, whether it merges, moves part or swaps |
| `MoveAction.InfiniteSourceKept` | src/inventorymanager.cpp:496-518 | if only the source answers -1, the whole action, with whatever plan and callbacks, leaves its slot unchanged |
| `MoveAction.InfiniteDestinationKept` | src/inventorymanager.cpp:519-527 | if the destination answers -1, the whole action leaves its slot unchanged, whatever the source answers |
| `MoveAnswers.InfiniteSourceSwap` | src/inventorymanager.cpp:496-518 | a swap out of an infinite source leaves the source as it was and puts the displaced stack into the first empty slot, if it has another name |
| `MoveAnswers.InfiniteDestinationSwap` | src/inventorymanager.cpp:519-527 | a swap into an infinite destination leaves the destination as it was and uses the source up |
| `MoveAction.IMoveAction.ApplySomewhere` | src/inventorymanager.cpp:287-340 | a move without a destination slot tries the occupied slots and then the empty ones, as the value function says, up to where the assertion fails; afterwards the action is as before |
| `MoveAction.IMoveAction.TrySlots` | src/inventorymanager.cpp:324-333 | one of the two loops over the destination slots |
| `MoveAction.IMoveAction.AddTo` | src/inventorymanager.cpp:307-314 | one round: the action applied to one slot, and what it reports subtracted |
| `MoveAction.SomewhereConserves` | src/inventorymanager.cpp:287-340 | for callbacks that never answer -1 the loops conserve every kind over both lists, whatever the count and wherever they stop |
| `MoveAssertion.StacksComeFirst` | src/inventorymanager.cpp:324-333 | empty slots stay empty while the occupied ones are tried, and for good if these take all |
| `MoveAction.RoundMoves` | src/inventorymanager.cpp:307-314 | a round with something in the source reports no more than the count and the source, and without -1 takes exactly that from it |
| `MoveAction.NothingAsked` | src/inventorymanager.cpp:307-314 | from an empty source, or to its own slot, a round moves nothing and subtracts the number of the round before |
| `MoveAssertion.AssertionHoldsIff` | src/inventorymanager.cpp:287-340 | for a source stack and a count the assertion holds for all lists and callbacks if and only if the source has at most one item, or the count is at most that of the source, or at most two if the source is in the destination list itself |
| `MoveAssertion.AssertionHolds` | src/inventorymanager.cpp:287-340 | with a source in another list that has at least the count, the assertion holds whatever is answered, and without -1 the source loses exactly what is no longer left to move |
| `MoveAssertion.StaleCountFails` | src/inventorymanager.cpp:313-314 | three items, a count of five, two empty slots: the number of the first round is subtracted twice, and the assertion fails |
| `Noise.NoisePerlin2D` | src/noise.cpp:309-332 | the loop computes offset plus scale times the weighted sum of octaves at the point |
| `Interpolation.PerlinAtPoint` | src/noise.cpp:309-332 | at the points of the spread, with a whole lacunarity, the direct value is offset plus scale times the weighted sum of the lattice noise at the multiples of that point, each octave with the next seed |
| `Interpolation.GradientAtPoint` | src/noise.cpp:235-250 | at a lattice point the gradient is the noise there |
| `Interpolation.GradientOnRow` | src/noise.cpp:201-214 | on a horizontal edge it interpolates between the two points of that edge |
| `Interpolation.GradientOnColumn` | src/noise.cpp:201-214 | on a vertical edge it interpolates between the two points of that edge |
| `Interpolation.Seamless` | src/noise.cpp:235-250 | neighbouring cells agree on the edge between them |
| `Interpolation.GradientWithin` | src/noise.cpp:201-250 | the gradient stays within the range of the noise at its four corners |
| `Interpolation.SlopesAreExact` | src/noise.cpp:201-250 | noise that is linear in each coordinate is reproduced exactly at every point |
| `Interpolation.EaseSymmetric` | src/noise.h:236-239 | the ease curve is symmetric about its middle |
| `Interpolation.EaseFlat` | src/noise.h:236-239 | it stays between 0 and 1 and leaves its ends as slowly as a cube |
| `Noise.WalkAddsUp` | src/noise.cpp:531-539 | cell and fraction always add up to the position, and the fraction stays below one if no step is longer than a cell |
| `Noise.WalkInside` | src/noise.cpp:505-546 | for forward steps of any length the cell of the walk and its neighbours lie inside the lattice |
| `Noise.WalkMeans` | src/noise.cpp:525-546 | the cell of the walk is the floor of the position, and its fraction that of the position, if no step is longer than a cell or there is none |
| `Noise.WalkedIsDirect` | src/noise.cpp:516-548 | then the walked value is the direct gradient at that grid point |
| `Noise.WalkedIsDirectIff` | src/noise.cpp:516-548 | the walked values are the direct gradients for all noises, offsets and points of a map if and only if along each side the step is at most one cell or there is only one point |
| `Noise.FillLattice` | src/noise.cpp:508-514 | the buffer holds the noise of every lattice point |
| `Noise.CellValue` | src/noise.cpp:516-529 | interpolating the four corners of the walk cell gives the walked value at that grid point |
| `Noise.NoiseMap.GradientRow` | src/noise.cpp:519-540 | one row of the map holds the walked values, for forward steps of any length |
| `Noise.NoiseMap.GradientMap2D` | src/noise.cpp:491-548 | the incremental walk fills the map with the walked value of every grid point, for all forward steps whose lattice fits the buffer |
| `Noise.NoiseMap.UpdateResults` | src/noise.cpp:719-745 | one octave is added with its weight, and the weights are advanced |
| `Noise.NoiseMap.PerlinMap2D` | src/noise.cpp:644-678 | the map holds the weighted sum of the walked octaves at every point, scaled and offset unless that is skipped, whenever every octave steps forward and fits the buffer |
| `Noise.OctavesFollow` | src/noise.cpp:661-670 | as long as no octave jumps over cells, the walked octaves sum up to those of the direct formula |
| `Noise.MapEqualsDirect` | src/noise.cpp:644-678 | without a persistence map the value of a map at a point equals the direct formula for every noise if and only if the offset or the scale is outside the tolerance, or the offset is 0 and the scale is 1 or there are no octaves |
| `Noise.MapHolds` | src/noise.cpp:644-678 | every entry of a finished map is that value of its grid point, as long as no octave jumps over cells |
| `Noise.SmallOffsetIsLost` | src/noise.cpp:672-675 | an offset inside the tolerance is missing at every point, whatever the noise |
| `Noise.Summed` | src/noise.cpp:661-670 | adding one octave turns the sum of n octaves into the sum of n + 1, with the weights of a persistence map if there is one |
| `NoiseBuffers.ResizeNoiseBuf` | src/noise.cpp:436-476 | invalid parameters are refused; otherwise the buffer has room for every octave at every offset if and only if the parameters are roomy, and every octave steps at most one cell if and only if the steps are small |
| `NoiseBuffers.AcceptedIff` | src/noise.cpp:436-461 | from a lacunarity of one on, parameters are accepted if and only if the last octave has spreads of at least one and no more than a thousand million points on a side |
| `NoiseBuffers.EveryOctaveFits` | src/noise.cpp:436-476 | for a lacunarity of at least zero there is room for every octave at every offset if and only if there are no octaves, or the lacunarity is at least one, or the finest lattice, that of the first octave, is within the computed size |
| `NoiseBuffers.EveryStepSmall` | src/noise.cpp:453-461 | every octave of accepted parameters steps at most one cell if and only if there are no octaves, or the lacunarity or both spreads are at least one |
| `NoiseBuffers.SmallStepsFollow` | src/noise.cpp:453-461 | then no octave jumps over cells, and the map sums up the octaves of the direct formula |
| `NoiseBuffers.GuardMissesFirstOctave` | src/noise.cpp:453-461 | spread 0.75, lacunarity 0.5, one point: accepted, with room, but the first octave steps more than one cell |
| `NoiseBuffers.HalvingOverruns` | src/noise.cpp:439-472 | spread 1, lacunarity 0.5, 80 by 80 points: accepted with 43 by 43 cells, walked over 82 by 82 |
| `NoiseBuffers.LatticeWithin` | src/noise.cpp:464-467 | the lattice an octave walks over is no longer than that of a finer octave |
| `Pcg.OutputEvenlySpread` | src/noise.cpp:72-74 | for fixed top five and low 27 bits of the state, every 32-bit value is drawn from exactly one state |
| `Pcg.RotatesBack` | src/noise.cpp:74 | the rotation of the output is undone by the opposite rotation |
| `Pcg.StepInjective` | src/noise.cpp:69-70 | different states go to different states |
| `Pcg.GeoFactors` | src/noise.cpp:69-70 | the sum of the first n powers of the multiplier has no more factors of two than n |
| `Pcg.NoReturn` | src/noise.cpp:69-70 | no state comes back before 2^(64 - v) draws, where 2^v is the power of two in the drift of the state |
| `Pcg.FullOrbit` | src/noise.cpp:67-75 | every state that differs by a multiple of 2^v comes up within 2^(64 - v) draws |
| `Pcg.OrbitOf` | src/noise.cpp:67-75 | every state has such a v, and the states reached from it are exactly those |
| `Pcg.FullPeriod` | src/noise.cpp:67-75 | with an odd increment every state comes up within 2^64 draws from any state |
| `Pcg.SomeDrawAccepted` | src/noise.cpp:93-112 | the rejection loop ends for every bound unless 2^59 divides the drift of the state |
| `Pcg.SeededDrawsEnd` | src/noise.cpp:57-64 | so it ends for all states and bounds if the increment is no multiple of four; seeding sets an odd one |
| `Pcg.EndsIff` | src/noise.cpp:93-112 | for every state and increment the loop ends if and only if 2^59 does not divide the drift, or one of at most 32 states, those that differ by a multiple of 2^v, draws at least the threshold |
| `Pcg.FixedState` | src/noise.cpp:67-75 | for every increment that is a multiple of four there is a state that never changes |
| `Pcg.FixedIff` | src/noise.cpp:93-112 | only such increments have one, and from it the loop ends exactly when its output is at least the threshold |
| `Pcg.Threshold` | src/noise.cpp:84-89 | the 32-bit expression for the threshold is 2^32 modulo the bound |
| `Pcg.Unbiased` | src/noise.cpp:78-112 | each residue below the bound comes from the same number of accepted draws |
| `Pcg.PcgRandom.Seed` | src/noise.cpp:57-64 | seeding sets an odd increment and the state that two draws leave |
| `PcgDraws.KnownDraws` | src/unittest/test_random.cpp:107-112 | the first six draws with seed 814538 on stream 998877 |
| `Pcg.PcgRandom.Next` | src/noise.cpp:67-76 | a draw returns the output of the old state and steps the state |
| `Pcg.PcgRandom.RangeBelow` | src/noise.cpp:78-112 | the bounded draw is the residue of the first accepted draw, or the whole draw for the bound 0; required is only that there is an accepted draw |
| `Pcg.PcgRandom.Range` | src/noise.cpp:115-124 | a draw lands in [min, max] for all 32-bit ranges, up to the full one and with wrapping addition, as min plus an unbiased bounded draw; max below min is refused |
| `Pcg.PcgRandom.SetState` | src/noise.cpp:161-165 | restores any saved state |
| `Pcg.PcgRandom.GetState` | src/noise.cpp:155-159 | returns what setState restores |
| `Pcg.DrawnBelowOnce` | src/noise.cpp:78-112 | the specification of a bounded draw has one outcome, below the bound |
| `Pcg.RestoredStateHangs` | src/noise.cpp:161-165 | with increment 0 and state 0, which can be restored, a draw below 3 never ends |
| `Collision.TryAxis` | src/collision.cpp:114-137 | one block of the test: whether the axis is hit, whether it closes too late, and its time |
| `Collision.AxisAlignedCollision` | src/collision.cpp:93-193 | the three blocks in the order Y, X, Z with their early returns; the time is that of the reported axis |
| `Collision.ReportsContact` | src/collision.cpp:93-193 | for solid boxes apart at the start, axis A and time t are reported exactly when the facing edges on A touch at t within the limit while the other two axes overlap |
| `Collision.ContactIsFirst` | src/collision.cpp:93-193 | up to the contact the interiors are disjoint, and right after it they intersect |
| `Collision.ReportedUnlessTied` | src/collision.cpp:93-193 | a sweep that ends in an intersection is reported before that moment if and only if no two axes close last at the same instant |
| `Collision.TieIsMissed` | src/collision.cpp:124-132 | a box that moves into a corner edge on is not reported: the exception is real |
| `Collision.ReportsOverlap` | src/collision.cpp:119-134 | boxes that intersect at the start: the first axis, in the order Y, X, Z, that faces within the inner margin is reported, with a negative time |
| `Collision.FacingIff` | src/collision.cpp:120-178 | an axis faces if and only if the moving box is less than two units, and less than half of the other box, inside |
| `Collision.NearestCollision` | src/collision.cpp:464-489 | the loop computes the search: it finds a box whenever one can be hit, a hit in the future is the earliest of all and the first box among equals, and any earlier hit in the past is hidden by a box before it in the list; stepped-up boxes are ignored |
| `Collision.PruningExact` | src/collision.cpp:119-193 | a tighter limit leaves exactly the hits within it for which no axis looked at before closes after it |
| `Collision.FutureIsEarliest` | src/collision.cpp:464-489 | a hit in the future that the search returns is the earliest of all |
| `Collision.SearchIsSearched` | src/collision.cpp:464-489 | every hit that the search passes over for a later one is hidden by a box before it |
| `Collision.EarliestFoundIff` | src/collision.cpp:464-489 | the earliest hit is found if and only if, at its turn, no axis looked at before closes after the best time so far |
| `Collision.EarliestFound` | src/collision.cpp:464-489 | in particular whenever no box before it hides it |
| `Collision.HiddenBehind` | src/collision.cpp:477-488 | a box that hides another does so in the list of just the two |
| `Collision.DeepestIsMissed` | src/collision.cpp:477-488 | two boxes that intersect already: the search stays at -0.375 and misses the hit at -0.5 |
| `Collision.PruningKeeps` | src/collision.cpp:477-488 | a limit tightened to a non-negative time changes no hit before it |
| `Emerge.EmergeManager.PushBlockEmergeData` | src/emerge.cpp:348-393 | a request is admitted if and only if it is forced, or the table is below the total and the entries of the peer are below its limit: half of the total without a peer, else the limit for generating or for loading; then the entry is merged or added and counted |
| `Emerge.EmergeManager.EnqueueBlockEmergeEx` | src/emerge.cpp:276-303 | an admitted request for a new position makes an entry with its peer, flags and callback and goes to the first shortest queue; one for a known position only adds flags and callback; a refused one changes no entry and no queue |
| `Emerge.EmergeManager.GetOptimalThread` | src/emerge.cpp:419-437 | returns the first of the shortest queues |
| `Emerge.EmergeManager.PopBlockEmergeData` | src/emerge.cpp:396-416 | removes the entry and counts it down, or fails without change |
| `Emerge.EmergeManager.PopBlockEmerge` | src/emerge.cpp:511-524 | hands out the front of the queue with its data, which is always in the table |
| `Emerge.EmergeManager.CancelPendingItems` | src/emerge.cpp:476-491 | empties a queue and calls the pending callbacks of its positions in order |
| `Emerge.EmergeManager.IsBlockInQueue` | src/emerge.cpp:306-310 | true exactly when the position sits once in the queues |
| `Emerge.FrontIsEnqueued` | src/emerge.cpp:511-524 | the front of a queue is in the table with a positive counter, so a pop never fails half way and its assertion holds |
| `Emerge.NextKeeps` | src/emerge.cpp:276-303 | every enqueue, pop and cancel keeps the table, the counters and the queues consistent |
| `Emerge.RunKeeps` | src/emerge.cpp:348-416 | so does every interleaving of such steps |
| `Emerge.OnlyOneQueue` | src/emerge.cpp:296-297 | an enqueued position sits exactly once in exactly one queue |
| `Emerge.NextHands` | src/emerge.cpp:380-390 | a step hands out the pending callbacks of a position and keeps the others in order |
| `Emerge.RunHands` | src/emerge.cpp:348-416 | over any run the callbacks handed out for a position, then the pending ones, are the accepted ones in order |
| `Emerge.AllHandedWhenIdle` | src/emerge.cpp:348-416 | when all queues have run empty every accepted callback has been handed out exactly once |
| `Emerge.CallsAreHanded` | src/emerge.cpp:476-508 | a cancelled thread calls exactly the callbacks that its pops hand out |
| `Emerge.RunWithinLimits` | src/emerge.cpp:358-372 | without forced requests no run exceeds the total, half of it rounded up for requests without a peer, or the share of a peer |
| `Emerge.RequestedIff` | src/emerge.cpp:358-372 | after any run, a position is in the table after a request for it if and only if it was before, or the request is forced, or there is room |
| `Emerge.FlagsStick` | src/emerge.cpp:383-385 | a flag that was asked for stays set until the block is popped, and none is set that nobody asked for |
| `Emerge.IdleInv` | src/emerge.cpp:110-128 | a new manager is consistent and within its limits |
| `ChatFormat.FormatKeepsText` | src/chat.cpp:232-421 | the fragments spell the name in angle brackets, if there is one, and the text, and nothing else, with or without links |
| `ChatFormat.FormatIsWellSet` | src/chat.cpp:232-421 | at least one line; no line goes past the columns; fragments are contiguous from the start column or the indentation; only the first line is marked |
| `ChatFormat.NothingWritten` | src/chat.cpp:261-275 | nothing is written exactly when the indentation takes all columns |
| `ChatFormat.WideEnough` | src/chat.cpp:261-275 | from three columns on there is room, unless the name has a NUL inside |
| `ChatFormat.HangsBelowText` | src/chat.cpp:259-271 | further lines start below the text if the name takes at most half of the columns, else at column two |
| `ChatFormat.NoRoom` | src/chat.cpp:259-275 | a named line in two columns, and a name with NUL characters, leave no room |
| `ChatFormat.CutFragment` | src/chat.cpp:335-393 | the scanning loops cut what the cutting function says: at a link, in front of the next link, or at a word boundary |
| `ChatFormat.BreaksAtWords` | src/chat.cpp:350-393 | as long as no link starts within the room, with links on or off, a line breaks after the last white space that fits, or at the last column if there is none to break at |
| `ChatFormat.StopsAtLink` | src/chat.cpp:385-393 | in front of the next link within the room the text is cut exactly where the link starts |
| `ChatBreaks.LinesEndWell` | src/chat.cpp:285-393 | every line of a formatted chat line that is followed by another and goes further than the name ends in a link, or after the last white space that fits, or at the last column when there is none to break at |
| `ChatFormat.LinksAreWhole` | src/chat.cpp:362-383 | a link runs to white space, a quote, a semicolon or the end, and is remembered whole |
| `ChatFormat.LinkIff` | src/chat.cpp:342-383 | a link is recognised if and only if links are on and a secure one starts here, or a plain one with no secure one further on |
| `ChatFormat.PlainBeforeSecure` | src/chat.cpp:342-346 | a plain link in front of a secure one is cut as text |
| `ChatFormat.CutFragments` | src/chat.cpp:333-411 | the fragments for the next line, and that the loop ends |
| `ChatFormat.LayOut` | src/chat.cpp:285-322 | the layout loop places fragments, splits those that do not fit and ends lines |
| `ChatFormat.PlaceText` | src/chat.cpp:285-322 | placing fragments loses and adds no text |
| `ChatFormat.PlaceShape` | src/chat.cpp:285-322 | placing fragments keeps every line inside the columns and without gaps |
| `ChatFormat.NextFragmentsText` | src/chat.cpp:333-411 | the fragments cut for a line spell the stretch of text they cover |
| `ChatFormat.FormatChatLine` | src/chat.cpp:232-421 | appends exactly the formatted lines to the destination and returns their number; FormatKeepsText, FormatIsWellSet and LinesEndWell say what these lines are |
| `ChatBuffers.RunIsSound` | src/chat.cpp:51-199 | over any run of added, cleared, deleted, aged, resized, reformatted and scrolled lines, with plain names and from three columns on, the cache is what formatting every line gives |
| `ChatBuffers.NextIsSound` | src/chat.cpp:51-225 | one operation keeps that |
| `ChatBuffers.RunIsTidy` | src/chat.cpp:51-225 | over any run at all, whatever names and widths, marks and counts stay in order, so the sanity check of deleteOldest never fails; without clear the scroll position stays between top and bottom |
| `ChatBuffers.NextIsTidy` | src/chat.cpp:51-225 | one operation keeps that |
| `ChatBuffers.DeletedInSync` | src/chat.cpp:98-130 | deleting the oldest lines keeps the cache right if and only if all of them have room for text, or no later line has |
| `ChatBuffers.UnfitLineBreaksCache` | src/chat.cpp:98-115 | two columns, a named line, a line of the server: deleting the first deletes the second from the cache |
| `ChatBuffers.SkipToStart` | src/chat.cpp:105-115 | going by the marks, a line starts behind those before it that have room |
| `ChatBuffers.MarksOfLine` | src/chat.cpp:105-115 | the formatted lines of a chat line start with the only marked one |
| `ChatBuffers.FirstsLocate` | src/chat.cpp:160-171 | counting marks above the scroll position finds the first chat line that starts at or below it |
| `ChatBuffers.ChatBuffer.constructor` | src/chat.cpp:32-49 | an empty buffer of at least one line |
| `ChatBuffers.ChatBuffer.AddLine` | src/chat.cpp:51-70 | the line is formatted at the end of the cache, a console at the bottom follows it, and the oldest lines beyond the limit go; for every line and width |
| `ChatBuffers.ChatBuffer.DeleteOldest` | src/chat.cpp:98-130 | the sanity check on the marks cannot fail; as many lines go, and as many groups of formatted lines |
| `ChatBuffers.ChatBuffer.DeleteByAge` | src/chat.cpp:132-138 | deletes the front lines that are older, and no others |
| `ChatBuffers.ChatBuffer.Resize` | src/chat.cpp:446-451 | keeps the newest lines within the new limit |
| `ChatBuffers.ChatBuffer.Reformat` | src/chat.cpp:145-199 | rebuilds the cache for a new width, keeps it for a new height, and restores the scroll position; for every width |
| `ChatBuffers.ChatBuffer.ScrollAbsolute` | src/chat.cpp:215-225 | clamps the scroll position between top and bottom |
| `ChatView.BottomShowsNewest` | src/chat.cpp:201-230 | at the bottom, and only there, the newest formatted line is in the last row, and those before it in the rows above |
| `ChatView.TopShowsOldest` | src/chat.cpp:423-436 | at the top the oldest line is in the first row, or all lines are in view |
| `ChatView.InRangeFillsRows` | src/chat.cpp:423-445 | the scroll position is in range if and only if the last row shows a line and no row is wasted |
| `ChatView.RunStaysAtBottom` | src/chat.cpp:51-225 | a console at the bottom stays there over any run in which it is not scrolled up or cleared |
| `ChatView.AddedBelowView` | src/chat.cpp:51-70 | otherwise what is in view stays in place when a line is added within the limit |
| `ChatView.DeletedAboveView` | src/chat.cpp:98-130 | and when lines above it are deleted |
| `ChatView.NewWidthKeepsLine` | src/chat.cpp:158-197 | after a change of width the chat line that starts in view first, or below, is in the first row, unless that is too near to the end |
| `ChatBuffers.ChatBuffer.Scroll` | src/chat.cpp:210-213 | scrolls by a number of rows within the limits |
| `ChatBuffers.ChatBuffer.GetFormattedLine` | src/chat.cpp:201-208 | with a right cache, the line shown in a row is the one that formatting everything puts there, or an empty one |
| `ChatBuffers.ChatBuffer.Step` | src/chat.cpp:91-96 | ages every line, which does not show in the cache |
| `ChatBuffers.ChatBuffer.Clear` | src/chat.cpp:72-78 | empties the buffer and keeps marks and counts in order; afterwards the scroll position is in range exactly when the console has no rows |
| `Paths.RemoveRelativePathComponents` | src/filesys.cpp:772-823 | the backwards scan in place yields the left-to-right stack normalisation of the components, or the empty path where the stack would be popped while empty; it stays absolute or relative and it terminates |
| `Paths.BackwardsIsNormal` | src/filesys.cpp:789-798 | counting ".." from the right keeps what the stack from the left keeps, and fails where it fails |
| `Paths.NormalisesOnce` | src/filesys.cpp:772-823 | normalising twice gives the same string as normalising once |
| `Paths.CountDots` | src/filesys.cpp:787-798 | whether a component is removed, and the new count of ".." |
| `Paths.RemoveStep` | src/filesys.cpp:800-812 | cutting a component out of the path keeps the account of all components |
| `Paths.KeepStep` | src/filesys.cpp:776-787 | stepping over a component keeps the account of all components |
| `Paths.ComponentsOfBoth` | src/filesys.cpp:776-785 | paths that meet at a delimiter have their components side by side |
| `Paths.RemoveLastPathComponent` | src/filesys.cpp:740-770 | drops the last components, as many as there are up to the count, returns them, and leaves no delimiter at the end |
| `Paths.PathStartsWith` | src/filesys.cpp:690-738 | true exactly when the components of the prefix begin those of the path and both begin at a delimiter or both do not |
| `NodeIds.GetBlockNodeIdMapping` | src/mapblock.cpp:220-254 | every id becomes its place in the order of first appearance, other fields stay, and the mapping gets the names by place, for arrays of any length with up to 65535 different ids |
| `NodeIds.CorrectBlockNodeIds` | src/mapblock.cpp:259-307 | with the shortcut for equal neighbours the nodes and the registry become what a lookup for every node makes them; if the free ids are unused before, they are so afterwards, and nodes of different names are kept apart |
| `NodeIds.CorrectedByFinal` | src/mapblock.cpp:274-307 | each node ends up with the id its name has in the final registry, which only grew; a name stays without an id only when all ids are taken |
| `NodeIds.NamesStayApart` | src/mapblock.cpp:274-307 | if the free ids are different and unused, nodes whose names are resolved end up with the same id if and only if they have the same name, or two names that have shared an id before; without aliases every node keeps its name and the registry stays inverse |
| `NodeIds.RoundTrip` | src/mapblock.cpp:220-307 | renumbering and resolving restores every node and registers nothing exactly when every used id comes back, as it does when its name leads back to it |
| `NodeIds.UnregisteredIsLost` | src/mapblock.cpp:220-307 | an id that is not registered does not come back: it becomes the id of the unknown node |
| `NodeIds.RenumberStep` | src/mapblock.cpp:235-253 | writing one more number keeps the renumbered part exact |
| `NodeIds.MapsStep` | src/mapblock.cpp:239-249 | the 65536-entry table says where each id was first seen |
| `NodeIds.NameIdMapping.Set` | src/nameidmapping.h:43-48 | sets both directions of the mapping |
| `NodeIds.NodeDefManager.AllocateUnknown` | src/nodedef.cpp:1210-1227 | gives an unknown name a free id that no name and no node had before, or the ignore id if and only if there is none |
| `NodeTimers.RunRepresents` | src/nodetimer.h:67-114 | over any run of set, remove, clear and step both maps describe the running timers throughout, if and only if no operation is misled: none steps past, or sets a timer behind, an earliest timer at -1 |
| `NodeTimers.RunEndsRight` | src/nodetimer.h:67-114 | they do so at the end of the run, then |
| `NodeTimers.NextRepresents` | src/nodetimer.h:67-114 | one operation keeps both maps in step with the plain map of running timers if and only if it is not misled |
| `NodeTimers.NextTriggerIsEarliest` | src/nodetimer.h:67-114 | the next trigger is the earliest end of a running timer, or -1 when none runs |
| `NodeTimers.StepFires` | src/nodetimer.cpp:128-150 | a step returns exactly the timers now due, with their initial elapsed time plus the time that passed, if and only if the earliest timer is not at -1 or not due |
| `NodeTimers.StepFiresOnce` | src/nodetimer.cpp:128-150 | no position is returned twice |
| `NodeTimers.SentinelHidesTimer` | src/nodetimer.cpp:128-134 | a timer set to trigger at time -1 is not returned when it is due: the exception is real |
| `NodeTimers.InsertKeeps` | src/nodetimer.h:96-103 | inserting keeps the order, the index and the next trigger if and only if the earliest timer is not at -1, or the new one is not after it |
| `NodeTimers.RemoveKeeps` | src/nodetimer.h:77-94 | removing keeps the order, the index and the next trigger |
| `NodeTimers.StepKeeps` | src/nodetimer.cpp:135-149 | a step keeps the order, the index and the next trigger |
| `NodeTimers.NodeTimerList.Get` | src/nodetimer.h:67-75 | the timer at a position with its elapsed time brought up to date, or a blank one |
| `NodeTimers.NodeTimerList.Remove` | src/nodetimer.h:77-94 | removes the timer from both maps and corrects the next trigger |
| `NodeTimers.NodeTimerList.Insert` | src/nodetimer.h:96-103 | adds the timer to both maps and corrects the next trigger |
| `NodeTimers.NodeTimerList.Set` | src/nodetimer.h:105-108 | replaces the timer at a position |
| `NodeTimers.NodeTimerList.Clear` | src/nodetimer.h:110-114 | removes all timers |
| `NodeTimers.NodeTimerList.Step` | src/nodetimer.cpp:128-150 | the loop erases the due timers from both maps and returns them |

## Left out

- Recipes and item stacks are values, not heap objects: sharing of one definition between the tables and in-place changes of a stack inside a slot are not captured; slots are replaced.
- Decrementing the input of a craft, replacements, getCraftRecipes, clearCraftsByInput, clearCraftsByOutput and the dumps of recipes would add only easy members.
- The names and groups of items, tool capabilities and known outputs are parameters of the game definition.
- Matching.CanMatchAll: takes a graph of at most SHAPELESS_GROUPS_MAX nodes on each side with right nodes in range, as the caller asserts.
- CraftManager.CraftDefManager.RegisterCraft: the table of definitions by output, which a lookup by input does not read, is left out, here and in Clear.
- CraftManager.CraftDefManager.Clear: see RegisterCraft.
- CraftManager.CraftDefManager.GetCraftResult: finds the recipe and its output; the input is not decremented and no replacements are handed out.
- CraftManager.LayersLoseNothing: assumes that no group contains the empty slot; CraftManager.LosesNothingIff shows that nothing less will do.
- Inventories: the text of an item and of list names is a token that reads back as written; JSON strings, escaping, legacy formats and stream errors are not part of this model. A slot line after the last slot of a list fails to parse here.
- InventoryLists.InventoryList.DeSerialize: a slot line for a list of size 0 fails to parse. The program compares with the size minus one, unsigned, so it does not throw there; what it does then is undefined.
- `InventoryList::operator=` sets no flag (src/inventory.cpp:559-571) and is not among the edits; resize locks are not modelled.
- MoveAction.IMoveAction.Apply: the callbacks are functions that do not change the lists and answer at least -1; on-callbacks, rollback, logging and client prediction are left out.
- MoveAction.IMoveAction.ApplySomewhere: slot numbers are unbounded, where the program keeps them in 16 bits, and it stops where the assertion fails.
- InventoryTokens.IncrementalSync: lists have different names, and items are writable, that is, within the 16-bit counts that stacks keep.
- Noise.NoiseMap.PerlinMap2D: real numbers instead of floats, no wrap-around of seeds, the lattice noise is any function, and each octave must step forward and fit the buffer: outside the buffer, and for a negative size, what the program does is undefined. NoiseBuffers.EveryOctaveFits says for which parameters resizing establishes that.
- NoiseBuffers.ResizeNoiseBuf: the third dimension, and its share of the guards, is left out, as are three-dimensional maps. Room is stated for a lacunarity of at least zero; below, octaves step backwards, and the program converts a negative size to an unsigned number.
- Pcg: filling byte buffers and the normal distribution only repeat draws.
- Pcg.PcgRandom.RangeBelow: says nothing about draws that never end; Pcg.SomeDrawAccepted and Pcg.EndsIff say which these are.
- Collision: real numbers instead of floats; the three blocks of the code, alike but for the axis, are one method called three times. Truncation, bouncing, stepping up, node boxes and objects of collisionMoveSimple depend on the map and on tuning constants.
- Emerge: map generation, files, Lua, thread start and stop, and the signals; a step is what happens under the mutex. Counters are unbounded, and handing a callback out is claimed, not running it, because positions beyond the map limit are dropped after the pop (src/emerge.cpp:670-671).
- Emerge.EmergeManager.PopBlockEmerge: threads are numbered, and the methods of a thread belong to the manager here.
- ChatFormat: colours and enriched text are left out, and a link is kept as text without conversion to UTF-8; which characters are white space is a parameter.
- The prompt, the completion of nicknames and the history of the chat console.
- Paths: one delimiter, as on POSIX systems; case-insensitive comparison and calls to the operating system are left out.
- Paths.RemoveLastPathComponent: the count is not negative.
- NodeIds.GetBlockNodeIdMapping: at most 65535 different ids (a block has 4096 nodes), ids of 16 bits and non-empty names; the sets of names for log messages are left out.
- NodeIds.NodeDefManager.AllocateUnknown: the free ids are a list; the features of a dummy node are left out.
- NodeTimers: real numbers instead of floats; the multimap is a sorted sequence, and an iterator into it is a handle. Serialisation is left out.
- NodeTimers.NodeTimerList.Insert: the position has no timer yet, as the program demands.

# Verification of the device model's stateful cores

A Dafny model of those parts of a virtual machine device model that keep state with hard invariants, and proofs of
what every run of them keeps. Each piece is modelled in the form of its source: classes whose methods update fields,
arrays and linked nodes in place, with loops where the source loops. Facts about values are lemmas; methods are tied
to them.

| file | what it holds |
|---|---|
| `MemoryRanges.dfy` | what MMIO dispatch is for, on plain sets of ranges: the specification of a run |
| `RedBlackTree.dfy` | the red-black tree of ranges: rotations, insertion, removal, search, height |
| `MmioDispatch.dfy` | main tree, fallback tree and lookup cache; every run refines the sets |
| `AhciScatter.dfy` | scatter/gather passes over a PRDT (the AHCI physical region descriptor table) |
| `AhciCommands.dfy` | the commands of an AHCI disk port and the requests they lead to |
| `AhciState.dfy` | an AHCI port at one moment, what each event does to it, and what every event keeps |
| `AhciLoop.dfy` | how the issue loop of a port ends: at rest, in a failing assertion, or never |
| `AhciHistory.dfy` | whole histories of a port, and what the requests of one command move |
| `AhciPort.dfy` | the command engine of an AHCI port: lists, registers and loops, updated in place |
| `AhciReports.dfy` | what a guest sees of its commands: status, the bits of its slots, what stops issuing |
| `IntxDelivery.dfy` | legacy interrupts: device states, PIRQ router pins, I/O APIC pins, and the calls made |
| `IrqRouting.dfy` | assignment of INTx pins, router pins, ISA IRQs and I/O APIC pins |
| `Interception.dfy` | the ranges that PCI functions register, on top of MMIO dispatch and the port table |
| `PciBars.dfy` | BAR registers, decoding, and which accesses reach which BAR |
| `PciPlacement.dfy` | where a BAR goes when a guest writes its registers |
| `PciResources.dfy` | handing out BAR addresses from the pools, bus by bus |
| `PciCapabilities.dfy` | the capability list under additions and guest writes |
| `PciReadBack.dfy` | what a guest reads back of what it wrote to configuration space |
| `IoPorts.dfy` | the 64K table of port handlers |
| `EventLoop.dfy` | the event loop with deferred deletion |
| `EventDelivery.dfy` | from adding an event to its callback |
| `ConfigBytes.dfy`, `Octets.dfy`, `Powers.dfy`, `Queues.dfy`, `Options.dfy` | shared definitions |

Verify with `dafny verify dfyconfig.toml`.

## Main results

* **Red-black tree.** `Insert` and `Remove` keep order, mirrored parent/child links, "no red node has a red child" and
  equal black heights. `Remove` takes out exactly the node given and relinks the others. `Insert` adds exactly the new
  node, or finds an overlapping one and changes nothing. A tree of n nodes is at most 2 lg(n + 1) high.
* **MMIO dispatch.** For every history of registrations, removals and accesses, the two trees with their cache give the
  results that plain sets of disjoint ranges give: the one covering range of the main set, else of the fallback set,
  else "not found". Those results are determined by the history alone. The cache always holds null or a live node of
  the main tree.
* **AHCI scatter/gather.** A pass over a PRDT fails its assertion exactly when a full vector holds less than a sector.
  Otherwise its vector is determined, has at most 33 entries, and names exactly the bytes of the PRDT that the pass is
  about. The requests of a command, one for each pass, hand the backend the bytes of the PRDT and of the disk exactly
  once and in order. Every pass but the last ends on a sector, and a chain that is not cut short reaches the full length
  exactly when the PRDT has room for it.
* **AHCI port.** Any history of register writes, changes of guest memory, completions, cancellations and turns of the
  issue loop, with any tables, also when the table of a command in flight is changed. The free and busy lists partition
  the request pool and `pending` is exactly the set of busy slots, so a free request is always found. Nothing issuable
  waits unless the loop runs. Until the first override, reset or change of a table in flight the port is disciplined: at
  most one non-queued command is in flight, with BUSY and its issue bit set. The history stops exactly where a pass
  fails its assertion or a read leaves its buffer.
* **AHCI commands.** Byte by byte, a command names any first sector below 2^48 (2^28 in the short form) and any count.
  At every moment of every history, whatever commands run in between, the requests started for a read or write hand the
  backend the bytes of those sectors once and in order, and read or write as the command says; those of a trim command
  delete the non-empty stretches of its list. This holds as long as its table stays as it was.
* **AHCI reports.** In every history, a completion that ends its command shows an error exactly if there was one, and
  clears the bit of its slot exactly if there was none. A bit that was set and is clear later was cleared in between
  by acceptance, success, a control FIS, a withdrawal, a reset or a stop; issuing stops only on an error that the guest
  can hear.
* **AHCI issue loop.** What waits to be issued decides before the first turn which of three things happens. The loop
  ends with nothing left to issue, or it fails the sector assertion, or it runs for ever.
* **Legacy interrupts.** Every run is given moment by moment, with the calls of each event. Over every interleaving of
  device calls, flag changes, updates and router writes, the net calls on every PIC line and every I/O APIC pin equal
  the number of pins and devices that drive it, at every moment. Calls are only added and the wiring stays. Once updates
  have caught up, a wire is driven exactly when its device asks for it and it is permitted.
* **PCI configuration space.** After every BAR or command-register write the ranges registered with MMIO dispatch and
  the port table are exactly the decoded BARs. A BAR is where the last writes to its registers put it: at the greatest
  multiple of its size that is not above the value written, half by half. An access there reaches that BAR's handler.
  BAR registers show the decoded address, and sizing reads back the size. BARs from the pools are handed out aligned,
  disjoint and inside the windows of their buses, up to the first request that no aligned block can meet.
* **Capabilities.** The capability list survives every guest write, so the walk over it terminates and finds the
  capability meant. Every byte of a write reads back as written but for the read-only positions, which are listed. Over
  any history the read-only bits of a control word and the flags kept of it stay right but for one kind of write.
* **Interrupt routing.** Pins are spread evenly and only over IRQs that are permitted and not reserved; an assignment
  that was made stays. The start-up stops exactly at the first step whose assertion fails.
* **Event loop.** Every run is given state by state. An event that is alone on its descriptor is registered by the next
  pass and its calls, stays registered until its descriptor is closed, an event of it is deleted or the loop ends, and
  gets its callback in every round in which the descriptor is among the first 64 that are reported. No callback is ever
  made for a freed event, no freed event is registered when the loop waits, and the program gives up exactly when 64 or
  more events on the change list need a kernel call.

## Assumptions

* Where the source takes a lock, the locked section is one atomic step.
* MMIO ranges are non-empty and do not wrap past 2^64. Runs start from one initialisation with an empty cache.
* The request pool of an AHCI port has at least as many entries as there are slots (71 against 32,
  `hw/platform/block_if.c:918-921`).
* A disk sector is small enough (below 32K) for the length of a command to fit 31 bits.
* A BAR is registered with enough memory at hand. Sizes of 2^63 and more are excluded (`PciResources.AllocSound` says
  what the limit check does there), and the base that a caller wants for a BAR of 4GB is a physical address, at most
  2^62.
* The flags a device keeps of MSI and MSI-X speak of one capability each: it has at most one of each kind.
* The kernel keeps one registration per descriptor, closing a descriptor drops it, and callers delete only events that
  have not been freed.

## Where the code falls short of a plausible claim

* A registration whose base is already covered is dropped and still reports success (`core/mem.c:214-220`).
  `MemoryRanges.DroppedWithSuccess` shows one, and `MemoryRanges.SuccessMeansRegistered` says exactly when success
  means that the range is registered.
* The limit check of the pool allocator is sound for every power-of-two size but 2^63, where the sum wraps
  (`PciResources.AllocSound`).
* The capabilities pointer at 0x34 is an ordinary writable byte: `PciCapabilities.CapPointerCleared` clears it, and
  `PciCapabilities.CapPointerKept` says exactly when a write keeps it. The walk starts at 0x40 and does not use it.
* A one-byte write to the message control word of MSI or MSI-X passes the mask by (`hw/pci/core.c:878`, `:905`). It can
  change read-only bits (`PciCapabilities.SixtyFourBitFlagCleared`), and it changes enable bits without the flags the
  device keeps of them. `PciCapabilities.ControlKept` and `PciCapabilities.FlagsStayInStep` say exactly when a guest
  write does neither, and `PciCapabilities.HistoryKeepsControl` and `PciCapabilities.HistoryKeepsEnables` what follows
  for histories.
* The issue loop of an AHCI port can spin for ever (`hw/pci/ahci.c:1857-1867`): a slot whose FIS is not host-to-device,
  or whose command is refused while FIS reception is off, stays in the list and does not stop the loop.
  `AhciPort.SpinningPort` leads from a port after reset to such a loop, `AhciLoop.NeverEnds` says that it never ends,
  and `AhciPort.Port.HandlePort` that every other loop does.
* A PRDT with 33 entries that hold less than a sector meets an assertion (`hw/pci/ahci.c:637`):
  `AhciScatter.SparseTableFails` shows one, and `AhciScatter.BuildIov` says exactly when.
* The command table of a trim command is read again for every entry of its list, and its length then is not checked
  against the buffer (`hw/pci/ahci.c:816-854`). `AhciState.LongListStrays` gives a change of the table after which the
  search leaves the buffer, `AhciCommands.ScanStrays` says exactly when a search does, and `AhciHistory.NoStrayRead`
  that none does before a table in flight is changed.
* A 64-bit BAR of 4GB goes where its caller wants it, which no pool keeps free (`hw/pci/core.c:605-606`).
  `PciResources.ChosenTwice` hands out one place twice, and `PciResources.ChosenBeside` says exactly when such a BAR
  stays clear of the pools.
* Two events may share a descriptor, one for input and one for output, but the kernel keeps one registration
  (`core/mevent.c:387-392`). The second one is not registered (`EventDelivery.CallRegisters` says exactly when an
  addition is), and deleting either takes the descriptor out: `EventDelivery.SiblingDropped` shows it, and
  `EventDelivery.RegistrationLeaves` says exactly when a registration goes.
* The window fields of a bus are narrower than the bases behind them (`hw/pci/core.c:1121-1133`).
  `PciResources.WindowCut` loses the upper end of an I/O window, and `PciResources.WindowShown` says exactly when the
  fields show the window.

## Model

| member | source | states |
|---|---|---|
| `RedBlackTree.Tree.LeftRelink` | include/tree.h:342-361 | node by node, every link after a left rotation, root and parents included |
| `RedBlackTree.Tree.RightRelink` | include/tree.h:363-382 | node by node, every link after a right rotation |
| `RedBlackTree.Tree.RotateLeft` | include/tree.h:342-361 | a left rotation keeps the in-order sequence and mirrored parent links |
| `RedBlackTree.Tree.RotateRight` | include/tree.h:363-382 | a right rotation keeps the in-order sequence and mirrored parent links |
| `RedBlackTree.Tree.LiftLeft` | include/tree.h:453-460 | with the parent on the left and a black uncle the red pair is resolved and balance kept |
| `RedBlackTree.Tree.LiftRight` | include/tree.h:469-476 | the same with the parent on the right |
| `RedBlackTree.Tree.RecolorUncle` | include/tree.h:447-452 | with a red uncle the only fault moves to the grandparent |
| `RedBlackTree.Tree.InsertColor` | include/tree.h:437-480 | a tree whose only fault is a red pair at the new node, or a red root, ends with all colour rules and a black root |
| `RedBlackTree.Tree.FixLeft` | include/tree.h:490-527 | one turn with a black-height gap on the left keeps every other invariant and moves the gap up or closes it |
| `RedBlackTree.Tree.FixRight` | include/tree.h:528-565 | the same with the gap on the right |
| `RedBlackTree.Tree.RemoveColor` | include/tree.h:482-570 | a tree one black node short below one place ends balanced, with no red pair and a black root |
| `RedBlackTree.Tree.Detach` | include/tree.h:622-633 | unlinking a node with at most one child leaves the order minus that node, and at most a gap in its place |
| `RedBlackTree.Tree.Successor` | include/tree.h:584-586 | the walk ends at the next node in order, which has no left child |
| `RedBlackTree.Tree.RemoveInner` | include/tree.h:582-621 | a node with two children leaves, its successor stands in for it, and nobody else moves in the order |
| `RedBlackTree.Tree.Remove` | include/tree.h:572-638 | the node set and the order lose exactly the given node; search order, links, colours and balance hold again |
| `RedBlackTree.Tree.Find` | include/tree.h:672-689 | a result overlaps the key; none means that no node anywhere in the tree does |
| `RedBlackTree.Tree.Descend` | include/tree.h:648-658 | the descent meets an overlapping node whenever one exists, else ends at the slot that keeps the order |
| `RedBlackTree.Tree.Insert` | include/tree.h:640-670 | adds exactly the new node when nothing overlaps, changes nothing otherwise, and keeps every invariant |
| `RedBlackTree.Tree.HeightBelow` | include/tree.h:51-59 | a subtree is at most twice its black height high |
| `RedBlackTree.Tree.SizeAbove` | include/tree.h:51-59 | a subtree of black height b has at least 2^b - 1 nodes |
| `RedBlackTree.Tree.HeightIsLogarithmic` | include/tree.h:51-59 | 2^height is at most (n + 1)^2: the height is at most 2 lg(n + 1) |
| `MemoryRanges.CoverIsUnique` | core/mem.c:69-77 | among disjoint ranges at most one covers an address |
| `MemoryRanges.SuccessMeansRegistered` | core/mem.c:214-220 | success means registered if and only if no other range covered the base |
| `MemoryRanges.DroppedWithSuccess` | core/mem.c:214-220 | a range dropped under one that covers its base, with success reported |
| `MemoryRanges.StepKeepsWorld` | core/mem.c:199-263 | registered ranges stay pairwise disjoint and proper under every event |
| `MemoryRanges.StepIsDetermined` | core/mem.c:159-263 | an event has one possible result and one possible outcome |
| `MemoryRanges.RunIsDetermined` | core/mem.c:159-263 | the events alone determine every result of a run, so the cache cannot show |
| `MmioDispatch.Dispatcher.Lookup` | core/mem.c:79-95 | finds the covering range of a tree, or nothing exactly when none covers the address |
| `MmioDispatch.Dispatcher.EmulateMem` | core/mem.c:159-197 | with the cache, the answer is that of cache-free lookup; the cache stays a live main-tree node |
| `MmioDispatch.Dispatcher.RegisterIn` | core/mem.c:199-223 | dropped with success when the base is covered, refused on other overlap or lack of memory, else added |
| `MmioDispatch.Dispatcher.UnregisterMem` | core/mem.c:237-263 | removes exactly the range meant, fails when none covers the base, aborts on a mismatch, and never leaves the cache dangling |
| `MmioDispatch.Dispatcher.ViewOk` | core/mem.c:199-223 | in every valid state both trees hold pairwise disjoint ranges |
| `MmioDispatch.Dispatcher.Run` | core/mem.c:159-271 | every history of register, unregister and access refines the same history on plain sets |
| `AhciScatter.VectorBytes` | hw/pci/ahci.c:609-631 | the vector for a stretch of a PRDT names exactly the bytes of that stretch, in order |
| `AhciScatter.FillIov` | hw/pci/ahci.c:609-631 | the copy loop leaves exactly the vector of the stretch from `done` on, up to the length, the vector's end or the table's end |
| `AhciScatter.CutVector` | hw/pci/ahci.c:638-645 | taking bytes off the end of a vector gives the vector of the shorter stretch |
| `AhciScatter.TrimIov` | hw/pci/ahci.c:638-645 | the loop takes exactly the surplus bytes off the end and leaves the rest as it was |
| `AhciScatter.DensePassOk` | hw/pci/ahci.c:633-637 | a PRDT with a sector in any 32 consecutive entries never meets the assertion |
| `AhciScatter.SparseTableFails` | hw/pci/ahci.c:633-637 | 34 entries of one byte meet the assertion in the first pass of a one-sector transfer |
| `AhciScatter.PassMoves` | hw/pci/ahci.c:601-652 | the request of a pass names the bytes of the PRDT from `done` up to the new `done`, in at most 33 entries |
| `AhciScatter.BuildIov` | hw/pci/ahci.c:601-652 | exactly when no full vector from this point holds less than a sector, the array holds the vector of the pass, in whole sectors if more follows |
| `AhciScatter.OnePass` | hw/pci/ahci.c:601-652 | the request of a pass, with its vector, its length and its disk offset behind the passes before it |
| `AhciScatter.ChainCovers` | hw/pci/ahci.c:1916-1925 | the requests of any number of passes hand over the bytes of the PRDT and of the disk up to `done`, once and in order |
| `AhciScatter.ChainAligned` | hw/pci/ahci.c:633-652 | every pass but the last ends on a sector, before the end of the transfer |
| `AhciScatter.ChainReaches` | hw/pci/ahci.c:1916-1925 | a chain that is not cut short reaches the full length if and only if the PRDT has room for it |
| `AhciScatter.Transfer` | hw/pci/ahci.c:1916-1925 | one request for each pass, and an end exactly where nothing is left, the backend fails or a pass fails its assertion |
| `AhciCommands.ScanMeans` | hw/pci/ahci.c:826-854 | inside a full list the search ends behind the first non-empty entry, or at the end if there is none |
| `AhciCommands.ScanStrays` | hw/pci/ahci.c:826-854 | the search leaves the buffer if and only if every entry left in it is empty and none is the last of the list |
| `AhciCommands.CommandMeans` | hw/pci/ahci.c:1651-1790 | by command code: which commands read, write, flush and trim, which are queued, and which succeed or fail at once |
| `AhciCommands.AnySectors` | hw/pci/ahci.c:677-706 | for every first sector and count in range there is a FIS that names them |
| `AhciCommands.NamesMeans` | hw/pci/ahci.c:677-708 | a FIS names, by the place value of its bytes, exactly the first sector and count that the port works out |
| `AhciCommands.ExtentMeans` | hw/pci/ahci.c:827-835 | the same for an entry of a trim list |
| `AhciState.FreeRequest` | hw/pci/ahci.c:711-714 | a slot that is not in flight always finds a free request |
| `AhciState.PullKeepsPool` | hw/pci/ahci.c:711-728 | taking a request keeps the partition of the pool and `pending` in step |
| `AhciState.ReturnKeepsPool` | hw/pci/ahci.c:1906-1914 | returning a request keeps the partition of the pool and `pending` in step |
| `AhciState.IssueFindsRequest` | hw/pci/ahci.c:711-714 | the issue loop finds a free request for every slot it deals with |
| `AhciState.NextFindsRequest` | hw/pci/ahci.c:1919-1925 | a completion finds a free request for the next pass of its command |
| `AhciState.EventKeepsValid` | hw/pci/ahci.c:1847-2145 | every event keeps the pool partitioned, `pending` exact and nothing issuable waiting outside the loop |
| `AhciState.EventKeepsDiscipline` | hw/pci/ahci.c:1847-2145 | every event but an override keeps at most one non-queued command in flight, with BUSY and its issue bit set |
| `AhciState.EventKeepsStable` | hw/pci/ahci.c:1847-2145 | every event but a change of a table in flight keeps requests as their commands make them |
| `AhciState.StableStaysInside` | hw/pci/ahci.c:826-854 | the next search of a trim command whose table stayed as it was stays inside the buffer |
| `AhciState.LongListStrays` | hw/pci/ahci.c:816-854 | a changed table after which the search leaves the buffer |
| `AhciState.CancelMeans` | hw/pci/ahci.c:484-515 | exactly the requests the backend withdraws leave the busy list, and exactly their bits leave the registers |
| `AhciLoop.HandledFate` | hw/pci/ahci.c:1792-1845 | a slot that is dealt with leaves the list, stops the loop or stays as it was, by its table and FIS reception |
| `AhciLoop.TurnKeepsOutcome` | hw/pci/ahci.c:1857-1867 | no turn changes which of the three ends the loop comes to |
| `AhciLoop.FailureWasDue` | hw/pci/ahci.c:1857-1867 | a turn fails its assertion only in a loop that was bound to fail |
| `AhciLoop.NeverEnds` | hw/pci/ahci.c:1857-1867 | a loop bound to spin is still running, with no failed turn, after any number of turns |
| `AhciLoop.TurnLowersRank` | hw/pci/ahci.c:1857-1867 | every turn of any other loop comes nearer to its end |
| `AhciLoop.NothingSticks` | hw/pci/ahci.c:1829-1832 | with FIS reception on and host-to-device FISes only, no loop spins |
| `AhciHistory.TracedValid` | hw/pci/ahci.c:1847-2145 | every state of every history is valid |
| `AhciHistory.TracedDisciplined` | hw/pci/ahci.c:1847-2145 | until the first override at most one command in flight is not queued |
| `AhciHistory.NoStrayRead` | hw/pci/ahci.c:826-854 | until a table in flight is changed, no search of a trim list leaves its buffer |
| `AhciHistory.LaunchShows` | hw/pci/ahci.c:711-728 | the request that an event starts is at the head of the busy list afterwards |
| `AhciHistory.StepAccounted` | hw/pci/ahci.c:1847-1946 | what is in flight after an event was in flight before, or is the request the event started |
| `AhciHistory.TracedRecorded` | hw/pci/ahci.c:1916-1925 | at every moment, a request in flight is the last of a record in which each request follows from the one before |
| `AhciHistory.CommandCovers` | hw/pci/ahci.c:654-738 | at every moment, the requests started for a read or write hand over the bytes of the sectors its FIS names, once and in order, with the right operation, and all of them with the last pass if and only if the PRDT has room |
| `AhciHistory.TrimCovers` | hw/pci/ahci.c:802-887 | at every moment, the requests started for a trim command delete the non-empty stretches that its list names so far, in order |
| `AhciPort.Port.Start` | hw/pci/ahci.c:711-728 | a request goes from the head of the free list to the head of the busy list, and nothing else changes but `pending` |
| `AhciPort.Port.HandleRw` | hw/pci/ahci.c:654-738 | the request of the pass, with vector and offset, goes in flight; a queued command is accepted on its first pass only |
| `AhciPort.Port.NextTrimEntry` | hw/pci/ahci.c:826-854 | the search loop finds what the list says: the next non-empty entry, the end, or no end inside the buffer |
| `AhciPort.Port.HandleTrim` | hw/pci/ahci.c:802-887 | the next entry goes in flight or the command ends, and `alive` says exactly whether the search stayed inside |
| `AhciPort.Port.HandleCmd` | hw/pci/ahci.c:1651-1790 | each kind of command ends or goes in flight as it should, with the whole state given |
| `AhciPort.Port.HandleSlot` | hw/pci/ahci.c:1792-1845 | a slot is dealt with under its own table: a command, a control FIS, or another FIS, which changes nothing |
| `AhciPort.Port.Turn` | hw/pci/ahci.c:1857-1867 | one turn of the loop from any state, or its end exactly when nothing is issuable, the device is busy or it waits to be cleared |
| `AhciPort.Port.HandlePort` | hw/pci/ahci.c:1847-1868 | a loop that does not spin ends, turn by turn: with nothing issuable, or in a failing assertion, as decided before its first turn |
| `AhciPort.Port.Complete` | hw/pci/ahci.c:1874-1946 | a completion ends or continues its command with the state that `AhciReports.CompletionReports` is about, and the program fails exactly where the next pass or search does |
| `AhciPort.Port.Stop` | hw/pci/ahci.c:474-518 | stopping withdraws what can be withdrawn and clears the registers once nothing is in flight |
| `AhciPort.Port.WriteCmd` | hw/pci/ahci.c:2073-2116 | starting, stopping, FIS reception and override, with the whole state given |
| `AhciPort.Port.Step` | hw/pci/ahci.c:2041-2150 | each event has exactly its effect, or none if it cannot happen now |
| `AhciPort.Port.Run` | hw/pci/ahci.c:1847-2145 | any history, state by state, up to exactly the event the program does not survive |
| `AhciPort.SpinningPort` | hw/pci/ahci.c:1857-1867 | four events that lead from a port after reset into a loop that spins |
| `AhciReports.CompletionReports` | hw/pci/ahci.c:1927-1941 | an ending completion shows an error, keeps the bit of its slot and stops issuing exactly as it should; any other shows nothing |
| `AhciReports.TurnAnswers` | hw/pci/ahci.c:1792-1845 | a command that goes in flight keeps its bit, or loses it if queued; one answered at once loses it exactly if it did not fail |
| `AhciReports.StopTakes` | hw/pci/ahci.c:474-518 | a stopped port loses the bits of what is withdrawn, and all bits only when nothing is left in flight |
| `AhciReports.CommandWritten` | hw/pci/ahci.c:2073-2116 | what PxCMD leaves in the control bits, the status and the pool |
| `AhciReports.IssueWritten` | hw/pci/ahci.c:2133-2139 | PxCI and PxSACT set exactly the bits written |
| `AhciReports.ResetWritten` | hw/pci/ahci.c:521-570 | a reset stops the port, drops queued commands and leaves the device idle, with requests in flight accounted for |
| `AhciReports.EventAccounts` | hw/pci/ahci.c:1847-2145 | the bits of a slot are set and cleared, and issuing is stopped, only for stated reasons |
| `AhciReports.WhyCleared` | hw/pci/ahci.c:1847-2145 | between two moments of a run, an issue bit that went was cleared for one of them |
| `AhciReports.WhyReleased` | hw/pci/ahci.c:1847-2145 | the same for the bits of queued commands |
| `AhciReports.RunReports` | hw/pci/ahci.c:1874-1946 | in every run, each completion is reported as it went |
| `IntxDelivery.PinStep` | hw/pci/irq.c:152-192 | active_count stays the number of ASSERTED devices on the pin and never goes negative |
| `IntxDelivery.RaiseConserves` | hw/pci/irq.c:152-171 | an assert adds one call to exactly the lines the device newly drives |
| `IntxDelivery.LowerConserves` | hw/pci/irq.c:173-192 | a deassert takes one call from exactly the lines the device no longer drives |
| `IntxDelivery.RewriteConserves` | hw/pci/irq.c:92-108 | a router write moves an active pin's call from the old line to the new one |
| `IntxDelivery.FlagConserves` | hw/pci/core.c:869-931 | a flag change alone touches no wire |
| `IntxDelivery.RouterTakes` | hw/pci/irq.c:92-108 | a register keeps the disable bit and the IRQ of the value written, and other pins stay |
| `IntxDelivery.EventKeepsTracked` | hw/pci/core.c:1566-1608 | every event keeps requests remembered, and devices settled unless they are owed an update |
| `IntxDelivery.RunExtends` | hw/pci/core.c:1566-1608 | between any two moments calls are only added, the wiring stays, and requests follow the devices' own calls |
| `IntxDelivery.WireDriven` | hw/pci/core.c:1493-1501 | away from outstanding updates a wire is driven exactly when requested and permitted, and held back exactly when requested and not permitted |
| `IntxDelivery.AssertedAreRequests` | hw/pci/core.c:1566-1608 | the ASSERTED devices on an I/O APIC pin are those that request it and may have it, none lost or counted twice |
| `IntxDelivery.Fabric.LintrAssert` | hw/pci/core.c:1566-1580 | the request is remembered once, as ASSERTED if permitted and PENDING if not |
| `IntxDelivery.Fabric.LintrDeassert` | hw/pci/core.c:1582-1594 | the request is gone, and with it the wire |
| `IntxDelivery.Fabric.LintrUpdate` | hw/pci/core.c:1596-1608 | the device's state follows its request and its flags |
| `IntxDelivery.Fabric.PirqWrite` | hw/pci/irq.c:92-108 | the register takes the masked value and the lines follow |
| `IntxDelivery.Fabric.Run` | hw/pci/core.c:1566-1608 | any interleaving, moment by moment and with exactly the calls of each event; at every moment net calls equal drivers on every line |
| `IrqRouting.Least` | hw/pci/irq.c:201-209 | the first entry with the least count |
| `IrqRouting.LeastIrq` | hw/pci/irq.c:214-224 | the first least-used IRQ that is not disabled, or none exactly when all are |
| `IrqRouting.BumpLeast` | hw/pci/irq.c:201-210 | raising a least count keeps all counts within one of each other |
| `IrqRouting.Router.AllocPin` | hw/pci/irq.c:194-230 | the first least-used pin, use counts within one, routed to the first least-used permitted IRQ nobody reserved if it had none |
| `IrqRouting.Router.LintrRequest` | hw/pci/core.c:1503-1530 | the first least-used INTx pin of the slot, with the slot's pin counts within one |
| `IrqRouting.Router.LintrRoute` | hw/pci/core.c:1532-1564 | a router pin in 1..8 and an I/O APIC pin in the PCI range, each only if none was assigned |
| `IrqRouting.RoutesStay` | hw/pci/core.c:1532-1564 | assignments, routes and reservations that were made stay for the rest of any run |
| `IrqRouting.Router.Boot` | hw/pci/core.c:1503-1564 | any order of reservations, uses, requests and routings, step by step, up to exactly the first step whose assertion fails |
| `PciBars.IoWrite` | hw/pci/core.c:1864-1875 | an I/O BAR's new address is a multiple of its size inside 64K |
| `PciBars.Mem32Write` | hw/pci/core.c:1876-1883 | a 32-bit BAR's new address is a multiple of its size inside 4GB |
| `PciBars.Mem64Low` | hw/pci/core.c:1884-1892 | a low-half write leaves a multiple of the size |
| `PciBars.Mem64High` | hw/pci/core.c:1893-1902 | a high-half write leaves a multiple of the size |
| `PciBars.SizingReadsSize` | hw/pci/core.c:1851-1906 | all ones written and read back give the size (section 6.2.5.1 of PCI Local Bus Specification 3.0) |
| `PciBars.WriteKeepsLayout` | hw/pci/core.c:1851-1906 | after any dword to any BAR register, addresses are aligned and the registers show them |
| `PciBars.AttachKeepsLayout` | hw/pci/core.c:637-649 | a BAR handed out at start-up is sound and its registers show it |
| `PciBars.EnablesFollowWrite` | hw/pci/core.c:1703-1723 | the decode bits follow a write to the first command byte and nothing else; status is read only |
| `PciBars.ToggleSpace` | hw/pci/core.c:1732-1759 | one BAR's turn changes exactly its own range when its decoding changes |
| `PciBars.BarsStay` | hw/pci/core.c:1848-1914 | no run of writes changes kind or size of a BAR |
| `PciBars.ToggleTurn` | hw/pci/core.c:1732-1759 | a BAR's turn adds a range clear of all others, or takes out a range that is registered |
| `PciBars.AttachKeepsSound` | hw/pci/core.c:637-653 | with a new BAR the registered ranges are still exactly the decoded BARs |
| `PciBars.Device.UpdateAddress` | hw/pci/core.c:527-559 | a moved BAR is registered at its new address only, if decoded; others are untouched |
| `PciBars.Device.WriteBar` | hw/pci/core.c:1851-1906 | registered ranges are again exactly the decoded BARs at their current addresses, which are those that `PciPlacement.WriteLands` is about |
| `PciBars.Device.CmdStsWrite` | hw/pci/core.c:1703-1765 | the loop leaves exactly the BARs of the decoded spaces registered |
| `PciBars.Device.ReachMem` | hw/pci/core.c:372-388 | an access inside a decoded memory BAR is answered by the trees with this function, that BAR's index and bounds, as its handler asserts |
| `PciBars.Device.FindIoBar` | hw/pci/core.c:355-370 | the handler's search finds an I/O BAR that holds the whole access, or none exactly when there is none |
| `PciBars.Device.ReachIo` | hw/pci/core.c:346-370 | an access inside a decoded I/O BAR finds the table entry of this function, whose search finds that BAR and no other |
| `PciBars.Device.Run` | hw/pci/core.c:1848-1914 | any sequence of BAR and command writes, write by write, up to exactly the first that makes ranges collide; registered ranges are exactly the decoded BARs throughout |
| `PciPlacement.WriteLands` | hw/pci/core.c:1851-1906 | the part of the address that the register decodes becomes the greatest multiple of the size not above the value written; everything else stays |
| `PciPlacement.LastWrite` | hw/pci/core.c:1851-1906 | at every moment of a run, a BAR is where the last write to its register put it |
| `PciPlacement.LastHighWrite` | hw/pci/core.c:1893-1902 | the same for the upper half of a 64-bit BAR |
| `PciPlacement.PlacedAt` | hw/pci/core.c:1884-1902 | writing both halves of an aligned address, in either order, leaves a 64-bit BAR there |
| `PciPlacement.PlacedBelow` | hw/pci/core.c:1864-1883 | the same for I/O and 32-bit BARs |
| `PciPlacement.MoveAndReach` | hw/pci/core.c:1884-1902 | a moved BAR is reached at its new place, unless the move makes ranges collide |
| `Interception.MemImageAdd` | core/mem.c:199-223 | a range clear of the others is registered, one with its base taken is dropped with success, any other is refused |
| `Interception.MemImageRemove` | core/mem.c:237-263 | a registered range is found under its base and removed |
| `Interception.Bus.RegisterMem` | hw/pci/core.c:465-477 | any range: registered, dropped or refused, and main tree and registered ranges stay in step |
| `Interception.Bus.UnregisterMem` | hw/pci/core.c:465-479 | the removal succeeds and takes out exactly the range |
| `Interception.Bus.RegisterIo` | hw/pci/core.c:452-461 | any range: registered exactly when it meets no other, and port table and registered ranges stay in step |
| `Interception.Bus.UnregisterIo` | hw/pci/core.c:452-463 | exactly the range goes back to the default handler |
| `Interception.Bus.AccessMem` | core/mem.c:159-197 | the answer is that of the trees, and inside a registered range it is that range |
| `Interception.Bus.AccessIo` | core/inout.c:95-129 | the entry is that of the table: inside a registered range the handler of its function, elsewhere the default one |
| `PciResources.BarSizeLeast` | hw/pci/core.c:570-580 | the least power of two that holds the request and the minimum |
| `PciResources.AllocInside` | hw/pci/core.c:415-431 | a block at or above the base, aligned and inside the limit, exactly when one fits |
| `PciResources.AllocWraps` | hw/pci/core.c:423-430 | a size of 2^63 passes the limit check because the sum wraps |
| `PciResources.AllocSound` | hw/pci/core.c:415-431 | for powers of two the limit holds if and only if the size is not 2^63 |
| `PciResources.TakeKeepsPlan` | hw/pci/core.c:631-639 | handing out a block keeps blocks disjoint and inside their bus |
| `PciResources.EndKeepsPlan` | hw/pci/core.c:1116-1133 | closing a bus keeps windows disjoint and its blocks inside its window |
| `PciResources.BlocksApart` | hw/pci/core.c:561-654 | no two BARs of one address space overlap, across all pools, if those of 4GB lie beside the pools and at places of their own |
| `PciResources.RoomMeans` | hw/pci/core.c:415-431 | a request is refused exactly when no aligned block fits, and otherwise gets the lowest one |
| `PciResources.GrantKeepsPlan` | hw/pci/core.c:631-639 | what is granted keeps the plan and makes a sound BAR |
| `PciResources.BarLies` | hw/pci/core.c:583-626 | by kind and size, the part of the address space a BAR lies in |
| `PciResources.WindowEnds` | hw/pci/core.c:1116-1133 | a window ends at the least multiple of the roundup that leaves one roundup free |
| `PciResources.ChosenBeside` | hw/pci/core.c:605-606 | a BAR of 4GB lies beside the pools if and only if its caller wants it between them |
| `PciResources.ChosenTwice` | hw/pci/core.c:605-606 | two BARs of 4GB wanted at one place get that place |
| `PciResources.WindowShown` | hw/pci/core.c:1121-1133 | the fields of a bus show its window, and hold its blocks, if and only if no bound is past their width |
| `PciResources.WindowCut` | hw/pci/core.c:1121-1133 | an I/O BAR after which the fields do not show the window |
| `PciResources.Allocator.AllocBar` | hw/pci/core.c:561-654 | the lowest aligned block of the least fitting size from the pool of its kind, or from the base its caller wants, exactly when there is one |
| `PciResources.Allocator.EndBus` | hw/pci/core.c:1116-1133 | the window of a bus starts where it began and ends behind the slop |
| `PciResources.Allocator.FillBus` | hw/pci/core.c:1101-1114 | the requests of a bus are met in order, up to exactly the first that finds no room |
| `PciResources.Allocator.InitPci` | hw/pci/core.c:1089-1134 | bus after bus, with every block and window determined, up to exactly the first request that finds no room |
| `PciCapabilities.ChainGrows` | hw/pci/core.c:657-694 | capabilities are strictly increasing and do not overlap |
| `PciCapabilities.ExtendedSpells` | hw/pci/core.c:677-692 | the bytes after an addition spell out the list with the new capability at its end |
| `PciCapabilities.NextPointer` | hw/pci/core.c:978-986 | a next pointer is zero in the last capability only, and otherwise names the following one |
| `PciCapabilities.StoreCapKeepsHeaders` | hw/pci/core.c:966-1018 | a write inside a capability changes no identifier and no next pointer |
| `PciCapabilities.CfgWriteKeepsHeaders` | hw/pci/core.c:1848-1914 | no guest write changes an identifier, a next pointer or the capability bit |
| `PciCapabilities.CapSpace.AddCapability` | hw/pci/core.c:657-694 | appended dword aligned inside 0x40..0xff exactly when it fits, its bytes in place, nothing else changed |
| `PciCapabilities.CapSpace.FindCap` | hw/pci/core.c:978-987 | the walk terminates and finds the capability that contains the offset |
| `PciCapabilities.CapSpace.CapWrite` | hw/pci/core.c:966-1018 | header bytes are read only, and a dword over them is trimmed to its upper half |
| `PciCapabilities.CapSpace.CfgWrite` | hw/pci/core.c:1769-1914 | the default write path, byte for byte, keeps the capability list |
| `PciCapabilities.CapSpace.Run` | hw/pci/core.c:657-1031 | any history, moment by moment; the list is exactly the additions that fitted, in order |
| `PciCapabilities.CapPointerKept` | hw/pci/core.c:1912-1913 | a write keeps the capabilities pointer if and only if it misses it or rewrites its value |
| `PciCapabilities.CapPointerCleared` | hw/pci/core.c:1912-1913 | a one-byte write that clears the capabilities pointer of a function with a capability |
| `PciCapabilities.MaskedWrite` | hw/pci/core.c:877-889 | a two-byte write to a control word changes its writable bits only, and the device's flags with them |
| `PciCapabilities.ControlKept` | hw/pci/core.c:869-931 | a guest write keeps the read-only bits of a control word if and only if it is not a one-byte write to it that changes one |
| `PciCapabilities.FlagsStayInStep` | hw/pci/core.c:869-931 | the flags for enable and mask stay in step with the control word if and only if no one-byte write changes those bits |
| `PciCapabilities.StepKeepsControl` | hw/pci/core.c:657-931 | an addition or write keeps the read-only bits of a control word if and only if it is not such a one-byte write |
| `PciCapabilities.StepKeepsEnables` | hw/pci/core.c:657-931 | the same for flags in step with their control word |
| `PciCapabilities.HistoryKeepsControl` | hw/pci/core.c:657-931 | between any two moments of a history without such writes the read-only bits of every control word are the same |
| `PciCapabilities.HistoryKeepsEnables` | hw/pci/core.c:657-931 | over any history without such writes flags in step stay so |
| `PciCapabilities.SixtyFourBitFlagCleared` | hw/pci/core.c:905-930 | a one-byte write that clears the read-only 64-bit flag of an MSI capability |
| `PciReadBack.CapStoreReads` | hw/pci/core.c:966-1018 | each byte of a write into a capability reads back as written, but for headers, masked control bits and read-only capabilities |
| `PciReadBack.ReadBack` | hw/pci/core.c:1848-1914 | the same over the whole default path, with command, status and BAR registers; bytes outside the write stay |
| `PciReadBack.HistoryReadsBack` | hw/pci/core.c:1848-1914 | in every history, each write that fits reads back |
| `PciReadBack.ByteStays` | hw/pci/core.c:1848-1914 | a byte stays until a write reaches it or a capability is added |
| `PciCapabilities.CapSpace.BodyWrite` | hw/pci/core.c:1004-1017 | control words are masked in two-byte writes only; other bytes of MSI, MSI-X and PCI Express are stored as written, other capabilities are read only (`PciReadBack.CapStoreReads`) |
| `IoPorts.FreeMeansApart` | core/inout.c:161-170 | a range is free in the table exactly when it meets no registered range |
| `IoPorts.TableIsDetermined` | core/inout.c:154-192 | the registered ranges alone determine the table, so removing what was added restores it |
| `IoPorts.PortTable.Claim` | core/inout.c:154-180 | succeeds exactly when the range meets no registered one; every port is served by its range or by default |
| `IoPorts.PortTable.Release` | core/inout.c:182-192 | the range is gone and every port is served by its range or by default |
| `IoPorts.PortTable.EmulateInout` | core/inout.c:95-129 | an access reaches the table entry of its port, and is made exactly if direction and strictness permit |
| `EventLoop.FreeKeepsKernel` | core/mevent.c:171-189 | an event is freed only when its registration is gone or its removal is on the list |
| `EventLoop.ApplyKeepsKernel` | core/mevent.c:387-392 | each kernel call keeps freed events covered by a removal still to come |
| `EventLoop.Loop.Wait` | core/mevent.c:397-399 | nothing freed is registered when the loop waits, and nothing freed is reported |
| `EventLoop.CallsCounted` | core/mevent.c:170-194 | a pass lists one kernel call for every event that is not closed |
| `EventLoop.UnderwayStep` | core/mevent.c:170-194 | calls listed, events kept and descriptors closed so far, and those to come, always add up to those of the whole pass |
| `EventLoop.CallIsLive` | core/mevent.c:220-232 | the event whose callback runs has not been freed |
| `EventLoop.NoCallAfterFree` | core/mevent.c:341-412 | once freed, an event gets no callback at any later time of any run |
| `EventLoop.PassFreesDeleted` | core/mevent.c:188-189 | a deleted event is freed by the next pass |
| `EventLoop.Loop.Add` | core/mevent.c:234-284 | a new event exactly when descriptor and type are valid and not watched yet |
| `EventLoop.Loop.DeleteEvent` | core/mevent.c:298-321 | the event is marked and queued, not freed |
| `EventLoop.Loop.Build` | core/mevent.c:160-199 | the pass frees exactly the deleted events, moves the rest in order and lists the calls that `EventDelivery.AddedIsRegistered` is about; it gives up exactly when 64 or more events that are not closed are on the list |
| `EventLoop.Loop.Apply` | core/mevent.c:387-392 | once all calls are made, everything registered is an allocated event of its descriptor |
| `EventLoop.Loop.Destroy` | core/mevent.c:201-218 | exactly the events on the global list are freed; those on the change list stay |
| `EventLoop.Loop.Run` | core/mevent.c:341-412 | any interleaving of adds, deletes and closes with the loop, action by action: every state valid, the callbacks those of the states, an end exactly where the program gives up |
| `EventDelivery.AddedIsAlone` | core/mevent.c:234-284 | an event added on a descriptor nobody knows waits alone on the change list |
| `EventDelivery.StaysAlone` | core/mevent.c:234-321 | until the next pass it stays so, if it is spared and nothing else is added on its descriptor |
| `EventDelivery.AddedIsRegistered` | core/mevent.c:160-199 | after the next pass and its calls, such an event is registered |
| `EventDelivery.CallRegisters` | core/mevent.c:387-392 | a working addition registers its event if and only if no other one holds the descriptor |
| `EventDelivery.RegistrationLeaves` | core/mevent.c:160-199 | a registration goes if and only if the descriptor is closed, a removal is made or the loop is torn down, and is never replaced |
| `EventDelivery.DeletedIsClosed` | core/mevent.c:170-189 | an event deleted with its descriptor is freed, and the descriptor closed, by the next pass |
| `EventDelivery.StaysRegistered` | core/mevent.c:341-412 | an event stays registered until its descriptor is closed, an event of it deleted or the loop ends |
| `EventDelivery.AddedIsHeld` | core/mevent.c:341-412 | an added event is registered from the next round on, as long as it is spared |
| `EventDelivery.SiblingDropped` | core/mevent.c:145-151 | deleting one of two events of a descriptor takes the other out of the kernel's set |
| `EventDelivery.ReadyIsCalled` | core/mevent.c:220-232 | a registered event whose descriptor is reported gets its callback in that round |
| `EventDelivery.AddedIsCalled` | core/mevent.c:341-412 | from the change list to the callback, in every later round in which the descriptor is ready |

## Left out

- MMIO: a run goes on after a failed assertion in the model (with nothing changed), where the program stops; mutual exclusion is taken from the lock, so two accesses under the shared lock do not interleave.
- MMIO: the handlers themselves, their return values and access sizes.
- AHCI: ATAPI packet commands, IDENTIFY and log contents, PRDBC (the byte count shown to the guest), interrupt status and MSI fan-out, transfer mode, the CCS field of PxCMD.
- AHCI: what the backend does with a request; it completes or withdraws requests in any order.
- AhciPort.Port.HandlePort: guest memory does not change while the loop runs; `AhciPort.Port.Run` has changes of guest memory between its turns.
- AhciHistory.CommandCovers: speaks of commands whose table stays as it was; of others only the pool results hold.
- AHCI: registers of one bit per slot are sets of slots, and the status register is a record of its bits.
- Interrupts: MSI and MSI-X messages; the pins shown in INTLINE and the ACPI tables.
- IrqRouting.Router.AllocIoapic: the round-robin counter does not wrap, because it would need 2^31 devices.
- PCI: device-specific overrides of configuration reads and writes, the header-type fix-up, extended configuration space of passthrough devices.
- PCI: what a BAR write stores enters the capability model as an arbitrary dword; `PciBars` says which.
- PciBars.Device.Run: a write that makes ranges collide ends the run; there the source drops the range or fails an assertion, as `MemoryRanges.Registers` and `IoPorts.PortTable.Claim` say of each registry.
- Interception.Bus.RegisterMem: lack of memory for the tree entry is not modelled, because the source asserts that registration succeeds.
- PciResources.Allocator.AllocBar: does not model sizes of 2^63 and more, nor a wanted base above 2^62, because neither is the place of a real BAR; `PciResources.AllocSound` says what the limit check does for such sizes.
- I/O ports: the statically linked handler list that overwrites single ports at start-up, and the value returned by the default handler.
- Event loop: the wake-up pipe, whether an event waits for input or for output, and that a freed handle may be reused by a later allocation (handles are never reused in the model).
- Behaviour across a reset of the virtual machine, where some static state is not initialised again.
- Everything else in the repository: USB, virtio back ends, passthrough, ACPI and other tables, consoles and start-up code, which would add long but easy members or wrap system calls.

# Verification models of the TERES cores

Machine-checked models of five independent pieces of this repository that hold real logic. Each
model follows its source branch by branch; the properties are theorems over all inputs, all runs
or all reachable states.

**Dual-clock FIFO** (`Bits`, `AsyncFifo`, `AsyncFifoProofs`, `AsyncFifoDevice`). A writer and a
reader, each on its own clock, exchange Gray-coded pointers through two-stage synchronisers over a
shared memory. A run is any interleaving of write edges, read edges and simultaneous edges;
a synchroniser that samples while the other side moves may capture any bitwise mix of the old and
the new pointer. The store guard is the combinational full test while the pointer guard is the
registered one, so a producer that fills the FIFO completely advances over a slot it has not
stored. The queue refinement is therefore stated for producers that obey the early flag
`O_write_full`, and the exact class of runs that lose nothing is characterised. `O_read_empty` is
low after reset, so a read on the reader's first edge is accepted whatever was written. Straight after
reset it returns garbage; it is harmless exactly when that edge samples a pointer that has counted at
least three words, because the empty flag lags two edges behind.

**JSON parser and printer** (`Json`, `JsonLayout`, `JsonGrammar`, `JsonScan`, `JsonCursor`, `JsonRefusal`,
`JsonLanguage`, `JsonAnyText`, `JsonArrays`, `JsonNesting`, `JsonRoot`, `JsonDump`, `JsonDumpEnds`,
`JsonRoundTrip`, `JsonExact`, `JsonParser`). A cursor-style parser: a
state machine over a fixed stack of 22 records, which scans a container's text again to fetch each
next member and so overwrites the deeper records all the time. `Json` is the machine, one turn of the
loop at a time; `JsonLayout` is the grammar, trees with all their white space, and what recursive
descent reports for them. The code falls short of recursive descent on three families of texts, and
the theorems are stated as if-and-only-ifs around them:
an array element that is a bare scalar other than a string puts the array in an object state, so
its closing bracket is refused; a container in record 20 is parsed but its members can never be
fetched, and the visitor then never ends; the end of a value excludes the character before its closing
bracket, so a last item that needs that character is lost. The printer always emits white space there.
`JsonAnyText` and `JsonDumpEnds` are about texts that need not be JSON at all: the visitor ends unless
it comes to a container in record 20, which takes 20 opening brackets, and where the printer exits.
`JsonLanguage` says for every text what json__parse returns, and `JsonGrammar` what a string and a number are.
`JsonParser` is the program as it stands, with records that nobody has set before the first use, changed
in place in an array. Parsing and visiting are proved in bounds for every text. Printing is too, unless the
whole text is a bare scalar: its name is copied from fields the program never sets (`JsonRoot`).

**Task runner** (`TaskRunner`). The recursive dependency walk of the build tool, over an arbitrary
list of tasks. The loop that looks for an infinite recursion walks up the chain of callers but
compares the direct parent each time, so it detects only a task that depends on itself. On lists with
longer cycles whether the recursion ends depends on the order of dependencies, and on which commands
fail; it is characterised exactly, for all lists.

**Firmware path** (`IntelHex`, `HexLines`, `HexReader`, `Bootloader`, `Programming`). Intel HEX text to a
sparse image, to page packets, to the flash of the device, composed end to end. See the "General
Record Format", "Data Record" and "Extended Segment/Linear Address Record" sections of the Intel
Hexadecimal Object File Format Specification, Revision A (1988). The range test is `>=`, so address
0xFFFF cannot be loaded and the last page of a full 64K image is sent blank; on a part with exactly 64K of
flash the host sends the address divided by 256 while the device takes it as it is, so only images
within the first page can be programmed there.

**Round-robin arbiter** (`Arbiter`) and **balanced ternary encoder** (`BalancedTernary`), for every
width and every number of trits. A stalled clock puts the start of the last scan on the grant output, that
is the winner before; it is the grant from before the stall exactly when that bit alone was requested.

Where a method works on fields or arrays, its contract equates the new state with a function of the
old one, and the properties are proved about that function. `dafny verify dfyconfig.toml` checks the
whole project.

## Model

| member | source | states |
|---|---|---|
| AsyncFifoProofs.QueueRefinement | TERES-GMA1/common/src/async_fifo.v:72-134 | for every POINTER_WIDTH of at least 2, every interleaving of the two clocks and every bitwise mix a synchroniser may sample: if the producer does not write while O_write_full is high, and the reader reads on its first edge only if that edge samples a pointer that has counted at least three words, the words returned are a prefix of the words accepted, occupancy is at most DEPTH-1 and write_full is low |
| AsyncFifoProofs.StepKeepsInv | TERES-GMA1/common/src/async_fifo.v:83-134 | every write edge, read edge or simultaneous edge, of any producer, keeps the invariant that ties both pointers, both synchroniser chains, write_read_bin, the empty flag and the memory to the history of accepted and returned words |
| AsyncFifoProofs.RunKeepsInv | TERES-GMA1/common/src/async_fifo.v:83-134 | the invariant holds along every run |
| AsyncFifoProofs.ReceivedAreSent | TERES-GMA1/common/src/async_fifo.v:72-134 | without the early-full discipline: the words returned are still the words accepted, in order, except at the positions whose write met a closed store guard, and occupancy never exceeds DEPTH |
| AsyncFifoProofs.ReturnedExactly | TERES-GMA1/common/src/async_fifo.v:72-134 | for any producer and every accepted word: what the reader later gets at its position is the word if the store guard let it through, and otherwise the newest word stored in its slot before, accepted or not, or what the slot held at power-up |
| AsyncFifoProofs.WordReturned | TERES-GMA1/common/src/async_fifo.v:115-133 | an accepted read leaves the next word in order on O_read_data, unless that word was never stored |
| AsyncFifoProofs.DataIdle | TERES-GMA1/common/src/async_fifo.v:131-133 | in every state whatsoever an event without a read command leaves O_read_data as it is |
| AsyncFifoProofs.DataStep | TERES-GMA1/common/src/async_fifo.v:115-133 | O_read_data changes on a read command only and then takes the slot of the next word, even while O_read_empty is high, when nothing else moves on |
| AsyncFifoProofs.DataHolds | TERES-GMA1/common/src/async_fifo.v:115-133 | over runs: O_read_data stays what the last read command put there, after an accepted read the last word returned |
| AsyncFifoProofs.StoreIsSafe | TERES-GMA1/common/src/async_fifo.v:102-104 | a store never lands in the slot of a word accepted and not yet read |
| AsyncFifoProofs.PoliteStep | TERES-GMA1/common/src/async_fifo.v:73-104 | under the early-full discipline every step keeps: nothing lost, write_full low, store guard and pointer guard agree; nb_data_val is the exact count the writer knows, so O_write_full and O_half_full are exactly the comparisons of that count with DEPTH-2 and DEPTH/2 |
| AsyncFifoProofs.PoliteRun | TERES-GMA1/common/src/async_fifo.v:73-104 | the same along every run |
| AsyncFifoProofs.FillingLoses | TERES-GMA1/common/src/async_fifo.v:73-104 | the store guard refuses an accepted word exactly when the write brings the count the writer sees to the full depth |
| AsyncFifoProofs.LosslessExactly | TERES-GMA1/common/src/async_fifo.v:73-104 | a run loses no accepted word if and only if it never fills the count to the depth |
| AsyncFifoProofs.ImpoliteProducerLosesAWord | TERES-GMA1/common/src/async_fifo.v:73-104 | for every depth: a burst of DEPTH writes from reset that ignores O_write_full has its last word accepted and never stored |
| AsyncFifoProofs.FirstReadEdgeExactly | TERES-GMA1/common/src/async_fifo.v:115-130 | after any polite run in which the reader had no edge: every fair and polite continuation of its first edge returns only accepted words, in order, if and only if the reader is silent on that edge or it samples a pointer that has counted at least three words |
| AsyncFifoProofs.FirstReadReturnsGarbage | TERES-GMA1/common/src/async_fifo.v:115-133 | a read on the first edge straight after reset returns the power-up contents of slot 0 although nothing was written |
| AsyncFifoProofs.SafeCrossing | TERES-GMA1/common/src/async_fifo.v:96-98 | whatever bitwise mix of a moving pointer a synchroniser captures is the pointer before or after the move, wrap-around included |
| AsyncFifoProofs.FullTestExact | TERES-GMA1/common/src/async_fifo.v:75-77 | the Gray comparison with the two top bits inverted holds exactly when the counts are DEPTH apart |
| AsyncFifoProofs.CodesEqual | TERES-GMA1/common/src/async_fifo.v:116-118 | the Gray comparison of the empty test holds exactly when the counts are equal |
| AsyncFifoProofs.UsedExact | TERES-GMA1/common/src/async_fifo.v:78-79 | the POINTER_WIDTH-bit subtraction is the true count while that is below DEPTH: it does not alias |
| AsyncFifoProofs.DecodesReadPointer | TERES-GMA1/common/src/async_fifo.v:91-95 | in every reachable state the shift-and-xor loop recovers the synchronised read count |
| AsyncFifoProofs.BoundedVisibility | TERES-GMA1/common/src/async_fifo.v:118-130 | by the third read edge after a word was accepted, it has been read or O_read_empty is low |
| AsyncFifoProofs.BoundedRelease | TERES-GMA1/common/src/async_fifo.v:91-101 | from the fourth write edge after words were read on, O_write_full is high only if the producer has again come within two slots of the depth |
| Bits.GrayNeighbours | TERES-GMA1/common/src/async_fifo.v:74 | consecutive pointer values, wrap-around included, have Gray codes that differ in exactly one bit |
| Bits.XorShiftsInvertsGray | TERES-GMA1/common/src/async_fifo.v:91-95 | xor of all right shifts inverts the Gray encoding, for every width |
| Bits.GrayHalfTurn | TERES-GMA1/common/src/async_fifo.v:75-77 | inverting the two top bits of a Gray code is adding DEPTH modulo 2*DEPTH |
| Bits.MixOfNeighbours | TERES-GMA1/common/src/async_fifo.v:96-98 | a bitwise mix of two words one bit apart is one of the two |
| AsyncFifoDevice.Device.WriteClock | TERES-GMA1/common/src/async_fifo.v:83-106 | the write block, with registers as fields, takes exactly the write step of the transition system |
| AsyncFifoDevice.Device.ReadClock | TERES-GMA1/common/src/async_fifo.v:120-136 | the read block takes exactly the read step, of which DataIdle and DataStep say when O_read_data moves |
| AsyncFifoDevice.Device.BothClocks | TERES-GMA1/common/src/async_fifo.v:83-136 | simultaneous edges: the read block sees registers and memory from before the write block |
| AsyncFifoDevice.Device.DecodeReadPointer | TERES-GMA1/common/src/async_fifo.v:91-95 | the accumulation loop computes the xor of all right shifts |
| JsonExact.EnumerationExactly | TERES-GMA1/tools/build.c:328-760 | for every JSON object text: json__parse and json__visitor make exactly the callbacks of recursive descent (depth, kind, name, value, order) if and only if every array element is a string or container, no container is in record 20 or deeper, and no last item runs into its closing bracket |
| JsonLanguage.LanguageExactly | TERES-GMA1/tools/build.c:328-727 | for every text whatsoever, JSON or not: json__parse returns an object with its bounds, a bare scalar, an error, or no object, exactly as a recursive descent over the characters says, with its own table of what may follow what and a depth of 20 |
| JsonLanguage.ReadRun | TERES-GMA1/tools/build.c:371-671 | inside any container, from any state between its brackets: the loop fails, runs out of text or closes the container at the bracket where the descent does, and leaves all lower records as they were |
| JsonGrammar.StringBodyExactly | TERES-GMA1/tools/build.c:488-502 | a text is taken for a string body if and only if it is a sequence of characters other than quote and backslash, escaped quotes and backslashes, and backslashes in front of any other character |
| JsonGrammar.StringExactly | TERES-GMA1/tools/build.c:488-502 | in any text the string loop stops at a position before its end if and only if a quote stands there and the characters passed are such a sequence |
| JsonGrammar.NumberTextExactly | TERES-GMA1/tools/build.c:589-647 | a text is taken for a number if and only if it is an optional minus, digits, an optional point with digits, an optional e or E, an optional sign and digits, begins with a minus or a digit and is not a lone minus |
| JsonExact.EscapedQuote | TERES-GMA1/tools/build.c:488-502 | a concrete text with an escaped quote: the value runs on to the quote behind it |
| JsonExact.RebuildExactly | TERES-GMA1/tools/build.c:328-760 | under exactly the same condition a caller can rebuild the tree of the text, names, scalar slices, order and kinds, from the callbacks alone |
| JsonExact.RoundTripExactly | TERES-GMA1/tools/build.c:681-862 | printer and parser undo each other, for every JSON object text: what json__dump prints, parsed and enumerated again, rebuilds the whole tree if and only if the text is one on which enumeration is exact and every name and scalar fits the copy buffer and holds no NUL |
| JsonRoundTrip.RoundTrip | TERES-GMA1/tools/build.c:681-862 | for every accepted text: the print, parsed and enumerated again, rebuilds exactly what was seen of the original if and only if no container is seen in record 20 and everything seen fits the copy buffer and holds no NUL |
| JsonRoundTrip.PrintIsStable | TERES-GMA1/tools/build.c:769-862 | printing what was printed gives the same text again |
| JsonRoundTrip.DumpThenVisit | TERES-GMA1/tools/build.c:1383-1399 | json__dump in between either exits or leaves records on which json__visitor makes the same callbacks |
| JsonRoundTrip.ShowIsDocument | TERES-GMA1/tools/build.c:769-862 | the printed text is a JSON text of the same tree that the scanner accepts, and nothing of it is lost |
| JsonRoundTrip.DumpPrints | TERES-GMA1/tools/build.c:769-862 | for every accepted text what json__dump prints or that it exits; the print is that of the tree seen, one member a line, indented by depth, if and only if no container is seen in record 20 and every name and scalar seen fits the copy buffer and holds no NUL |
| JsonDump.Layout | TERES-GMA1/tools/build.c:816-862 | the exact print of an array of any two values under a name, and of an empty object, at depth 2 |
| JsonDump.ScalarLayout | TERES-GMA1/tools/build.c:775-815 | the exact print of a scalar with and without a name at depth 2 |
| JsonExact.NulAndShortBufferFail | TERES-GMA1/tools/build.c:158-179 | concrete texts with a one-character string: they survive printing if and only if the character is not NUL and the buffer is longer than two bytes |
| JsonRoundTrip.VisitRebuilds | TERES-GMA1/tools/build.c:738-760 | the callbacks determine what is seen of the tree |
| JsonDump.DumpTree | TERES-GMA1/tools/build.c:769-862 | the printer on any described record: it exits, or prints the tree seen there with names and scalars cut at their first NUL, exactly by depth and length; the records below are untouched |
| JsonCursor.VisitDocument | TERES-GMA1/tools/build.c:711-760 | for every accepted text the visit ends if and only if no container is seen in record 20, within a stated number of nested calls, and makes the callbacks of the descent over what is seen |
| JsonCursor.VisitTree | TERES-GMA1/tools/build.c:738-760 | the same for a value in any record; records below are untouched and the record still describes its value although deeper ones are overwritten |
| JsonCursor.NextMember | TERES-GMA1/tools/build.c:328-702 | json__get_next returns the next item in text order, with exact name and value offsets, from any cursor position |
| JsonCursor.LostMember | TERES-GMA1/tools/build.c:236-246 | a container, or a one-character number, that ends right before the closing bracket is never returned: the end of a value excludes the character before its bracket |
| JsonCursor.NoMoreMembers | TERES-GMA1/tools/build.c:664-671 | after the last item json__get_next returns no object |
| JsonCursor.TopIsEndless | TERES-GMA1/tools/build.c:364-367 | on a container in record 20 every json__get_next is an error that hands back the first record, so no visit of one ever ends |
| JsonCursor.ParseDocument | TERES-GMA1/tools/build.c:711-726 | json__parse describes the root object exactly, whatever the stack held |
| JsonRefusal.ParseExactly | TERES-GMA1/tools/build.c:328-726 | for every JSON object text json__parse returns the root if containers sit in records up to 20 and bare array elements are strings, and otherwise an error |
| JsonRefusal.ArrayRefused | TERES-GMA1/tools/build.c:552-647 | once a bare scalar has put an array in an object state, every continuation that is JSON is refused, at the closing bracket or before |
| JsonScan.ValueRun | TERES-GMA1/tools/build.c:371-671 | the loop crosses any value, nested to any permitted depth, and leaves one record that describes it, records below untouched |
| JsonScan.BranchRun | TERES-GMA1/tools/build.c:376-460 | from an opening bracket to its closing one: the record describes the container, all lower records are unchanged |
| JsonExact.NumberInArrayFails | TERES-GMA1/tools/build.c:647 | a concrete text with a number in an array, on which json__parse reports an error |
| JsonExact.NoSpaceBeforeBracketFails | TERES-GMA1/tools/build.c:236-246 | a concrete text whose last member is lost |
| JsonExact.TowerExactly | TERES-GMA1/tools/build.c:188-197 | n nested arrays in the root object: json__parse accepts exactly up to 19, the visit ends exactly up to 18 |
| JsonExact.SeenExactly | TERES-GMA1/tools/build.c:236-246 | everything is seen if and only if no last item runs into its bracket |
| JsonAnyText.VisitorEnds | TERES-GMA1/tools/build.c:711-760 | for every text, well formed or not: the visit ends within a number of nested calls bounded by the text length, unless it comes to a container in record 20, and then it never ends |
| JsonDumpEnds.PrinterEnds | TERES-GMA1/tools/build.c:711-862 | for every text json__dump ends, within a number of nested calls bounded by the text length: in record 20 it meets the first record and exits |
| JsonAnyText.GetNextProgress | TERES-GMA1/tools/build.c:328-702 | for every text: a returned member lies strictly behind the start of the search, a container strictly inside its parent, and lower records keep kind, name and value |
| JsonAnyText.GetNextBounded | TERES-GMA1/tools/build.c:328-702 | for every text, over records of which only those up to the container have been set: json__get_next leaves names and values within the text up to there and in the member it hands back |
| JsonAnyText.ParseBounded | TERES-GMA1/tools/build.c:711-727 | for every text, over records never set: json__parse leaves the first record, and a root container, with name and value within the text |
| JsonRoot.RootExactly | TERES-GMA1/tools/build.c:328-727 | for every text and all records: the root is a scalar if and only if the first token is null, true, false or a number, and then its name is whatever the first record held in its child name fields |
| JsonRoot.RootWithinExactly | TERES-GMA1/tools/build.c:278-279 | name and value of the root lie within the text whatever the records held before json__parse, if and only if the first token is not a scalar |
| JsonRoot.NullReadsPastTheText | TERES-GMA1/tools/build.c:278-279 | the text null over a record that happens to hold 100: the root's name ends far behind the text, and json__dump would copy it |
| JsonNesting.FewBracketsEnd | TERES-GMA1/tools/build.c:711-760 | for every text with fewer than 20 opening brackets, well formed or not, the visit ends |
| JsonArrays.ElementsUnnamed | TERES-GMA1/tools/build.c:264-294 | for every text: a scalar that json__get_next hands back from an array carries the name fields the record held before the search, whatever names the text has in front of it, because a named scalar is refused there |
| JsonArrays.OwnBracket | TERES-GMA1/tools/build.c:429-459 | a search that meets the bracket of its own container hands back nothing, sets the end of the container there and leaves the record below at its end |
| JsonAnyText.TokenEffect | TERES-GMA1/tools/build.c:374-651 | every turn of the loop keeps the current record, opens one deeper as the next member, or closes the current one |
| JsonParser.Parser.Scan | TERES-GMA1/tools/build.c:328-671 | the loop over the fixed array of records, with every array and text access in bounds, is the loop of the model |
| JsonParser.Parser.Switch | TERES-GMA1/tools/build.c:374-651 | one turn of the switch changes records and locals as the model says |
| JsonParser.Parser.Next | TERES-GMA1/tools/build.c:681-702 | json__get_next in place, over records of which only those up to the container have been set; it keeps their offsets, and those of the member handed back, within the text |
| JsonParser.Parser.ParseText | TERES-GMA1/tools/build.c:711-727 | json__parse in place, over records never set |
| JsonParser.Parser.Visitor | TERES-GMA1/tools/build.c:738-760 | the recursive visitor over the shared records, for every visit that ends: it makes the callbacks of the model, with every access in bounds though the records above have never been set |
| JsonParser.Parser.ParseAndVisit | TERES-GMA1/tools/build.c:1383-1399 | json__parse and json__visitor in place on every text, well formed or not, on which the visit does not come to a container in record 20, over records never set: every access is in bounds |
| JsonParser.Parser.ParseAndDump | TERES-GMA1/tools/build.c:1383-1397 | json__parse and json__dump in place on every text, over records never set, provided that, if the first token is a scalar, the child name of the first record happens to end within the text: it ends, in bounds, and prints or exits as the model does |
| JsonParser.Parser.Printer | TERES-GMA1/tools/build.c:769-862 | json__dump in place prints what the model prints, and exits exactly when the model does |
| JsonParser.Parser.CopyString | TERES-GMA1/tools/build.c:158-179 | the copy stays within both buffers and fails exactly when the slice does not fit |
| JsonParser.Parser.PushRecord | TERES-GMA1/tools/build.c:188-227 | json__push, with the kind and state its caller sets: the whole new stack |
| JsonParser.Parser.PopRecord | TERES-GMA1/tools/build.c:236-247 | json__pop: the whole new stack |
| JsonParser.Parser.Add | TERES-GMA1/tools/build.c:264-294 | json__add_member: the whole new stack |
| JsonParser.Parser.SkipString | TERES-GMA1/tools/build.c:488-502 | the string loop never reads past the terminating NUL and stops where the model ends the string, at the first quote that StringExactly allows |
| TaskRunner.SuccessRunsTheClosure | TERES-GMA1/tools/build.c:1275-1320 | result 0: the tasks run are exactly those reachable from the target by label, each once, each after all it transitively depends on |
| TaskRunner.EdgeExactly | TERES-GMA1/tools/build.c:1275-1320 | task a depends on task b if and only if b's label stands among the first 60 of depends_on before any empty one; with at most 60 labels, none empty, if and only if it stands there |
| TaskRunner.SuccessInOrder | TERES-GMA1/tools/build.c:1275-1320 | result 0: the target ran, and every task whose label counts in depends_on of a task that ran has run before it |
| TaskRunner.ResultExact | TERES-GMA1/tools/build.c:1275-1320 | a finished run returns 0 if and only if no reachable task depends on itself and no reachable command fails |
| TaskRunner.FailureStopsTheRun | TERES-GMA1/tools/build.c:1275-1320 | a failed command is the last one run, all before it succeeded once each in dependency order; a refused self-dependency leaves only such runs |
| TaskRunner.DependsOutcome | TERES-GMA1/tools/build.c:1275-1320 | the same for a call anywhere in the recursion, from any good log |
| TaskRunner.Terminates | TERES-GMA1/tools/build.c:1284-1292 | if every cycle below the target is a self-dependency the recursion ends, within a depth given by the number of reachable tasks |
| TaskRunner.TerminatesExactly | TERES-GMA1/tools/build.c:1275-1320 | for every task list and every outcome of the commands: the recursion ends if and only if following, from the target, each task's first unclean dependency, in slot order and then list order, comes within as many steps as there are tasks to a task that has none or whose first one is itself |
| TaskRunner.SucceedsExactly | TERES-GMA1/tools/build.c:1275-1320 | some depth of recursion gives result 0 if and only if the target is clean: below it every cycle is a self-loop, nothing depends on itself and no command fails |
| TaskRunner.OrderDecides | TERES-GMA1/tools/build.c:1275-1320 | two concrete lists that differ in the order of two dependencies: one is refused with result 1, the other never ends |
| TaskRunner.MutualDependencyNeverEnds | TERES-GMA1/tools/build.c:1284-1292 | two tasks that depend on each other are never detected |
| TaskRunner.FuelIrrelevant | TERES-GMA1/tools/build.c:1275-1320 | a finished result does not depend on the depth allowed |
| TaskRunner.Builder.RunDependencies | TERES-GMA1/tools/build.c:1275-1320 | the loops over slots and over the task list, with done flags set in place, compute the result of the model, whose graph EdgeExactly states with the limit of 60 |
| TaskRunner.Builder.Execute | TERES-GMA1/tools/build.c:1178-1256 | a task runs at most once; the flag is set before the command runs |
| TaskRunner.Builder.Refused | TERES-GMA1/tools/build.c:1284-1292 | the walk up the chain of callers finds only the direct parent |
| TaskRunner.Builder.Make | TERES-GMA1/tools/build.c:1329-1346 | the first task with the label is run; -1 and nothing run when there is none; stated for exactly the targets on which the recursion ends |
| IntelHex.ReadIsFold | DIY-LAPTOP/SOFTWARE/A64-TERES/TERES-KBD-RELEASE/BootLoaderHID/HostLoaderApp/hid_bootloader_cli.c:783-889 | reading lines that show records is the fold of the records' meanings: last writer wins, counts add up, base records move the base, the end record stops |
| HexLines.LineExactly | DIY-LAPTOP/SOFTWARE/A64-TERES/TERES-KBD-RELEASE/BootLoaderHID/HostLoaderApp/hid_bootloader_cli.c:829-889 | for every line and every reader: accepted if and only if it has a colon, hexadecimal fields, room for the bytes it announces, an end below 64K and, in data lines, a right checksum; an accepted line stores exactly its bytes, moves the base, ends the file, or, with types 2 and 4 and a wrong checksum and all other types, changes nothing |
| HexLines.ReadFailsExactly | DIY-LAPTOP/SOFTWARE/A64-TERES/TERES-KBD-RELEASE/BootLoaderHID/HostLoaderApp/hid_bootloader_cli.c:783-818 | a file is refused if and only if behind acceptable lines, and before any end record, it has a line that is neither empty nor acceptable |
| HexLines.MalformedLines | DIY-LAPTOP/SOFTWARE/A64-TERES/TERES-KBD-RELEASE/BootLoaderHID/HostLoaderApp/hid_bootloader_cli.c:836-845 | a line without a colon, with a character that is no digit in its header, or shorter than its length byte says is never accepted |
| HexLines.HelloWorld | DIY-LAPTOP/SOFTWARE/A64-TERES/TERES-KBD-RELEASE/BootLoaderHID/HostLoaderApp/hid_bootloader_cli.c:837 | a text file without a colon is refused |
| IntelHex.FoldExactly | DIY-LAPTOP/SOFTWARE/A64-TERES/TERES-KBD-RELEASE/BootLoaderHID/HostLoaderApp/hid_bootloader_cli.c:783-889 | address by address: after a fold that succeeds an address holds the byte of the last data record before the end record that covers it at the base then in force, or is as before; the count has grown by the sum of the data lengths |
| IntelHex.ImageRoundTrip | DIY-LAPTOP/SOFTWARE/A64-TERES/TERES-KBD-RELEASE/BootLoaderHID/HostLoaderApp/hid_bootloader_cli.c:783-889 | every image on 0..0xFFFE has a text that reads back as exactly that image, with the number of its bytes |
| IntelHex.ParseEncoded | DIY-LAPTOP/SOFTWARE/A64-TERES/TERES-KBD-RELEASE/BootLoaderHID/HostLoaderApp/hid_bootloader_cli.c:829-889 | an encoded record, whatever follows on its line, is read for what it means |
| IntelHex.WrongChecksumFails | DIY-LAPTOP/SOFTWARE/A64-TERES/TERES-KBD-RELEASE/BootLoaderHID/HostLoaderApp/hid_bootloader_cli.c:886-887 | a data record with any other checksum byte makes the reading fail |
| IntelHex.DataRecordExactly | DIY-LAPTOP/SOFTWARE/A64-TERES/TERES-KBD-RELEASE/BootLoaderHID/HostLoaderApp/hid_bootloader_cli.c:847 | in every reachable state of the reader a data record is stored exactly when it ends below the last address |
| IntelHex.ReadLinesBelowTop | DIY-LAPTOP/SOFTWARE/A64-TERES/TERES-KBD-RELEASE/BootLoaderHID/HostLoaderApp/hid_bootloader_cli.c:847 | for every text the byte at 0xFFFF is never part of the image, and the base address is at most 0xFFFF0000 |
| HexReader.Reader.ReadIntelHex | DIY-LAPTOP/SOFTWARE/A64-TERES/TERES-KBD-RELEASE/BootLoaderHID/HostLoaderApp/hid_bootloader_cli.c:783-818 | the reader over its global buffers does what the model reads |
| HexReader.Reader.ParseHexLine | DIY-LAPTOP/SOFTWARE/A64-TERES/TERES-KBD-RELEASE/BootLoaderHID/HostLoaderApp/hid_bootloader_cli.c:829-889 | one line, in place, as LineExactly says of every line |
| HexReader.Reader.ParseDataBytes | DIY-LAPTOP/SOFTWARE/A64-TERES/TERES-KBD-RELEASE/BootLoaderHID/HostLoaderApp/hid_bootloader_cli.c:876-885 | the data loop stores in bounds and sums the bytes |
| HexReader.Reader.BytesWithinRange | DIY-LAPTOP/SOFTWARE/A64-TERES/TERES-KBD-RELEASE/BootLoaderHID/HostLoaderApp/hid_bootloader_cli.c:891-903 | true exactly when an address of the range is masked and the range is in memory |
| HexReader.Reader.GetData | DIY-LAPTOP/SOFTWARE/A64-TERES/TERES-KBD-RELEASE/BootLoaderHID/HostLoaderApp/hid_bootloader_cli.c:905-923 | fills the buffer part with the image, 0xFF where unmasked, and touches nothing else |
| Bootloader.PageCommandExact | DIY-LAPTOP/SOFTWARE/A64-TERES/TERES-KBD-RELEASE/BootLoaderHID/BootloaderHID.c:164-213 | a page command for an aligned address leaves exactly the report's data in that page and the rest of the flash as it was |
| Bootloader.PageCommandTurned | DIY-LAPTOP/SOFTWARE/A64-TERES/TERES-KBD-RELEASE/BootLoaderHID/BootloaderHID.c:164-213 | any page command, aligned or not: the page around the address holds the report's data, turned by the even part of the offset, and the rest of the flash is as it was |
| Bootloader.HandleElsewhere | DIY-LAPTOP/SOFTWARE/A64-TERES/TERES-KBD-RELEASE/BootLoaderHID/BootloaderHID.c:152-220 | no request changes a byte outside the page it names |
| Bootloader.RunHasMode | DIY-LAPTOP/SOFTWARE/A64-TERES/TERES-KBD-RELEASE/BootLoaderHID/BootloaderHID.c:98-229 | on runs whose page commands name pages of the flash the device with its flash goes through the same values of RunBootloader and boottime |
| Bootloader.ExitExactly | DIY-LAPTOP/SOFTWARE/A64-TERES/TERES-KBD-RELEASE/BootLoaderHID/BootloaderHID.c:98-229 | over every run, whatever pages its commands name, RunBootloader is false exactly when a start command has come or a 21st overflow has happened with no page command since; it never becomes true again |
| Bootloader.Device.ControlRequest | DIY-LAPTOP/SOFTWARE/A64-TERES/TERES-KBD-RELEASE/BootLoaderHID/BootloaderHID.c:152-220 | the handler, reading the report packet by packet and changing arrays in place, does what the model says of the whole report |
| Bootloader.Device.ProgramPage | DIY-LAPTOP/SOFTWARE/A64-TERES/TERES-KBD-RELEASE/BootLoaderHID/BootloaderHID.c:189-209 | erase, fill word by word across packets of any even size, write: the page is the report's data |
| Bootloader.SplitJoin | DIY-LAPTOP/SOFTWARE/A64-TERES/TERES-KBD-RELEASE/BootLoaderHID/BootloaderHID.c:194-204 | a report cut into packets of any even size is the report again when joined |
| Bootloader.Endpoint.ReadWord | DIY-LAPTOP/SOFTWARE/A64-TERES/TERES-KBD-RELEASE/BootLoaderHID/BootloaderHID.c:170-204 | a word read takes the next two bytes of the report |
| Bootloader.Endpoint.NextPacket | DIY-LAPTOP/SOFTWARE/A64-TERES/TERES-KBD-RELEASE/BootLoaderHID/BootloaderHID.c:196-201 | waiting for a packet when the endpoint is empty loses nothing of the report |
| Bootloader.Device.TimerOverflow | DIY-LAPTOP/SOFTWARE/A64-TERES/TERES-KBD-RELEASE/BootLoaderHID/BootloaderHID.c:222-229 | the overflow interrupt |
| Programming.EndToEnd | DIY-LAPTOP/SOFTWARE/A64-TERES/TERES-KBD-RELEASE/BootLoaderHID/HostLoaderApp/hid_bootloader_cli.c:156-174 | host and device together, for every supported part and every image: on all devices flash is image where masked, 0xFF elsewhere in page 0 and in every page with a masked byte, unchanged in all other pages, if and only if, on the 64K part, the image lies in the first page, and on the others no byte but 0xFF is wanted in the last page of the 64K image |
| Programming.FlashExactly | DIY-LAPTOP/SOFTWARE/A64-TERES/TERES-KBD-RELEASE/BootLoaderHID/HostLoaderApp/hid_bootloader_cli.c:156-174 | on every part but the 64K one, address by address: a page that is not the first and holds no byte of the image keeps its contents; in the first page and in pages with such a byte an address without one holds 0xFF, and one with a byte holds it, but in the last page of the 64K image |
| Programming.SentExactly | DIY-LAPTOP/SOFTWARE/A64-TERES/TERES-KBD-RELEASE/BootLoaderHID/HostLoaderApp/hid_bootloader_cli.c:157-161 | a page is sent if and only if it is the first or holds a byte of the image |
| Programming.TransportedExactly | DIY-LAPTOP/SOFTWARE/A64-TERES/TERES-KBD-RELEASE/BootLoaderHID/HostLoaderApp/hid_bootloader_cli.c:156-174 | on every part but the 64K one the same holds of each single device, whatever its flash held |
| Programming.SixtyFourKExactly | DIY-LAPTOP/SOFTWARE/A64-TERES/TERES-KBD-RELEASE/BootLoaderHID/HostLoaderApp/hid_bootloader_cli.c:163-169 | on the 64K part all devices are programmed as wanted if and only if the image lies in the first page |
| Programming.RecordsToFlash | DIY-LAPTOP/SOFTWARE/A64-TERES/TERES-KBD-RELEASE/BootLoaderHID/HostLoaderApp/hid_bootloader_cli.c:118-174 | on parts below 64K, from records to flash: every address ends up with the byte of the last data record that covers it, without one with 0xFF in the first page and in pages with a byte that some record covers, and unchanged in all others |
| Programming.TransportExactly | DIY-LAPTOP/SOFTWARE/A64-TERES/TERES-KBD-RELEASE/BootLoaderHID/HostLoaderApp/hid_bootloader_cli.c:163-169 | block addresses reach the device unchanged if and only if the part is not the 64K one, and none is taken for the start command |
| Programming.ProgramFromExact | DIY-LAPTOP/SOFTWARE/A64-TERES/TERES-KBD-RELEASE/BootLoaderHID/HostLoaderApp/hid_bootloader_cli.c:156-174 | what the loop leaves at each address, from any block on |
| Programming.SixtyFourKStaysInPageZero | DIY-LAPTOP/SOFTWARE/A64-TERES/TERES-KBD-RELEASE/BootLoaderHID/HostLoaderApp/hid_bootloader_cli.c:163-169 | on the 64K part nothing outside the first page is ever programmed |
| Programming.Program | DIY-LAPTOP/SOFTWARE/A64-TERES/TERES-KBD-RELEASE/BootLoaderHID/HostLoaderApp/hid_bootloader_cli.c:153-184 | the loop and the start command, on the mutable reader and device |
| Programming.Load | DIY-LAPTOP/SOFTWARE/A64-TERES/TERES-KBD-RELEASE/BootLoaderHID/HostLoaderApp/hid_bootloader_cli.c:118-184 | if and only if the file has a line that ReadFailsExactly refuses, an error is returned and the device is as it was; otherwise the device is programmed with the image read |
| Arbiter.BoundedWait | TERES-GMA1/common/src/c5_arbiter.v:29-45 | from every reachable state, for every WIDTH of at least 2: a request held over as many unstalled clocks as its cyclic distance from the last winner, at most WIDTH, is granted on one of them, stalls in between or not |
| Arbiter.GapShrinks | TERES-GMA1/common/src/c5_arbiter.v:29-45 | every unstalled clock that does not grant the request brings the last winner closer |
| Arbiter.FloodGrants | TERES-GMA1/common/src/c5_arbiter.v:29-45 | the bound is met: with everything requested bit 0 waits exactly WIDTH clocks |
| Arbiter.GrantExact | TERES-GMA1/common/src/c5_arbiter.v:20-46 | on every unstalled clock of every run the grant is zero or one-hot, within the request, and nonzero exactly when something is requested |
| Arbiter.RoundRobin | TERES-GMA1/common/src/c5_arbiter.v:20-46 | in every run from reset, whatever came before: a clock grants the first requested bit behind the one granted by the last unstalled clock, cyclically and that one last; bit 0 takes its place after a clock without requests, after a reset and at the beginning |
| Arbiter.ResetForgets | TERES-GMA1/common/src/c5_arbiter.v:21-24 | a reset in any run leaves nothing of what was before |
| Arbiter.Refines | TERES-GMA1/common/src/c5_arbiter.v:20-46 | the bit-vector block is exactly an index machine that grants the nearest request after the last winner; mask stays one-hot |
| Arbiter.ScanExact | TERES-GMA1/common/src/c5_arbiter.v:37-43 | after k iterations the loop holds the rotated mask and the first hit |
| Arbiter.RunRefines | TERES-GMA1/common/src/c5_arbiter.v:20-46 | the same over runs |
| Arbiter.StallsAreInvisible | TERES-GMA1/common/src/c5_arbiter.v:25-28 | deleting all stalled clocks of a run leaves every other grant unchanged |
| Arbiter.StallExactly | TERES-GMA1/common/src/c5_arbiter.v:25-28 | in every run, after a clock with some request and any number of stalls the grant is the winner before that request, or bit 0; it is the grant from before the stall if and only if that bit alone was requested, and lies within the request if and only if that bit was requested |
| Arbiter.Device.Grant | TERES-GMA1/common/src/c5_arbiter.v:29-45 | the rotating loop, in place, computes the scan of the bit-vector machine |
| Arbiter.Device.Tick | TERES-GMA1/common/src/c5_arbiter.v:20-46 | the clocked block with its rotating loop, in place, takes the step of the bit-vector machine |
| BalancedTernary.ExactlyInBound | TERES-GMA1/tools/bin2ter.c:19-42 | for every trit count N: the digits sum to the value if and only if it is within (3^N-1)/2 |
| BalancedTernary.Bijection | TERES-GMA1/tools/bin2ter.c:19-42 | the encoder is a bijection between the values in bound and the words of pairs 00, 01, 10 |
| BalancedTernary.CodeShows | TERES-GMA1/tools/bin2ter.c:19-42 | read in base 3 with the pairs 01 for 1 and 10 for -1, the code of v shows v if and only if v is in bound, and no other legal word shows v |
| BalancedTernary.NegationSwapsPairs | TERES-GMA1/tools/bin2ter.c:19-42 | negating any value swaps 01 and 10 in its code |
| BalancedTernary.TritsOfSum | TERES-GMA1/tools/bin2ter.c:19-42 | every row of trits is the encoding of its own sum |
| BalancedTernary.LeadingZeros | TERES-GMA1/tools/bin2ter.c:19-42 | a value that fits fewer trits has the same code in a wider word |
| BalancedTernary.B2t | TERES-GMA1/tools/bin2ter.c:19-42 | the loop computes the packed digits, whose weighted sum is the value when in bound |
| BalancedTernary.TablesAreInverse | TERES-GMA1/tools/bin2ter.c:65-73 | the two generated tables are functions of their keys and inverse to each other, and every key and value fits its printed width |
| BalancedTernary.RowShows | TERES-GMA1/tools/bin2ter.c:65-73 | each row of the tables pairs the six low bits of v with the word of sixteen pairs that shows v |
| BalancedTernary.BinaryToTernary | TERES-GMA1/tools/bin2ter.c:65-67 | the 63 rows of the first table |
| BalancedTernary.TernaryToBinary | TERES-GMA1/tools/bin2ter.c:60-73 | the 63 rows of the second |
| BalancedTernary.ComputeMax3 | TERES-GMA1/tools/bin2ter.c:56-58 | fifteen multiplications give 3^15, the weight of the first of sixteen trits |

## Left out

- Waveform level: clock periods, electrical metastability beyond "any bitwise mix of the old and new pointer", and one-sided resets. Both sides of the FIFO are reset together, before the run.
- FIFO words have no width (DATA_WIDTH), and the memory, O_half_full and O_read_data start with arbitrary contents as they are not reset.
- write_read_bin is not reset by the source; it is taken to be 0 at reset, as at power-up.
- Lag of write_read_bin: the blocking assignment read through a wire is modelled as seen or not yet seen on the same edge, any choice per edge.
- JSON texts are sequences of characters, with no encoding; error messages, line numbers and json__match are not modelled, nor states the parser never enters. The depth field of a record is its index.
- The callback of json__visitor always returns 0; bld__gather_tasks and bld__args, which copy strings out of the callbacks, are not modelled, so the parser and the task runner are two separate cores.
- What the visitor and the printer report for trailing commas and other texts the scanner accepts beyond JSON is covered only by the statements about any text; what json__parse returns for them is stated exactly.
- JsonParser.Parser.Printer: says nothing about what was already printed when json__dump exits, because the program ends there.
- JsonParser.Parser.ParseAndDump: on a scalar root requires the unset child name of the first record to end within the text, as otherwise the source reads behind the text; JsonRoot.RootWithinExactly says when.
- The copy buffer of json__dump has at least one byte; with length 0 the source would write before checking.
- JsonParser.Parser.Visitor: is stated for visits that end; JsonAnyText.VisitorEnds says of every text whether its visit does, and one that does not is described by never ending within any number of calls.
- TaskRunner.Builder.Make: is stated for targets on which the recursion ends, which TaskRunner.TerminatesExactly characterises; on others the method of the source does not return.
- Commands of the task runner are an oracle, success or failure per task; arguments, working directories, processes and the fixed lengths of labels are not modelled. The linked list of tasks is a sequence.
- Intel HEX lines are given as a sequence; fgets splitting lines longer than 1023 characters, the leniency of sscanf (signs, white space, fields shorter than their width) and the end of standard input are not modelled.
- A data record whose 32-bit address sum wraps passes the range test and stores outside the image; the outcome Wild marks it and nothing more is said.
- The second reading of the file after waiting for the device, USB transfer, timeouts and write failures, other operating systems, command-line parsing.
- The device side has flash and the temporary page buffer as arrays; boot section protection, interrupts in the middle of a handler, the watchdog and the jump to the application are not modelled. Where the flash is concerned, page commands outside it, reports shorter than a page and packets of odd length are excluded; for the exit of the bootloader only reports shorter than their two address bytes are.
- On the 64K part the condition is stated for all devices together: a single device whose flash happens to hold the image already is not distinguished.
- c5_soc.v, c5_cpu.v, c5_fetch.v, c5_decode.v, c5_ram.v, c5_instr_mem.v, cod5asm.c, dump2v.c and the keyboard firmware are not part of this model: unfinished, or only easy members.
- b2t is modelled on unbounded integers; with sixteen trits its word has 32 bits and no intermediate overflows for the values of the tables.

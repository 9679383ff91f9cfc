# Verified model of the decompiler's algorithmic core

This project models, in Dafny, the parts of the Hermes bytecode decompiler whose results have an
exact mathematical meaning, and proves them against that meaning.

| files | what they model |
|---|---|
| Options, Bytes, Sequences, OrderedSets, SetMaps | small shared definitions |
| Ir, ExprPaths, ControlFlow | expressions, statements and blocks; chains of subexpressions; predecessors, exception edges, postorder |
| Dominators, Loops | the dominator fixed point and natural loops |
| Reaching, Liveness | the two data-flow fixed points |
| FlowTargets, RecordedReads | the flow analyses told by the targets terminators name, the registers statements assign and the reads the collectors record |
| ModuleGraph, ModuleOrder, ModuleSubtree, Glob, ModuleFilter, ModuleIds | module ordering by an explicit stack, depth-bounded walks, glob matching, filters, synthetic ids |
| Leb128, DebugLocations, LocationSums, DebugScopes, Utf8Text | the byte cursor, variable-length integers, location streams, scope and string tables, UTF-8 |
| RegexBytecode, RegexEncoding, RegexLayout, RegexCanonical, RegexCheck | the 29-opcode regex bytecode: decoder, writer, offsets, the streams the writer gives back, `RegexProgram::check` |
| Machine, MachineFrames, ArrayObjects | a register-and-heap meaning for straight-line statements, and that its arrays behave as arrays do |
| ArrayLiterals, ArrayScan | folding stores into array literals, and what the scan behind a new array stops at |
| ArrayMeaning, ArrayRaises, ArrayFolding | when that folding leaves equal states |
| Renaming, RunRenaming, LiteralMaking, ArrayRenaming, FoldingRenamed | the same up to the identities of objects, for stored values that make objects |
| StaleRegisters, ArrayPitfalls | when a rewritten register goes unnoticed, and programs that folding changes |
| BundleDiff, BundleReport | pairing and comparing the functions of two bundles |
| AnalysisCache | the on-disk analysis cache as interleaved processes over a file system |
| SmallStrings | packed string table entries and their overflow records |

Loops over mutable data are methods with invariants, proved against specification functions or
directly against the property promised; the byte cursors are classes. Paths, walks, chains and runs
are sequences, and each fixed point is shown equal to a statement about all of them. The set of
blocks the fixed points iterate over is not assumed: the postorder walk is modelled and shown to
list every reachable block once, and no result depends on its order.

Small functions that a method and its specification share (the successors of a terminator, the
search for a register, case folding, the jump fields of an instruction, the fields of a location, the
test for UTF-8) are each shown equal to a description in other terms: see FlowTargets,
RecordedReads, ArrayScan, LocationSums, Utf8Text and the lemmas whose names end in `Exactly`.

Where the code does less than its comments say, the model follows the code:

- `RegexProgram::check` says capture groups stay within the header's count; it does not look at the
  group ranges carried by lookarounds and counted loops (`crates/hbc-decomp/src/regex.rs:285-290`).
  `RegexCheck.RangesAreNotChecked` is an accepted program with a range past the count.
- A debug string is read with an unsigned length by the table parser and with a signed one when
  looked up by offset, so the lookup misses some strings the parser finds.
- A block's generated definitions hold only its last write of each register, so a write overwritten
  in the same protected block does not reach the catch block.
- Liveness looks at the expression kinds its collectors visit and does not follow exception edges.
- `pair_group` needs distinct ids on the right; name groups always have them.

Properties the code does not have are kept with the exact condition under which it has them:

- Encoding undoes decoding byte for byte exactly on canonical regex streams: `RegexCanonical.EncodeUndoesDecode`.
- An accepted regex program holds an instruction's groups to the header exactly when its group range
  is empty or ends within the count: `RegexCheck.GroupsWithinExactly`.
- An offset lookup finds the parsed string exactly for valid UTF-8 with a length whose sign bit is
  clear or that takes ten bytes: `DebugScopes.NamesAgree`.
- A literal is long enough exactly when its largest index is not 2^32 - 1: `ArrayPitfalls.LiteralLenExactly`.
- A folded window that runs to its end does the same exactly when the size hint fits:
  `FoldingRenamed.WindowFoldRenamed` up to identities, `ArrayFolding.WindowFoldExact` for equal states
  when no value makes an object; without that proviso `FoldingRenamed.QuietFoldRenamed` and
  `ArrayFolding.QuietFoldExact`.
- A register set to a constant ahead of a store of it may be moved past exactly in the states where it
  holds that constant already: `StaleRegisters.StaleExactly`.
- A process that uses the cache is given its own build in every run exactly when cached jobs with the
  same bytes, build and options build the same: `AnalysisCache.AlwaysRightExactly`. One way of reading
  the bytes per key is enough, so is never overriding format or layout, and wherever readings make a
  difference one per key is needed: `AnalysisCache.RightWithOneReading`,
  `AnalysisCache.RightWithoutOverrides`. The header covers neither format nor layout.
- With distinct overflow records an entry resolves exactly when it fits or its record number is below
  2^23: `SmallStrings.DistinctRecordsResolve`.

Further programs show why folding needs its other side conditions, which are sufficient but not all
shown necessary: `ArrayPitfalls.RewrittenRegisterIsStale` (a register rewritten ahead of a store),
`ArrayPitfalls.DeclarationSeesEarly` (the array used where the scan does not look),
`ArrayPitfalls.CallsChangeOrder` (calls stored out of index order) and `ArrayPitfalls.RaiseIsEarly`
(a value that may raise moved ahead of a write).

## Model

| member | source | states |
|---|---|---|
| ControlFlow.PredecessorsSpec | crates/hbc-decomp/src/ir/cfg/mod.rs:119-126 | the predecessor list holds exactly the blocks that have the target among their successors; `FlowTargets.EdgesExactly` says which those are |
| ControlFlow.ExceptionEdgeSources | crates/hbc-decomp/src/ir/cfg/mod.rs:130-143 | each block an exception edge into the catch block can leave is listed, once, and nothing else is |
| ControlFlow.Postorder | crates/hbc-decomp/src/ir/cfg/mod.rs:145-175 | the walk from the entry and the catch blocks lists exactly the ids some path from a root reaches, each once |
| ControlFlow.ReversePostorder | crates/hbc-decomp/src/ir/cfg/mod.rs:177-181 | the iteration order of the fixed points is duplicate-free and covers exactly the reachable ids |
| FlowTargets.EdgesExactly | crates/hbc-decomp/src/ir/stmt/mod.rs:281-297 | the edges out of a block are exactly the targets its terminator names: the one of a jump, both of a branch with the true one first, those of a switch with the default last, none of a return, a throw or no terminator |
| FlowTargets.PredecessorsExactly | crates/hbc-decomp/src/ir/cfg/mod.rs:119-126 | the predecessors of a block are exactly the blocks whose terminator names it |
| Dominators.Recompute | crates/hbc-decomp/src/analysis/loops.rs:146-157 | one recomputation is the intersection of the predecessors' sets, unreachable ones being neutral full sets, plus the block itself |
| Dominators.ShrinkLowersTotal | crates/hbc-decomp/src/analysis/loops.rs:139-165 | a changed set is a smaller one and lowers the total size, so a loop that only tests for inequality terminates |
| Dominators.Pass | crates/hbc-decomp/src/analysis/loops.rs:139-165 | a pass either leaves everything settled and unchanged or lowers the total, and keeps the soundness invariant |
| Dominators.FixedPointExact | crates/hbc-decomp/src/analysis/loops.rs:110-167 | at the fixed point d is in dom(b) exactly when every path from any root to b passes through d |
| Dominators.ComputeDominators | crates/hbc-decomp/src/analysis/loops.rs:110-167 | terminates, and for all blocks b and d, d is in dom(b) if and only if d lies on every path from the entry or a catch block to b |
| Dominators.LookupsSucceedExactly | crates/hbc-decomp/src/analysis/loops.rs:139-158 | the iteration finds the set of every non-root id it looks up if and only if every reachable non-root id names a block: the precondition is what the unwrap needs |
| FlowTargets.AvoidedDoesNotDominate | crates/hbc-decomp/src/analysis/loops.rs:110-167 | what some path to a block avoids does not dominate what can be reached, still avoiding it, from a target that block names |
| FlowTargets.BranchSplits | crates/hbc-decomp/src/analysis/loops.rs:110-167 | in the computed sets, neither target of a reached branch dominates a block the other target reaches without it |
| FlowTargets.RootsStandAlone | crates/hbc-decomp/src/analysis/loops.rs:110-167 | the computed set of the entry block and of every catch block holds that block alone |
| Loops.BackEdgesComplete | crates/hbc-decomp/src/analysis/loops.rs:22-37 | the back edges found are exactly the edges whose target dominates their source |
| Loops.FindBackEdges | crates/hbc-decomp/src/analysis/loops.rs:22-37 | the search over the computed dominator sets lists every such edge, in block and successor order |
| Loops.CollectLoopBody | crates/hbc-decomp/src/analysis/loops.rs:76-86 | the backward walk adds exactly the blocks that reach the node without passing the header or blocks collected before |
| Loops.LoopBody | crates/hbc-decomp/src/analysis/loops.rs:44-50 | the body is exactly the natural loop: the header and the blocks that reach a back-edge source while avoiding the header |
| Loops.EnteredThroughHeader | crates/hbc-decomp/src/analysis/loops.rs:76-86 | every edge into a body block other than the header comes from the body |
| Loops.HeaderDominatesBody | crates/hbc-decomp/src/analysis/loops.rs:21-86 | the header dominates every reachable body block |
| Loops.BackEdgeClosesCycle | crates/hbc-decomp/src/analysis/loops.rs:26-37 | the header of a back edge from a reachable block reaches the edge's source |
| Loops.FindLoopExit | crates/hbc-decomp/src/analysis/loops.rs:88-108 | the exit is a target outside the body, the header's own leaving edge first, and is absent exactly when no edge leaves the body |
| Loops.BuildLoop | crates/hbc-decomp/src/analysis/loops.rs:44-71 | the loop built for a header has its natural-loop body, all its back edges, its exit and its do-while flag |
| Loops.DetectLoops | crates/hbc-decomp/src/analysis/loops.rs:21-73 | there is exactly one correct loop per back-edge target, in header order |
| Loops.BackEdgeInOneLoop | crates/hbc-decomp/src/analysis/loops.rs:21-73 | every back edge lies in exactly one detected loop |
| FlowTargets.ExitOfBranch | crates/hbc-decomp/src/analysis/loops.rs:88-108 | a loop whose header branches leaves by the true target if it is outside the body, else by the false one if that is |
| Loops.DoWhileExactly | crates/hbc-decomp/src/analysis/loops.rs:55-63 | a loop counts as a do-while exactly when a block that jumps back to its header ends in a branch |
| Reaching.ComputeGen | crates/hbc-decomp/src/analysis/reaching.rs:96-112 | a block generates exactly its last write of each register |
| Reaching.ComputeKill | crates/hbc-decomp/src/analysis/reaching.rs:118-136 | a block kills exactly the incoming definitions of other blocks whose register it writes |
| Reaching.SparingOwnDefsChangesNothing | crates/hbc-decomp/src/analysis/reaching.rs:114-137 | letting a block's own definitions survive the kill never changes what leaves the block |
| Reaching.ChainInSolution | crates/hbc-decomp/src/analysis/reaching.rs:23-81 | every definition chain is inside every solution of the data-flow equations, so the computed sets are the least solution |
| Reaching.Analyze | crates/hbc-decomp/src/analysis/reaching.rs:23-81 | terminates, and a definition is in reaching-in(b) if and only if a chain of normal edges (through blocks that do not rewrite its register) and exception edges (which carry entry and exit sets) leads from its block to b |
| FlowTargets.DefinitionsExactly | crates/hbc-decomp/src/analysis/reaching.rs:96-112 | the definitions of a graph are exactly the last assignments of a register in a block |
| FlowTargets.AssignmentReaches | crates/hbc-decomp/src/analysis/reaching.rs:23-81 | the last assignment of a register reaches every block its terminator names and every catch block whose range it lies in |
| FlowTargets.ReachesOn | crates/hbc-decomp/src/analysis/reaching.rs:23-81 | what reaches a block reaches every block its terminator names, unless the block assigns the register |
| Liveness.UsesSpec | crates/hbc-decomp/src/analysis/liveness.rs:85-97 | a register is in the use set exactly when some collected read of the block has no earlier write in it |
| Liveness.BlockFormulaIsBackwardPass | crates/hbc-decomp/src/analysis/liveness.rs:49-54 | use + (out - def) equals the statement-by-statement backward pass over the block |
| Liveness.CollectExprUses | crates/hbc-decomp/src/analysis/liveness.rs:133-152 | the recursive collector adds the reads it looks for, except registers already defined |
| Liveness.CollectUsesDefs | crates/hbc-decomp/src/analysis/liveness.rs:85-131 | the forward walk computes the backward pass's use set and the set of written registers |
| Liveness.Analyze | crates/hbc-decomp/src/analysis/liveness.rs:16-68 | terminates, and a register is live at entry (exit) of a reachable block if and only if some path from there meets a collected use before any definition; unreachable blocks keep empty sets |
| RecordedReads.ReadsExactly | crates/hbc-decomp/src/analysis/liveness.rs:133-152 | the collector records a register exactly where operators, callees, arguments and member objects alone lead to it |
| RecordedReads.UsesExactly | crates/hbc-decomp/src/analysis/liveness.rs:85-131 | a use set holds exactly the registers some statement or the terminator reads, where the collectors look, ahead of every assignment of them |
| RecordedReads.LiveExactly | crates/hbc-decomp/src/analysis/liveness.rs:16-68 | a register is live at a block exactly when a path along named targets leads to a block that reads it first, past blocks without an assignment of it |
| FlowTargets.ExitExactly | crates/hbc-decomp/src/analysis/liveness.rs:26-48 | live at the exit of a block is exactly what is live at the entry of a block its terminator names |
| ModuleOrder.DfsVisits | crates/hbc-decomp/src/pipeline/batch.rs:191-237 | the recursive reference walk visits what it is given and only present modules, and lists exactly what it newly visits |
| ModuleOrder.DfsPlaces | crates/hbc-decomp/src/pipeline/batch.rs:191-237 | in the reference walk a dependency is visited before, or finished before its user, or depends on its user in turn |
| ModuleOrder.WalkFrom | crates/hbc-decomp/src/pipeline/batch.rs:204-230 | the explicit stack of entry and exit frames visits and emits exactly what the recursive walk does, cycles included |
| ModuleOrder.TopologicalModuleOrder | crates/hbc-decomp/src/pipeline/batch.rs:191-237 | terminates with each requested module exactly once, a dependency before its user unless it depends on that user through requested modules, and the catch-up loop appends nothing |
| ModuleOrder.AcyclicOrder | crates/hbc-decomp/src/pipeline/batch.rs:191-237 | without dependency cycles every dependency precedes its user and never follows it |
| ModuleOrder.ListedComeFirst | crates/hbc-decomp/src/pipeline/batch.rs:191-237 | a dependency listed for a module comes before it, unless it needs that module in turn |
| ModuleOrder.SmallestFirst | crates/hbc-decomp/src/pipeline/batch.rs:191-237 | of two requested modules the one with the smaller id comes first, unless one no larger than it needs the other |
| ModuleOrder.SmallestDependencyFirst | crates/hbc-decomp/src/pipeline/batch.rs:206-228 | of two dependencies of a module the smaller is finished first, unless a listed one no larger than it needs the other |
| ModuleSubtree.SearchExact | crates/hbc-decomp/src/pipeline/batch.rs:85-107 | when the queue is empty, the modules recorded are exactly those within the depth bound, because depths leave the queue in order |
| ModuleSubtree.CollectDependencySubtree | crates/hbc-decomp/src/pipeline/batch.rs:85-107 | terminates on cycles and duplicate queue entries, and adds exactly the modules within max_depth dependency hops of the root |
| ModuleSubtree.HopsExactly | crates/hbc-decomp/src/pipeline/batch.rs:85-107 | zero hops from the root lies the root; one hop more adds exactly what is listed for the modules already in |
| ModuleSubtree.ReachableWithin | crates/hbc-decomp/src/inspect.rs:499-517 | the mark-on-push walk keeps exactly the ids within the depth bound, the same set as the mark-on-pop walk |
| Glob.CaseIsIgnored | crates/hbc-decomp/src/pipeline/batch.rs:111-113 | writing any of the capitals A to Z in the pattern or the text small changes no match |
| Glob.OneCharExactly | crates/hbc-decomp/src/pipeline/batch.rs:111-113 | a pattern of one character other than the star matches that character, or the same letter in the other case, and nothing else |
| Glob.MatchesFolded | crates/hbc-decomp/src/pipeline/batch.rs:111-139 | matching both sides after the folding the code applies is matching the two as they are; what it folds is said by `Glob.CaseIsIgnored` |
| Glob.SplitMeaning | crates/hbc-decomp/src/pipeline/batch.rs:111-139 | a pattern matches exactly when its star-separated parts appear in order, the first at the start and the last at the end |
| Glob.LeftmostSuffices | crates/hbc-decomp/src/pipeline/batch.rs:111-139 | taking the leftmost occurrence of every middle part loses no match |
| Glob.GlobMatch | crates/hbc-decomp/src/pipeline/batch.rs:111-139 | the greedy loop accepts a text if and only if the declarative glob relation holds, for every pattern |
| ModuleFilter.Resolve | crates/hbc-decomp/src/pipeline/batch.rs:40-81 | a module is selected exactly when some include (id range, name glob, dependency subtree) names it, or there is no include, and no exclude glob matches its name |
| ModuleFilter.SelectedExactly | crates/hbc-decomp/src/pipeline/batch.rs:35-81 | a filter without includes selects every module; with some, a selected module has a shown id in a range, a name a glob matches, or a place in the subtree |
| ModuleFilter.ShownIsFound | crates/hbc-decomp/src/analysis/metro/registry.rs:316-331 | an id finds a module if and only if the module is shown with it; a large id never registered finds nothing |
| ModuleIds.IdTable.Intern | crates/hbc-decomp/src/analysis/metro/registry.rs:299-312 | while synthetic ids last, a module id is filed once, found again and shown as it was registered, and nothing filed before moves |
| Leb128.NextSevenBits | crates/hbc-decomp/src/io.rs:113-132 | or-ing the next seven bits into the result extends the value read so far, without overlap |
| Leb128.SignExtends | crates/hbc-decomp/src/io.rs:134-157 | filling the bits above the last group with its sign bit yields the signed 64-bit value |
| Leb128.SlebRoundTrip | crates/hbc-decomp/src/io.rs:134-157 | reading the encoding of any signed 64-bit value, before any bytes, returns it and moves past exactly its at most ten bytes (section 7.6 of DWARF 4) |
| Leb128.UlebReadsSigned | crates/hbc-decomp/src/io.rs:113-132 | the unsigned reader returns the same value on the signed encoding of a non-negative one |
| Leb128.ByteReader.ReadExact | crates/hbc-decomp/src/io.rs:97-111 | returns the next bytes and moves past them, or fails and stays |
| Leb128.ByteReader.ReadUleb128 | crates/hbc-decomp/src/io.rs:113-132 | the shift-and-or loop on the cursor is the unsigned value of the run of bytes, with the overflow and end-of-data errors |
| Leb128.ByteReader.ReadSleb128 | crates/hbc-decomp/src/io.rs:134-157 | the shift-and-or loop with sign extension is the signed value of the run, wrapped to 64 bits |
| Leb128.ByteReader.ReadLengthPrefixedString | crates/hbc-decomp/src/io.rs:172-184 | a length and that many bytes, or the error of whichever part fails |
| DebugLocations.ParseLocationStream | crates/hbc-decomp/src/debug.rs:350-468 | the parser loop yields the prologue location and then one location per entry that has one, to the stop mark, a failed read or the entry limit |
| DebugLocations.EntryReads | crates/hbc-decomp/src/debug.rs:375-465 | reading one written entry moves address, line and column by its deltas; a location-less modern entry moves the address only |
| DebugLocations.EntriesRoundTrip | crates/hbc-decomp/src/debug.rs:375-465 | reading written entries gives their running sums, up to the entry limit |
| DebugLocations.StreamRoundTrip | crates/hbc-decomp/src/debug.rs:350-468 | parsing what was written, at any offset and before any bytes, in both layouts, gives the prologue location followed by the running sums |
| LocationSums.LocationsSaySums | crates/hbc-decomp/src/debug.rs:350-468 | of a written stream, the first location says the line and column of the prologue and each further one the sums of the address, line and column deltas up to its entry, zero for a negative sum, with the scope of entries of the older layout that is in 32 bits |
| DebugScopes.ResolveName | crates/hbc-decomp/src/debug.rs:482-489 | the string at an offset, read with a signed length; none when the offset, the length or the text is not valid |
| DebugScopes.ParseStringTable | crates/hbc-decomp/src/debug.rs:569-579 | the length-prefixed strings in a row until one cannot be read |
| DebugScopes.TableRoundTrip | crates/hbc-decomp/src/debug.rs:569-579 | parsing a written table gives its strings in order |
| DebugScopes.NameRoundTrip | crates/hbc-decomp/src/debug.rs:482-489 | an offset at the start of a written string resolves to that string, whatever follows |
| Utf8Text.ValidExactly | crates/hbc-decomp/src/debug.rs:482-489 | the bytes of a name are accepted exactly when they are the UTF-8 form of some Unicode scalar values (section 3 of RFC 3629) |
| Utf8Text.OneText | crates/hbc-decomp/src/debug.rs:482-489 | a name stands for one text only |
| DebugScopes.LengthsAgree | crates/hbc-decomp/src/debug.rs:482-579 | the signed and the unsigned reading of one length agree exactly when its last byte leaves the sign bit clear or is the tenth; otherwise the signed one is negative |
| DebugScopes.NamesAgree | crates/hbc-decomp/src/debug.rs:482-579 | looking up an offset finds the string the table parser reads there if and only if the string is valid UTF-8 and its length's last byte leaves the sign bit clear or is the tenth |
| DebugScopes.UnsignedLengthUnreachable | crates/hbc-decomp/src/debug.rs:482-579 | where they disagree: a 64-byte string with the unsigned one-byte length is parsed by the table reader and not found by offset |
| DebugScopes.ParseScopeDescriptors | crates/hbc-decomp/src/debug.rs:491-542 | the descriptors in a row, each with its own byte offset, until one cannot be read |
| DebugScopes.ScopesRoundTrip | crates/hbc-decomp/src/debug.rs:491-542 | parsing a written region gives every record back, each at the byte position where it was written |
| DebugScopes.RecordsSayFields | crates/hbc-decomp/src/debug.rs:491-542 | the descriptor of each written record says its place, its parent unless that is negative or all ones, the low 32 bits of its flags, and a name for each reference |
| DebugScopes.BuildVariableMap | crates/hbc-decomp/src/debug.rs:581-599 | the names of the first descriptor at the given offset keyed by position, empty names left out; nothing for an unknown offset |
| DebugScopes.VariablesRoundTrip | crates/hbc-decomp/src/debug.rs:491-599 | looking up the position where a record was written finds exactly the names it was written with |
| RegexBytecode.Reader.Take | crates/hbc-decomp/src/regex.rs:124-151 | a little-endian field of the next bytes, or an error and no movement |
| RegexBytecode.DecodeOperands | crates/hbc-decomp/src/regex.rs:175-258 | the opcode switch: operands as the field layout says, cursor one instruction width past the opcode's start |
| RegexBytecode.DecodeRegex | crates/hbc-decomp/src/regex.rs:154-265 | the cursor loop decodes the instruction list given by the field layout, with the short-header, past-the-end and unknown-opcode errors |
| RegexEncoding.EncodedWidth | crates/hbc-decomp/src/regex.rs:326-351 | the width function is the number of bytes the writer produces, for all 29 opcodes |
| RegexEncoding.OpcodesExactly | crates/hbc-decomp/src/regex.rs:175-258 | the numbers 0 to 28 are read as the 29 kinds of instruction in order, and any other byte is an unknown opcode at its offset |
| RegexEncoding.OperandsRoundTrip | crates/hbc-decomp/src/regex.rs:175-258 | the operands written for an in-range instruction read back as that instruction |
| RegexEncoding.ProgramRoundTrip | crates/hbc-decomp/src/regex.rs:154-265 | decoding the encoding of any in-range program with contiguous offsets gives the program back |
| RegexLayout.DecodedAccountsForEveryByte | crates/hbc-decomp/src/regex.rs:154-351 | a decoded program is in range, its offsets start at 0, each next one is the previous plus width, and the last instruction ends at the stream end (streams below 2^32 bytes) |
| RegexLayout.DecodedReencodes | crates/hbc-decomp/src/regex.rs:154-265 | encoding a decoded program gives a stream of the same length that decodes to the same program |
| RegexLayout.DecodesFromEveryOffset | crates/hbc-decomp/src/regex.rs:154-265 | decoding from any listed offset gives the corresponding tail of the program |
| RegexCanonical.EncodeUndoesDecode | crates/hbc-decomp/src/regex.rs:145-265 | encoding gives back exactly the bytes that were decoded if and only if the stream is canonical: every flag byte is 0 or 1 and every bracket class byte is below 128 |
| RegexCanonical.FlagByteIsLost | crates/hbc-decomp/src/regex.rs:145-147 | a whole entry whose flag byte is above 1 decodes and is not given back |
| RegexCanonical.ClassBitIsLost | crates/hbc-decomp/src/regex.rs:203-214 | a whole entry whose class byte has its top bit set decodes and is not given back |
| RegexCheck.CheckInsn | crates/hbc-decomp/src/regex.rs:277-298 | an instruction is faulted exactly for a jump off the instruction starts, a group or a loop past the header's count, in that order; `RegexCheck.FieldsExactly` says which fields those are |
| RegexCheck.FieldsExactly | crates/hbc-decomp/src/regex.rs:353-364 | the jump targets, the group and the loop of an instruction are exactly the fields that carry them |
| RegexCheck.ComplaintIsTrue | crates/hbc-decomp/src/regex.rs:271-298 | a complaint names a field of the instruction: a jump to no start, a group or a loop the header does not count |
| RegexCheck.AcceptedExactly | crates/hbc-decomp/src/regex.rs:271-305 | the accepted programs are exactly those in which every field that jumps holds a start or the end, every marked group and every loop id is within the header's counts, and the last instruction is the goal |
| RegexCheck.MovesExactly | crates/hbc-decomp/src/regex.rs:353-364 | a run moves one width on or to what a jump field of the instruction holds |
| RegexCheck.Check | crates/hbc-decomp/src/regex.rs:271-305 | accepts exactly the programs in order and otherwise names the first thing wrong |
| RegexCheck.RunStaysOnInstructions | crates/hbc-decomp/src/regex.rs:271-305 | every position of every run of an accepted program is an instruction start or the end |
| RegexCheck.EndOnlyByJumpOrGoal | crates/hbc-decomp/src/regex.rs:271-305 | a run reaches the end only by a jump or past the final Goal |
| RegexCheck.ExecutesWithinHeader | crates/hbc-decomp/src/regex.rs:271-305 | short of the end there is exactly one instruction to execute; its marked group and loop are within the header's counts, and every group it names or ranges over is if and only if its range ends within the count |
| RegexCheck.GroupsWithinExactly | crates/hbc-decomp/src/regex.rs:283-291 | all groups an instruction names or ranges over are within the header's count exactly when its marked group is and its range is empty or ends within the count |
| RegexCheck.RangesExactly | crates/hbc-decomp/src/regex.rs:285-290 | the group range of an instruction is the pair of bounds a lookaround or a counted loop carries |
| RegexCheck.RangesAreNotChecked | crates/hbc-decomp/src/regex.rs:268-291 | an accepted program without groups whose lookaround ranges over nine of them |
| RegexCheck.DecodedRunsAreSafe | crates/hbc-decomp/src/regex.rs:154-305 | runs of a stream that decodes and passes the check never leave its instruction boundaries |
| ArrayLiterals.Collect | crates/hbc-decomp/src/transforms/arrays.rs:12-38 | the scan behind a new array ends at the first statement that uses or assigns the register or has side effects, having collected the last value per index, the largest index and the store positions |
| ArrayScan.SearchExactly | crates/hbc-decomp/src/ir/utils.rs:5-44 | the search for a register finds it exactly where a chain of subexpressions leads to it past no template, spread, assignment, yield, await or element |
| ArrayScan.EffectsExactly | crates/hbc-decomp/src/ir/expr/mod.rs:151-197 | an expression has side effects exactly when a chain of subexpressions leads past no spread and no element to a call, a new, an assignment, a yield, an await or an unknown form |
| ArrayScan.EndsExactly | crates/hbc-decomp/src/transforms/arrays.rs:18-38 | the scan goes on exactly past comments, declarations without effects, and expression statements and assignments without effects that neither write the register nor show it |
| ArrayScan.StoresExactly | crates/hbc-decomp/src/transforms/arrays.rs:93-120 | a statement stores into an element of the array exactly when it assigns to a constant index of the register: a non-negative integer by its low 32 bits, a whole number by its value or as the last index |
| ArrayScan.WindowExactly | crates/hbc-decomp/src/transforms/arrays.rs:18-38 | the window holds stores and statements the scan goes past, and ends at the first statement that is neither |
| ArrayScan.KeptMentionsNot | crates/hbc-decomp/src/transforms/arrays.rs:18-38 | no assignment, store elsewhere or expression statement left in the window mentions the register, unless inside a template or a foreign form |
| ArrayLiterals.RemovedAreStores | crates/hbc-decomp/src/transforms/arrays.rs:62-64 | removing the consumed positions in reverse deletes exactly the folded stores and keeps the rest in order |
| ArrayLiterals.FoldAt | crates/hbc-decomp/src/transforms/arrays.rs:8-70 | one new array either becomes a literal with its stores removed or is left as it is, by the element, size and length conditions |
| ArrayScan.NewArrayExactly | crates/hbc-decomp/src/transforms/arrays.rs:78-91 | a new array is an assignment of the array-making instruction to a register, sized by its first operand |
| ArrayScan.SizesExactly | crates/hbc-decomp/src/transforms/arrays.rs:84-87 | a size is a decimal number below 2^32, with or without a plus sign |
| ArrayScan.FoldsExactly | crates/hbc-decomp/src/transforms/arrays.rs:40-64 | a new array folds exactly when something is stored and every index is at most 998 or one is the last index; with nothing stored, exactly when its size is 0 |
| ArrayLiterals.TransformArrayLiterals | crates/hbc-decomp/src/transforms/arrays.rs:5-76 | the in-place pass over the statement vector computes the recursive transformation |
| ArrayObjects.LengthsExactly | crates/hbc-decomp/src/transforms/arrays.rs:12-50 | of the arrays the folding is measured against: an array reads its length, a store at an index makes it just long enough, and storing a length cuts off what lies behind it (section 10.4.2 of ECMA-262) |
| ArrayMeaning.WindowMatched | crates/hbc-decomp/src/transforms/arrays.rs:18-38 | running the kept statements alone does the same as running the whole window, except for what the array holds |
| ArrayMeaning.ValueThrough | crates/hbc-decomp/src/transforms/arrays.rs:18-38 | running a window does not change a value that nothing in it disturbs, so collecting it early is sound |
| ArrayMeaning.StoresCollect | crates/hbc-decomp/src/transforms/arrays.rs:12-50 | after the stores the array holds the collected elements and is as long as the larger of the size asked for and the largest index plus one |
| ArrayRaises.RaisesEarly | crates/hbc-decomp/src/transforms/arrays.rs:18-38 | when some stored value cannot be worked out and none that may raise follows a write, the original raises with nothing written but the array |
| ArrayFolding.WindowFoldExact | crates/hbc-decomp/src/transforms/arrays.rs:40-70 | folding a window that meets the side conditions and whose values make no object: both sides run to their end or both raise; run to their end they are equal if and only if the size hint is at most the largest index plus one; when they raise and no value that may raise is moved ahead of a write, they agree outside the array |
| ArrayFolding.QuietFoldExact | crates/hbc-decomp/src/transforms/arrays.rs:40-70 | a window that meets the side conditions, makes no object, reads no member and stores into nothing but the array folds to an equal outcome if and only if the size hint is at most the largest index plus one |
| ArrayFolding.TransformPreservesMeaning | crates/hbc-decomp/src/transforms/arrays.rs:5-76 | when every folded window meets the side conditions and its values make no object, the transformed program raises exactly when the original does and otherwise leaves equal registers, variables and heap, for any behaviour of calls and other statements; when moreover no value that may raise is moved ahead of a write, the states at an exception agree outside one array |
| LiteralMaking.WorkedOutAlike | crates/hbc-decomp/src/ir/expr/mod.rs:151-197 | an effect-free expression, literals that make objects included, yields the same up to the identities of what it makes wherever what it looks at is the same |
| RunRenaming.RunSame | crates/hbc-decomp/src/transforms/arrays.rs:5-76 | from states that hold the same under different identities, every program comes to outcomes that are the same up to identities, when what the world decides does not look at identities |
| ArrayRenaming.RunsTogether | crates/hbc-decomp/src/transforms/arrays.rs:18-64 | statement by statement, the original window and the folded one hold the same up to a one-to-one renaming of objects, the array excepted, or raise together |
| FoldingRenamed.WindowFoldRenamed | crates/hbc-decomp/src/transforms/arrays.rs:40-70 | folding a window that meets the side conditions, whatever objects its values make: both sides run to their end or both raise; run to their end they are the same up to identities if and only if the size hint is at most the largest index plus one; when they raise and no value that may raise is moved ahead of a write, the states correspond but for the array |
| FoldingRenamed.QuietFoldRenamed | crates/hbc-decomp/src/transforms/arrays.rs:40-70 | a window that meets the side conditions, reads no member and stores into nothing but the array folds to the same up to identities if and only if the size hint is at most the largest index plus one |
| FoldingRenamed.TransformRenames | crates/hbc-decomp/src/transforms/arrays.rs:5-76 | when every folded window meets the side conditions, whatever objects its values make, the transformed program raises exactly when the original does and otherwise ends the same up to a one-to-one renaming of the objects its locations lead to; when moreover no value that may raise is moved ahead of a write, the states at an exception correspond but for one register |
| StaleRegisters.StaleExactly | crates/hbc-decomp/src/transforms/arrays.rs:18-64 | in a window otherwise safe, a register set to a constant ahead of a store of it folds to an equal outcome if and only if the register held that constant before the window |
| ArrayPitfalls.RewrittenRegisterIsStale | crates/hbc-decomp/src/transforms/arrays.rs:18-38 | a register rewritten between two stores is read too early: the outcomes differ |
| ArrayPitfalls.SizeIsLost | crates/hbc-decomp/src/transforms/arrays.rs:40-50 | a size above the largest index plus one is lost: the outcomes differ |
| ArrayPitfalls.LiteralLenExactly | crates/hbc-decomp/src/transforms/arrays.rs:40-64 | a literal is as long as its largest index plus one if and only if that index is below 2^32 - 1; otherwise, whatever the hint, the window folds to an empty literal and every store of it is gone |
| ArrayPitfalls.LastIndexDropsAll | crates/hbc-decomp/src/transforms/arrays.rs:40-64 | a store at index 2^32 - 1 takes the store at index 0 with it: the outcomes differ |
| ArrayPitfalls.IdentitiesSwap | crates/hbc-decomp/src/transforms/arrays.rs:40-64 | a new object stored at index 0: the outcomes are never equal and always the same up to identities |
| ArrayPitfalls.DeclarationSeesEarly | crates/hbc-decomp/src/transforms/arrays.rs:18-38 | a declaration that reads the array is not seen as a use and reads the element before it is stored: the outcomes differ in every state |
| ArrayPitfalls.CallsChangeOrder | crates/hbc-decomp/src/transforms/arrays.rs:18-64 | two calls stored out of index order are made in index order by the literal: where the last call can be told, the outcomes differ in every state |
| ArrayPitfalls.RaiseIsEarly | crates/hbc-decomp/src/transforms/arrays.rs:18-64 | a read that raises is moved ahead of a declaration: both programs raise, but a handler sees different variables |
| BundleReport.BuildFunctionGroups | crates/hbc-decomp-cli/src/commands/bindiff_cmd.rs:223-233 | every function id is filed under its own name, ascending, and under no other |
| BundleDiff.ClaimByKey | crates/hbc-decomp-cli/src/commands/bindiff_cmd.rs:270-292 | popping per-key queues pairs the n-th left id of a key with the n-th right id of it |
| BundleDiff.PairGroup | crates/hbc-decomp-cli/src/commands/bindiff_cmd.rs:254-303 | the queues, the claimed set and the positional rest compute the pairing by content and then position, the single-function shortcut included |
| BundleDiff.NothingLost | crates/hbc-decomp-cli/src/commands/bindiff_cmd.rs:254-303 | every id of either side is in exactly one pair or leftover list, and only one side has leftovers |
| BundleDiff.MostEqualBodies | crates/hbc-decomp-cli/src/commands/bindiff_cmd.rs:245-303 | no one-to-one pairing of the two groups pairs more ids with equal keys |
| BundleReport.CompareBundles | crates/hbc-decomp-cli/src/commands/bindiff_cmd.rs:89-175 | compared + removed is the base count, compared + added the new count, identical + modified is compared, and the lists hold exactly the differing pairs and the leftovers, in whatever order names are visited |
| AnalysisCache.AcceptedExactly | crates/hbc-decomp/src/pipeline/cache.rs:253-292 | a file is accepted exactly when a header of version 10 with its four magic letters and the digests of the job's bytes, build and options comes first and a snapshot follows |
| AnalysisCache.LoadedIsBuilt | crates/hbc-decomp/src/pipeline/cache.rs:253-292 | a complete entry is accepted only for the bytes, build and options it was written for, and then gives what building gives under the reading (format and layouts) it was written with |
| AnalysisCache.SavedIsLoaded | crates/hbc-decomp/src/pipeline/cache.rs:94-318 | an entry saved for one job is accepted for another if and only if both have the same bytes, build and options, whatever their readings, and then gives the first one's context |
| AnalysisCache.RenameOk | crates/hbc-decomp/src/pipeline/cache.rs:294-318 | the rename puts a complete temporary file in the cache's place and disturbs no open reader |
| AnalysisCache.StepKeepsInv | crates/hbc-decomp/src/pipeline/cache.rs:146-318 | every step of every process (begin, open, read, build, create, write, rename, give up, crash) keeps the cache path whole, and every result one that building the job's key gives under the reading of some job |
| AnalysisCache.ResultsAreBuilds | crates/hbc-decomp/src/pipeline/cache.rs:146-318 | in every interleaving the cache path is absent or holds one complete header and snapshot, and whatever a process returns is what building its bytes, build and options gives under the reading of some job begun in the run; under its own when a cascade artifact is set |
| AnalysisCache.OtherReadingIsReturned | crates/hbc-decomp/src/pipeline/cache.rs:146-199 | for any two jobs that differ in their reading alone, the run in which the first is saved and the second asked for returns the first one's context to the second |
| AnalysisCache.AlwaysRightExactly | crates/hbc-decomp/src/pipeline/cache.rs:146-318 | every run for a set of jobs returns to each job what building it gives if and only if cached jobs with the same bytes, build and options build the same |
| AnalysisCache.RightWithOneReading | crates/hbc-decomp/src/pipeline/cache.rs:146-318 | one reading per key suffices for every run to be right, and is needed wherever different readings build different contexts |
| AnalysisCache.RightWithoutOverrides | crates/hbc-decomp-cli/src/helpers.rs:15-155 | when no format and no layout is overridden, so that the bytes and the build determine the reading, every run is right |
| AnalysisCache.OverrideIsServed | crates/hbc-decomp/src/pipeline/cache.rs:94-199 | with contexts that show the format they were decoded with, a run under an overridden format makes a later run without one return the wrong context |
| SmallStrings.EncodeDecode | crates/hbc-decomp/src/format.rs:68-78 | packing an unpacked word gives the word back, for every 32-bit word |
| SmallStrings.DecodeEncode | crates/hbc-decomp/src/format.rs:68-78 | unpacking a packed entry keeps the flag, the low 23 bits of the offset and the low 8 of the length |
| SmallStrings.PackedBits | crates/hbc-decomp/src/format.rs:76-78 | the shifts, masks and ors that pack an entry are the sum of its three fields at their places |
| SmallStrings.UnpackedBits | crates/hbc-decomp/src/format.rs:68-74 | the masks and shifts that unpack a word are its low bit, the 23 bits above and its top eight |
| SmallStrings.LayOut | crates/hbc-decomp/src/write/patch/string_storage.rs:174-188 | the table builder gives each string its word and appends a record exactly when told to |
| SmallStrings.TableResolves | crates/hbc-decomp/src/format.rs:88-118 | with at most 2^23 records every entry of a built table resolves to its string's own offset and length |
| SmallStrings.DistinctRecordsResolve | crates/hbc-decomp/src/format.rs:88-118 | for distinct records an entry resolves correctly if and only if it fits or its record number is below 2^23 |
| SmallStrings.ResolvesExactly | crates/hbc-decomp/src/format.rs:62-118 | among distinct records an entry stands for its string exactly when the offset is below 2^23 and the length below 255, or fewer than 2^23 strings before it needed a record |
| SmallStrings.LostPastLimit | crates/hbc-decomp/src/format.rs:88-118 | past 2^23 distinct records there is a string whose entry resolves to another string's record |

## Left out

- Command line, terminal and tool-server front ends, the update command, hook scripts, secret scanning: interface code around the core.
- Rendering, structure recovery, closure resolution, the file parser and the write path other than its string-entry loop: not part of this model.
- The cascade, visitor and sanitising helpers: short single-pass functions whose bodies already say what they compute.
- Texts of error messages, logging and progress output: errors are values of a datatype instead.
- Hash functions: SHA-256, the build fingerprint and the options hash are arbitrary injective functions (the options key is 32 bits wide in the code), the body key of a function is an arbitrary function.
- Block identity: a block's id is the key it is stored under; the separate id field is not modelled.
- Dominators.ComputeDominators: requires that every jump from a block lands on a block (`JumpsLandOnBlocks`), because the code unwraps a missing map entry; `Dominators.LookupsSucceedExactly` shows that nothing weaker will do.
- Liveness.Analyze: live sets speak of uses as the collectors record them; expression kinds they skip and exception edges are not uses.
- ModuleFilter.Resolve: the registry is a value; finding the modules of a bundle is not modelled, only how their ids are filed.
- ModuleIds.IdTable.Intern: past 2^28 synthetic ids the next one wraps in 32 bits as in a release build, and nothing is promised from there on.
- Glob.GlobMatch: case folding is ASCII only, as in the code; texts are sequences of characters.
- Leb128.ByteReader.ReadUleb128: or-ing in a byte is written as a sum, with the disjointness of the bits proved beside it; the failing read's message is left out.
- Leb128.ByteReader.ReadLengthPrefixedString: replacing malformed UTF-8 by a substitute character is left out; strings stay bytes.
- DebugLocations.ParseLocationStream: 64-bit additions wrap as in a release build; a build with overflow checks would stop instead.
- DebugScopes.ParseStringTable: malformed UTF-8 is kept as bytes where the code substitutes characters.
- RegexBytecode.DecodeRegex: offsets are kept in 32 bits as in the code; instruction widths are unbounded, so bracket instructions of 4 GiB and more are not modelled exactly.
- RegexEncoding.ProgramRoundTrip: requires the offsets to be contiguous from 0 and the stream to be at most 2^32 bytes, as every decoded program below that size has them.
- FoldingRenamed.TransformRenames: what the world decides (operators, conversions, calls, other statements) may compare identities but not depend on them otherwise; objects nothing leads to, such as a value stored and then written over, are not compared; a closure is its function's number, without captured variables.
- ArrayFolding.TransformPreservesMeaning: values that make objects are the business of the renaming theorems; member reads on objects are plain look-ups (no prototypes, accessors or proxies), operators on objects call no user code, and the value thrown is not part of an outcome, so which of several raising elements raises first is not told apart; the states at an exception are compared only for windows that move no value that may raise ahead of a write; the side conditions are sufficient; the one on the size hint is shown necessary, and the one on rewritten registers for constants.
- ArrayLiterals.TransformArrayLiterals: the length `max_index + 1` wraps in 32 bits as in a release build; integer keys are unbounded in the model where the code has 32-bit ones.
- JSX attributes and class, loop and try statements: any statement or expression the pass cannot look through is an arbitrary behaviour of the world.
- BundleReport.CompareBundles: the final sorting, display names and decompiled texts of the report are left out; comparing two functions is an arbitrary predicate.
- AnalysisCache.ResultsAreBuilds: one cache path, one running writer per process number; serialisation is any pair of functions that read back what was written, and a context without cascade names is determined by its snapshot.
- SmallStrings.LayOut: packing the string bytes into storage is left out; offsets and lengths are given.
- `gitdiff.rs` alignment: it rests on a library that is not modelled.

# jsregexp: a model of the regular-expression engine and its companions

The project models the regular-expression library of this repository in Dafny and proves what it
is for: a pattern compiled to bytecode and run by the backtracking machine gives the first result
of the semantics in section 22.2.2 of ECMA-262. Around that core stand the character sets, the case
folding, the string sets of `v`-mode classes, the sort they use, the index maps between UTF-8 and
UTF-16, the global match loops, the property tables, canonical ordering, and `escape`.

`dafny verify dfyconfig.toml` checks everything.

## How the core is layered

1. `Patterns`, `PatternSemantics`: an abstract syntax tree and its meaning. `Results` gives the
   list of all results of a node in order of priority, following RepeatMatcher, CompileAssertion,
   CharacterSetMatcher and BackreferenceMatcher; it speaks of characters and never of code.
2. `Bytes`, `Bytecode`, `RangeTable`: instructions, their bytes, and the decoder `Fetch`, which
   reads an instruction back from any place in the code.
3. `SnapshotMachine`: one instruction at a time on the bytes, with choice points that copy the
   whole array. `Expansion` is the algebra used to reason about it: a thread *expands* to a list of
   threads when running it is the same as running these in order, whatever stack lies underneath.
4. `CodeGen`: the code of a node as a function. `CompilerCorrectness.Sim` (with `Simulation`,
   `ThreadImages`, `PlainAtoms`, `AtomAnalysis`) shows that the code of any node, entered from a
   state, expands to exactly the results of that node, in order. `Matching.CompiledCorrectly` adds
   the search prologue, and with it termination and the first result.
5. `UndoLog`, `BacktrackMachine`: the real loop, with one stack of choice points and undo pairs and
   the array updated in place. Each of its methods is tied to the snapshot machine: `Choices()`
   reads the snapshots out of the undo log.
6. `Emitter` (with `Terms`, `StraightLine`, `RegisterAllocation`): the imperative compiler, which
   appends, inserts, reverses and patches bytes and numbers the registers afterwards. It is shown to
   write exactly the code of layer 4.
7. `Engine`: `LreCompile`, `LreExec`, and `CompileAndRun`, which puts the layers together.
   `Structure` and `Boundaries` add what holds of every compiled program and of every run, and
   `CaptureArray` which slots of the capture array a program names.

Around the core, `CaseRuns` reads off the packed words of the case table what each type of run does
to a code point, and `TableWriter` writes property tables and block indices from lists of run
lengths, so that the decoder and the lookup are stated in terms of those lengths.

Three facts about the code are worth knowing. A slot of the capture array may hold half of a group
(between the two saves), and in code without a capture reset it may even hold captures of an
earlier pass; the simulation relation therefore carries the set of groups that are open, and
`PlainAtoms` shows that in straight-line atoms everything stale is overwritten before the end of
the pass. And the global loops make progress even on empty matches inside a multi-byte character,
because a byte index there is moved on to the next character start. The wrapper lends the matcher
an array of 510 slots without comparing it with the counts of the program: with up to 255 captures
and 255 registers there are programs that name more, and `CaptureArray` says exactly which.

The source's loops are loops here and its in-place updates are updates of fields and arrays.
Growable buffers (`DynBuf`, `CharRange.points`, the backtracking stack) are fields of sequence type.

## Model

| member | source | states |
|---|---|---|
| Engine.CompileAndRun | libregexp/libregexp.c:2522-2614 | Compiling any pattern and running it from any index: refused exactly when a set, the groups or the registers are too many; otherwise no match exactly when the specification has no result, and a match shows the captures of the first result at the smallest start (at the start itself when sticky) |
| Matching.CompiledCorrectly | libregexp/libregexp.c:2554-2576 | Every run of a compiled program on every subject terminates, and reports position and captures of the first result in the order of section 22.2.2, with the search prologue the one at the smallest start |
| Matching.SearchMeans | libregexp/libregexp.c:2554-2562 | What the program is compared with really is a search: nothing matches before the start it reports, and if it reports nothing no start matches |
| Matching.SimSearch | libregexp/libregexp.c:2554-2563 | The search prologue tries every start from the current one to the end, in order |
| CompilerCorrectness.Sim | libregexp/libregexp.c:1845-2370 | The code of any node, in either direction and at any place, does the same as one thread for each of its results, in order of priority, and leaves outer registers and other groups as they were |
| CompilerCorrectness.SimCat | libregexp/libregexp.c:2389-2401 | Terms written in reverse order for lookbehind are run in the order in which going backward reads them |
| CompilerCorrectness.SimOr | libregexp/libregexp.c:2413-2438 | All results of the left alternative come before those of the right one |
| CompilerCorrectness.SimGroup | libregexp/libregexp.c:2009-2028 | A group records start and end of each of its results, whichever direction wrote the two bounds first |
| CompilerCorrectness.SimLook | libregexp/libregexp.c:1963-1981 | A positive lookaround keeps the captures of its body's first result and the position on entry; a negative one succeeds just when its body has no result, with the captures on entry |
| CompilerCorrectness.SimRepeat | libregexp/libregexp.c:2257-2360 | Each of the five layouts of a quantifier (dropped, choice, loop with jump, skippable counter, counter) has the results of RepeatMatcher |
| CompilerCorrectness.SimPass | libregexp/libregexp.c:2296-2358 | From any counter value, one more pass and everything after it gives what RepeatMatcher gives from the minimum and maximum that are left |
| CompilerCorrectness.SimOneStar | libregexp/libregexp.c:2298-2312 | At the end of a pass of `?` or `*`: gives up if the pass was checked and has not moved, else goes on or leaves as RepeatMatcher says |
| CompilerCorrectness.SimOneCounted | libregexp/libregexp.c:3061-3126 | The counting instructions continue, give up, split or leave exactly as the remaining minimum and maximum say |
| CompilerCorrectness.SimOnePlus | libregexp/libregexp.c:2332-2335 | The backward split after an atom that always moves is `+` |
| AtomAnalysis.AdvancesSound | libregexp/libregexp.c:1557-1628 | An atom for which the analysis drops the zero-advance check moves in every result |
| AtomAnalysis.PlainSingle | libregexp/libregexp.c:1557-1628 | An atom for which the analysis drops the capture reset has at most one result |
| PlainAtoms.SimPlain | libregexp/libregexp.c:2270-2283 | Run without a reset, such an atom rewrites all its captures from whatever was there: after a pass they are those that a reset would have given |
| PlainAtoms.DeadKept | libregexp/libregexp.c:2289-2295 | Groups that a pass cannot set, because they stand under `{0}`, keep their captures in every result |
| PlainAtoms.SimDropped | libregexp/libregexp.c:2296-2297 | What is left of an atom under `{0}` changes nothing that can be read |
| StraightLine.NeedCheckAdvAndCaptureInit | libregexp/libregexp.c:1557-1628 | The loop over the bytes of an atom computes the two verdicts of the linear reading |
| StraightLine.AtomVerdict | libregexp/libregexp.c:1557-1628 | On the code of any pattern these verdicts are the structural ones: no check needed when it always moves, no reset when it is straight-line |
| StraightLine.AnalyseCode | libregexp/libregexp.c:1557-1628 | Reading the bytes of a pattern, then more bytes, is applying the verdict of the pattern and then reading on |
| PatternSemantics.Results | libregexp/libregexp.c:1845-2370 | Each result lies on the side that the direction allows, keeps captures of other groups, and has sound spans |
| PatternSemantics.RepeatFrom | libregexp/libregexp.c:2257-2360 | RepeatMatcher: results stay on the side of the direction and only change groups of the atom; it terminates because a pass that is not required has to move |
| Expansion.ExpandsEnter | libregexp/libregexp.c:2874-2925 | A lookaround whose body expands to a list: positive keeps the first thread's array, negative resumes only on an empty list, whatever choice points are below |
| Expansion.ReplaceRun | libregexp/libregexp.c:2852-2870 | Choice points anywhere in the stack may be exchanged for others that expand to the same threads without changing the outcome of the run |
| Expansion.Trans | libregexp/libregexp.c:2774-3321 | Expansions compose |
| Expansion.ExpandsFork | libregexp/libregexp.c:2945-2966 | A split does the same as its two branches in order |
| Simulation.ExpandsChar | libregexp/libregexp.c:2163-2193 | One character, forward or between two steps back, does what CharacterSetMatcher says |
| Simulation.ExpandsBackRef | libregexp/libregexp.c:3172-3228 | Back references in both directions, with lists of groups and under ignore-case, do what BackreferenceMatcher says |
| PatternSemantics.BackReferenceMeans | libregexp/libregexp.c:3172-3228 | The text of the first group of the list that is set has to stand ahead of the position, or behind it going backward: character by character equal, under ignore-case equal after folding both; one result then, otherwise none |
| PatternSemantics.BackReferenceUnset | libregexp/libregexp.c:3180-3190 | With no group of the list set, the reference matches the empty string |
| Simulation.MatchForwardIs | libregexp/libregexp.c:3194-3209 | The forward comparison loop over units is character-by-character equality of the capture and the text ahead |
| Simulation.MatchBackwardIs | libregexp/libregexp.c:3210-3223 | The backward loop is equality with the text behind |
| Simulation.ExpandsAssertion | libregexp/libregexp.c:2985-3004 | Line and word assertions hold just where the specification says |
| PatternSemantics.LineMeans | libregexp/libregexp.c:2985-3004 | `^` and `$` hold at the ends of the input, and with the multiline flag next to U+000A, U+000D, U+2028 and U+2029 |
| PatternSemantics.WordMeans | libregexp/libregexp.c:3138-3171 | `\b` holds where exactly one neighbour is one of 0-9, A-Z, `_`, a-z, or under ignore-case U+017F or U+212A; `\B` everywhere else |
| PatternSemantics.DotMeans | libregexp/libregexp.c:3005-3010 | `.` refuses exactly U+000A, U+000D, U+2028 and U+2029 |
| Simulation.TestIsAccepts | libregexp/libregexp.c:2926-3030 | The test of each character instruction is membership in the set of the node, under its case folding |
| UndoLog.PushPairs | libregexp/libregexp.c:2805-2813 | Pairs pushed on the log are undone before everything below them |
| UndoLog.UndoOverwrites | libregexp/libregexp.c:2815-2833 | Overwriting a slot that is already saved above the frame leaves the frame's snapshot as it was: skipping the second save is sound |
| UndoLog.PushFrame | libregexp/libregexp.c:2945-2966 | A new choice point holds the array as it is, and every older one is unchanged |
| UndoLog.TopFrame | libregexp/libregexp.c:2852-2870 | Undoing the pairs above the last choice point rebuilds the array it was pushed with |
| UndoLog.ChainExtend | libregexp/libregexp.c:2874-2906 | Dropping a choice point but keeping its pairs loses no older snapshot |
| BacktrackMachine.Machine.SaveCapture | libregexp/libregexp.c:2805-2813 | Writes one slot and changes no snapshot |
| BacktrackMachine.Machine.SaveCaptureCheck | libregexp/libregexp.c:2815-2833 | The same although a slot that was saved since the last choice point is not saved again |
| BacktrackMachine.Machine.PushChoice | libregexp/libregexp.c:2945-2966 | One more choice point, with a copy of the array; the others stay |
| BacktrackMachine.Machine.PopChoice | libregexp/libregexp.c:2852-2866 | Takes the last choice point off and puts the array back to its snapshot |
| BacktrackMachine.Machine.Backtrack | libregexp/libregexp.c:2852-2870 | Resumes at the last choice point that is not a lookahead, or fails |
| BacktrackMachine.Machine.CommitLook | libregexp/libregexp.c:2874-2906 | Drops every choice point down to the lookahead, keeps the captures, and compacts the pairs so that all older snapshots stay as they were |
| BacktrackMachine.Machine.Compact | libregexp/libregexp.c:2895-2904 | Moving the pairs down over the dropped choice points keeps every snapshot |
| BacktrackMachine.Machine.LeaveNegative | libregexp/libregexp.c:2907-2925 | The captures are those held on entry to the negative lookahead, every choice point since then is gone, and the machine fails |
| BacktrackMachine.Machine.InRange | libregexp/libregexp.c:3229-3307 | The bisection loop is the recursive search |
| BacktrackMachine.Machine.BackReference | libregexp/libregexp.c:3172-3228 | Tests the first group of the list that is set; none set matches the empty string |
| BacktrackMachine.Machine.CountDown | libregexp/libregexp.c:3061-3126 | The counting instructions on the array do the action of the snapshot machine |
| BacktrackMachine.Machine.ResetCaptures | libregexp/libregexp.c:3038-3054 | All slots of a range of groups are forgotten, and no snapshot changes |
| BacktrackMachine.Machine.Step | libregexp/libregexp.c:2845-3321 | One round of the loop does the action of the snapshot machine |
| BacktrackMachine.Machine.Exec | libregexp/libregexp.c:2774-3321 | The loop terminates whenever the snapshot machine does, with the same answer and the same captures |
| Boundaries.StepAligned | libregexp/libregexp.c:2621-2702 | One step of any program keeps every position, choice point and capture on a character boundary |
| Boundaries.StepsAligned | libregexp/libregexp.c:3190-3223 | So does a whole run |
| Engine.RunOnBoundaries | libregexp/libregexp.c:3351-3359 | Started from any index, no position, saved choice point or set capture ever lies between the two halves of a surrogate pair |
| Engine.LreExec | libregexp/libregexp.c:3326-3364 | In an array with room for the program, starts at the character that the index falls in, and reports a match and its captures exactly as the specification says |
| Engine.CaptureSlots | libregexp/libregexp.c:3348-3359 | Slots 2g and 2g+1 hold the unit offsets of both ends of group g, or nothing when it did not take part |
| CaptureArray.SlotsNamed | libregexp/libregexp.c:3366-3370 | The instructions of a compiled program name no slot at or above twice its groups plus its registers, and with a register they name the last one below that |
| CaptureArray.FitsTheWrapper | jsregexp.c:285-321 | Some instruction of a compiled program names a slot that the 510 slots of the wrapper do not have if and only if its two counts exceed them: the wrapper does not compare |
| CaptureArray.WrapperTooSmall | jsregexp.c:285-321 | 254 groups followed by a counted loop over a choice (`{2,3}`) compile to such a program |
| Engine.LreCompile | libregexp/libregexp.c:2522-2614 | Refuses exactly the patterns with too large a set, more than 255 captures (the whole match counts as one) or more than 255 registers; otherwise the program is the numbered code, with its counts |
| Engine.CompilesMeans | libregexp/libregexp.c:2522-2614 | The limits in numbers: 254 groups besides the whole match, 255 registers, 65534 intervals in a set |
| Engine.ProgramNumbers | libregexp/libregexp.c:2444-2505 | Numbering the registers of a whole program gives the program with nested registers, ends with an empty stack, and counts the deepest nesting |
| RegisterAllocation.AllocateCode | libregexp/libregexp.c:2442-2505 | In the code of any node, inside any other, set and release nest: the pass never underflows, leaves the stack as it found it, fills in the registers that the nesting asks for, and reaches the stated peak |
| RegisterAllocation.NumbersThen | libregexp/libregexp.c:2442-2443 | The linear pass composes over concatenation of code |
| Emitter.Compiler.ComputeRegisterCount | libregexp/libregexp.c:2444-2505 | The pass in place over the bytes is the functional one; more than 255 registers are reported |
| Structure.CodeSound | libregexp/libregexp.c:2257-2358 | In the code of any node every jump lands on the start of an instruction of that code or on its end, group operands are in range, and register operands lie between the registers in use around the node and its own peak |
| CaptureArray.LiveLoopsApart | libregexp/libregexp.c:2442-2482 | No instruction of the body of a loop names a register of that loop, so loops that run at the same time have different registers |
| Structure.ProgramSound | libregexp/libregexp.c:2554-2602 | The same for every compiled program, against the counts it is stored with |
| Structure.SoundOr | libregexp/libregexp.c:2413-2438 | The inserted choice and the patched jump of a disjunction land behind the two alternatives |
| Structure.SoundCounted | libregexp/libregexp.c:2336-2358 | The jump of a counted loop lands on the start of its atom, never on the counter |
| Emitter.Compiler.ParseDisjunction | libregexp/libregexp.c:2406-2440 | Appends the code of the disjunction to whatever is there, counts its groups, and refuses exactly what is too large |
| Emitter.Compiler.ParseAnother | libregexp/libregexp.c:2416-2438 | One more alternative: the choice is inserted in front of all earlier ones and the jump is patched once the size is known |
| Emitter.Compiler.ParseAlternative | libregexp/libregexp.c:2372-2404 | Appends the terms, in reverse order going backward, though groups are numbered as they are read |
| Emitter.Compiler.MoveToFront | libregexp/libregexp.c:2392-2400 | The two block moves rotate the last term to the front |
| Emitter.Compiler.ParseTerm | libregexp/libregexp.c:1845-2370 | An atom and its quantifier give the code of the quantified node |
| Emitter.Compiler.ParseGroup | libregexp/libregexp.c:2009-2028 | The two saves stand in the order that the direction asks for |
| Emitter.Compiler.ParseLook | libregexp/libregexp.c:1963-1981 | The body is parsed in its own direction and the jump is patched to its end |
| Emitter.Compiler.ParseChar | libregexp/libregexp.c:2163-2193 | Going backward a character stands between two steps back |
| Emitter.Compiler.Quantify | libregexp/libregexp.c:2257-2360 | Inserting behind code that is already written gives the layout of the quantifier around the unchanged atom |
| Emitter.Compiler.InsertReset | libregexp/libregexp.c:2286-2295 | One reset in front of an atom that may not run |
| Emitter.Compiler.EmitStar | libregexp/libregexp.c:2298-2312 | Choice, check and jump around the atom, with the offsets of the code that results |
| Emitter.Compiler.EmitSkippable | libregexp/libregexp.c:2313-2331 | A counted loop behind a choice that skips it |
| Emitter.Compiler.EmitCounted | libregexp/libregexp.c:2336-2358 | Counter and check in front, the counting jump behind |
| Emitter.Compiler.Insert | libregexp/libregexp.c:123-130 | Opens a gap; what was in front stays and what was behind moves |
| Emitter.Compiler.EmitRange | libregexp/libregexp.c:1225-1259 | Writes the code of the set in the narrowest form, or an impossible character when it is empty; refuses 65535 intervals and more |
| Terms.Unnumbered | libregexp/libregexp.c:2299-2358 | Before numbering, the code of a node does not depend on the loops around it |
| Terms.SequenceIs | libregexp/libregexp.c:2378-2402 | Code put together term by term, forward or backward, is the code of the sequence |
| Terms.ChoiceIs | libregexp/libregexp.c:2413-2438 | Code put together alternative by alternative is the code of the disjunction |
| Bytecode.FetchEncode | libregexp/libregexp-opcode.h:27-71 | Every instruction is read back as it was written, wherever it stands |
| RangeTable.InTableCorrect | libregexp/libregexp.c:3229-3307 | The bisection accepts exactly the members of the set that was emitted, with 0xffff for no upper end, in 16 and 32 bits; its unsigned index never wraps |
| RangeTable.SearchCorrect | libregexp/libregexp.c:3254-3268 | From any bounds the bisection says whether some interval between them holds the code point |
| RangeTable.TableRepresents | libregexp/libregexp.c:1225-1259 | The bytes of the table give back every end point, also the one written as 0xffff |
| Subjects.StepForward | libregexp/libregexp.c:2621-2636 | Stepping forward from a character start reads that character and reaches the next start |
| Subjects.StepBackward | libregexp/libregexp.c:2670-2702 | Stepping backward is the exact inverse |
| Subjects.CharacterMeans | libregexp/libregexp.c:2621-2653 | In unicode mode a unit of D800..DBFF with one of DC00..DFFF behind it is one code point, whose number is given; every other unit is a character of its own |
| Subjects.UnitsAreCharacters | libregexp/libregexp.c:2621-2653 | Otherwise the characters are the units |
| Subjects.BoundaryIff | libregexp/libregexp.c:3352-3356 | Character starts are exactly the positions that are not between the two halves of a pair |
| Subjects.NoSplitPair | libregexp/libregexp.c:2654-2668 | A high surrogate just before a character start is a character by itself |
| Sorting.Rqsort | libregexp/cutils.c:522-639 | Sorts any array under any total preorder; the result is a permutation, and at most 50 segments are ever pending |
| Sorting.Narrow | libregexp/cutils.c:545-632 | Partitioning until the segment in hand is small: what is out of order stays inside disjoint pending segments of bounded depth |
| Sorting.Partition | libregexp/cutils.c:552-615 | Three-way: smaller elements below, larger ones above, equal ones in between, and nothing outside moves |
| Sorting.Classify | libregexp/cutils.c:557-589 | The two scans leave the four zones equal, smaller, larger, equal |
| Sorting.SwapBlocks | libregexp/cutils.c:383-392 | Exchanges two blocks that do not overlap, element by element, and moves nothing else |
| Sorting.TurnZones | libregexp/cutils.c:590-609 | Turns two zones around by exchanging as many elements as the shorter one has |
| Sorting.Heapsort | libregexp/cutils.c:480-512 | Sorts a segment and permutes nothing else |
| Sorting.SiftDown | libregexp/cutils.c:492-498 | Lets one element sink until the heap property holds from it on |
| Sorting.HeapRoot | libregexp/cutils.c:500-510 | No element of a heap is above its root |
| Sorting.Med3 | libregexp/cutils.c:514-519 | One of three indices, and its element lies between the other two |
| Sorting.InsertionSort | libregexp/cutils.c:633-637 | Sorts a small segment |
| Sorting.SplitUp | libregexp/cutils.c:611-631 | Going on with the smaller part and keeping the larger one: depths grow along the stack, so 50 slots are enough |
| CharRanges.CharRange.Op | libregexp/libunicode.c:462-515 | The merge of two lists is the set operation; its points strictly increase |
| CharRanges.OperationMeans | libregexp/libunicode.c:491-512 | A code point is in the result exactly when union, intersection, exclusive or or difference of the operands holds it |
| CharRanges.OperationsAgree | libregexp/libunicode.c:462-515 | Two ways of computing the same set end in the same list |
| CharRanges.Unique | libregexp/libunicode.c:433-459 | Strictly increasing lists with the same members are equal |
| CharRanges.CharRange.Compress | libregexp/libunicode.c:433-459 | In place, joins touching intervals and drops empty ones; the set stays |
| CharRanges.CharRange.Invert | libregexp/libunicode.c:529-541 | The complement below UINT32_MAX, in canonical form |
| CharRanges.ComplementMeans | libregexp/libunicode.c:529-541 | A code point is in the complement exactly when it is in range and not in the set |
| CharRanges.InvertTwice | libregexp/libunicode.c:529-541 | Inverting twice gives back the same list |
| CharRanges.CharRange.SortAndRemoveOverlap | libregexp/libunicode.c:622-656 | Any list of non-empty intervals becomes strictly increasing and denotes the same set |
| CharRanges.CharRange.UnionInterval | libregexp/libunicode.h:86-92 | Adds the code points of an interval, both ends included |
| CaseFolding.RegexpCanonicalize | libregexp/libunicode.c:660-742 | The set becomes exactly the image of the set under the canonical form |
| CaseFolding.LreCanonicalize | libregexp/libunicode.c:227-261 | The bisection over the runs finds the run of a code point, or none, and the canonical form is that run's entry; `CaseRuns` says what it is for each type of run |
| CaseFolding.EntryIsCanon | libregexp/libunicode.c:51-154 | Whatever run of the mask holds it, the entry of an affected code point is its canonical form, also where ASCII takes a fast path |
| CaseRuns.MovedRun | libregexp/libunicode.c:67-75 | A run of type U, L, UF or LF moves its code points to where the run named by its data starts: to upper case without the unicode flag, unless that leads to ASCII, and under folding with it |
| CaseRuns.PairOfCases | libregexp/libunicode.c:76-81 | Both elements of a pair of an UL run have one canonical form: the upper one, or with the unicode flag the lower one |
| CaseRuns.PairsAreWhole | libregexp/libunicode.c:76-81 | Every element of an UL run belongs to such a pair |
| CaseRuns.ThreeCases | libregexp/libunicode.c:82-89 | All three cases of an LSU run have one form: the first, or with the unicode flag the last |
| CaseRuns.TargetRun | libregexp/libunicode.c:90-114 | The runs whose targets stand in their data or in the table of extra code points go to those targets |
| CaseRuns.LongRun | libregexp/libunicode.c:115-146 | Code points that convert to several are their own form, but for U+FB06, U+1FD3 and U+1FE3 with the unicode flag |
| CaseRuns.AsciiCases | libregexp/libunicode.c:229-240 | The two cases of an ASCII letter have one form, and every other ASCII character is its own |
| CaseRuns.OutsideRuns | libregexp/libunicode.c:241-260 | A code point that no run covers is its own form |
| CaseRuns.SmallTableFits | libregexp/libunicode.c:227-261 | What is asked of the tables can be met: a table of the ASCII letters and one pair is well formed, and folds the two elements of the pair together |
| CaseFolding.Unaffected | libregexp/libunicode.c:543-613 | A code point that the mask leaves out is its own canonical form |
| CaseFolding.UnicodeCase1 | libregexp/libunicode.c:552-613 | Collects exactly the code points that the runs of the mask affect, every second one of pairs and two of each three |
| CaseFolding.FoldAll | libregexp/libunicode.c:690-728 | Folding members in order, while the run only moves forward, gives exactly the canonical forms of all of them |
| Classes.BuildClass | libregexp/libregexp.c:1403-1530 | The set built from characters and ranges holds exactly the forms of the members, or for a negated class all others; under ignore-case the canonical forms |
| ClassMatching.ClassAccepts | libregexp/libregexp.c:1445-1473 | An ignore-case class accepts a character exactly when some member has the same canonical form (section 22.2.2.7.1), the empty class included |
| ClassMatching.CompiledClassAccepts | libregexp/libregexp.c:3229-3307 | So does the instruction emitted for it, wherever it stands |
| ClassMatching.MatchClass | libregexp/libregexp.c:1539-1552 | Building the class, compiling it and running it at any index: a match exactly when a character is there and some member has its form, or for a negated class none |
| ClassMatching.HasFormMeans | libregexp/libregexp.c:1445-1473 | Some member has the form of a character: under ignore-case, some code point of some range has its canonical form, otherwise some range holds it |
| StringSets.StringList.Find | libregexp/libregexp.c:232-243 | Only the chain of the hash is searched; when every string is in its chain, found exactly when the string is in the table |
| StringSets.StringList.FindOrAdd | libregexp/libregexp.c:227-281 | Adds a missing string once, also when the table doubles; in a table that removals have emptied it goes to the first chain, and the table stays in order exactly when its hash leads there |
| StringSets.Rehash | libregexp/libregexp.c:245-269 | Growth keeps every string and puts it in the chain of its hash |
| StringSets.StringList.Add | libregexp/libregexp.c:292-300 | The list then holds one more string, a single character in the set of characters; it stays in order except in that case |
| StringSets.StringList.KeepStrings | libregexp/libregexp.c:322-344 | Unlinking while walking the chains keeps exactly the wanted strings |
| StringSets.StringList.ListOp | libregexp/libregexp.c:303-349 | Union, intersection and difference of strings and characters together |
| StringSets.StringList.Canonicalize | libregexp/libregexp.c:351-388 | The list becomes the set of the canonical forms of its strings |
| StringSets.FoldedLength | libregexp/libregexp.c:374-384 | A string keeps its length, and each of its characters becomes its canonical form |
| StringSets.BucketBelow | libregexp/libregexp.c:233-234 | The shifted hash is always the number of a chain |
| StringSets.StringList.AddAndFind | libregexp/libregexp.c:283-300 | A string that was just added is found, if and only if the table was not emptied by removals or the hash leads to chain 0 |
| StringSets.ChainOfTheEmptyString | libregexp/libregexp.c:230-235 | The empty string is a case where it is lost: with 16 chains its own is number 6 |
| ClassStrings.EmitStringList | libregexp/libregexp.c:1276-1352 | Writes the code of the alternation of the sorted strings, then the characters, then the empty string; every jump threaded through the patch slots ends up at the end |
| ClassStrings.ListResults | libregexp/libregexp.c:1276-1352 | That alternation tries its strings, then the set of characters, then the empty string, in order |
| ClassStrings.ListMatches | libregexp/libregexp.c:1276-1352 | It has a result n characters on exactly when some string of that length that the list holds (`StringList.Holds`) stands there |
| ClassStrings.StringResults | libregexp/libregexp.c:1318-1320 | A string has one result, right behind it, exactly when it stands there |
| ClassStrings.LongestFirst | libregexp/libregexp.c:1261-1266 | Among the results, no shorter one comes before a longer one |
| ClassStrings.ListCodeIs | libregexp/libregexp.c:1310-1347 | The code of the alternation is blocks nested to the right |
| ClassStrings.NestIsBlocks | libregexp/libregexp.c:1310-1347 | Nested code is blocks in a row whose jumps all lead to the end |
| ClassStrings.PatchAll | libregexp/libregexp.c:1342-1347 | Following the thread from the last slot to the first patches every jump and loses none |
| ClassStrings.Collect | libregexp/libregexp.c:1295-1306 | All strings of the table apart from the empty one, and whether that is there |
| IndexMaps.UnicodeFromUtf8 | libregexp/cutils.c:261-314 | The decoder's loop reads what the recursive definition says, and fails on the same input |
| IndexMaps.DecodeUtf8 | libregexp/cutils.c:261-314 | Decoding the bytes of a code point up to 0x10FFFF gives it back, with the position behind it |
| IndexMaps.Utf8Form | libregexp/cutils.c:261-314 | The bytes of a code point have the four forms of RFC 3629: how many, what they start with, and which bits they carry |
| IndexMaps.WalkUtf8 | jsregexp.c:99-117 | Any text written in UTF-8 is walked as exactly its code points |
| IndexMaps.Utf8ToUtf16 | jsregexp.c:90-124 | The units are those of the code points, both maps are filled at every code point start and at the end, and malformed input gives nothing |
| IndexMaps.MapsInverse | jsregexp.c:99-120 | On code point starts each map undoes the other |
| IndexMaps.MapsIncrease | jsregexp.c:99-120 | Both maps strictly increase, and there are at most as many units as bytes |
| IndexMaps.SubjectIsText | jsregexp.c:110-116 | The characters that the machine sees in the converted string are the code points of the input, in unicode mode or without any above 0xFFFF |
| RegExpObject.JsStringNew | jsregexp.c:126-168 | Both forms of a string hold the input and convert between bytes and units consistently |
| RegExpObject.RegExp.Translate | jsregexp.c:292-305 | The last index is moved on to the least character start at or after it |
| RegExpObject.FirstFromMeans | jsregexp.c:296-304 | That start is at or after the byte index, and every earlier one is before it |
| RegExpObject.BytePosMeans | jsregexp.c:99-120 | In a string written in UTF-8 the byte position of a character is the length of the text in front of it |
| RegExpObject.RegExp.Exec | jsregexp.c:284-451 | With a program that fits the 510 slots of the wrapper, the answer is that of the specification from the translated start, in bytes; the last index becomes the end of the match, or 0 |
| RegExpObject.RegExp.RunsFromTheBeginning | jsregexp.c:307-309 | With neither flag the answer is that from the first character, whatever the last index was, and the last index becomes 0 |
| RegExpObject.RegExp.RunsFromTheLastIndex | jsregexp.c:307-340 | With either flag a match starts at or after the last index and ends at the new one; without a match, or from behind the end of the string, the last index becomes 0 |
| RegExpObject.RegExp.SticksToTheLastIndex | jsregexp.c:292-340 | A sticky expression matches exactly when its pattern does at the first character start at or after the last index, and the match starts at that byte |
| RegExpObject.RegExp.SearchesFromTheLastIndex | jsregexp.c:292-340 | A global one that is not sticky finds the first character from there on at which the pattern matches, or no such character exists |
| RegExpObject.RegExp.Report | jsregexp.c:399-410 | Byte bounds of every group that took part |
| RegExpObject.SaysMeans | jsregexp.c:353-410 | What a result says: an index that counts from 1, and for each group that took part the byte positions of its two ends |
| RegExpObject.ExpectedBounds | jsregexp.c:333-340 | A match has its whole in group 0, inside the string and not before its start |
| RegExpObject.RegExp.Next | jsregexp.lua:18-27 | One round gives the next match and leaves the rest to come; the last index strictly grows, and is 0 when there is none |
| RegExpObject.RegExp.Collect | jsregexp.lua:44-62 | The loop stops, and has collected all matches from the last index on, in order |
| RegExpObject.RegExp.Match | jsregexp.lua:9-32 | One run when the expression is not global; otherwise the texts of all matches from the beginning of the string, in order, or nothing when there is none |
| RegExpObject.RegExp.MatchAllList | jsregexp.lua:34-62 | All matches from the last index on, found with a copy, so that the expression itself does not change; an error exactly when it is not global |
| CanonicalOrdering.SortCC | libregexp/libunicode.c:1091-1125 | The buffer becomes its reordering |
| CanonicalOrdering.ReorderIsCanonical | libregexp/libunicode.c:1091-1125 | No reorderable pair is left, as in section 3.11 of the Unicode Standard |
| CanonicalOrdering.ReorderKeeps | libregexp/libunicode.c:1102-1117 | The reordering is a permutation, and marks of the same class keep their order |
| CanonicalOrdering.StartersStay | libregexp/libunicode.c:1097-1101 | Every starter keeps its place |
| CanonicalOrdering.StableSortMeans | libregexp/libunicode.c:1102-1117 | One run is sorted by class, stably |
| PropertyTables.UnicodeProp1 | libregexp/libunicode.c:1459-1504 | The set decoded from a table holds exactly the code points that lie in its true runs |
| TableWriter.DecodeWritten | libregexp/libunicode.c:1459-1504 | The bytes that a list of run lengths is written in, by the format that the comment describes, are decoded to exactly the code points of the second, fourth, sixth, ... run |
| TableWriter.TableMeans | libregexp/libunicode.c:1468-1502 | The set that such bytes denote: runs start at the sums of the lengths before them, and every other one is true |
| TableWriter.GroupRead | libregexp/libunicode.c:1468-1494 | Each of the four forms of a length is read back with its number of bytes |
| TableWriter.Grouped | libregexp/libunicode.c:1468-1475 | Every list of lengths up to 0x200000 can be written |
| PropertyTables.IsInTable | libregexp/libunicode.c:304-345 | The lookup from the middle of a table stops inside it and agrees with the whole table |
| TableWriter.LookupWritten | libregexp/libunicode.c:304-345 | The lookup in a table written from runs, with an index written for it, says whether the code point lies in a true run |
| TableWriter.IndexFits | libregexp/libunicode.c:263-302 | An index whose entries name starts of false runs, each in its block of 32 bytes, fits its table |
| TableWriter.EntryRead | libregexp/libunicode.c:263-302 | The 21 bits of code point and 3 bits of offset of an entry are read back as they were written |
| PropertyTables.GetIndexPos | libregexp/libunicode.c:271-302 | Finds a block that starts at or before the code point and that reading the table from its beginning reaches |
| PropertyTables.ReachedSame | libregexp/libunicode.c:268-345 | Reading on from such a place gives the same answer for every code point from there |
| EscapeText.Escape | jsregexp.c:170-212 | The buffer is the spelling of each byte in turn: a leading letter or digit as `\xhh` in lower-case digits, later ones and `_` as themselves, bytes 9 to 13 as `\t \n \v \f \r`, the listed punctuators, other controls, space and bytes from 128 on as `\xhh`, and every other character as a backslash and itself |
| EscapeText.SpelledOnce | jsregexp.c:180-204 | These rules leave nothing open: every byte has one spelling |
| EscapeText.EscapeRoundTrip | jsregexp.c:180-204 | For every ASCII string, its escape parses as exactly its own characters, in order, with no quantifier, group or assertion |
| EscapeText.CompileEscaped | libregexp/libregexp.c:2163-2193 | The compiler emits one character instruction for each of these characters and nothing else |
| EscapeText.ParsePlain | libregexp/libregexp.c:1845-2199 | The loop over terms accepts exactly the texts that are plain characters throughout, and emits them |
| EscapeText.NotPlain | libregexp/libregexp.c:1845-2199 | Syntax characters, the escapes of classes, boundaries and references, and quantified characters are not plain |
| EscapeText.ByteEscapeTerm | libregexp/libregexp.c:761-773 | `\xhh` is the character of that number, with digits in either case |
| EscapeText.UnicodeEscapeTerm | libregexp/libregexp.c:774-810 | So is `\uhhhh` |
| EscapeText.ControlLetterTerm | libregexp/libregexp.c:1085-1100 | `\c` and a letter in either case is the control character of that number |

## Left out

- The surface syntax: the compiler model starts from a syntax tree, with group indices resolved. Annex B fallbacks, group names, the forward scan for groups, modifiers and error messages are not modelled. The tree allows more than the grammar does (a quantifier on any assertion).
- Class strings inside lookbehind: the original writes them as forward code between two steps back. `ClassStrings` covers the forward direction only.
- Engine.LreCompile: counts and sizes stay below INT32_MAX, as the compiler assumes of counts plus subject length; saturated counts are not modelled.
- Structure.ProgramSound: code of 2^31 bytes and more is excluded; the original limits its buffer to half of that.
- Engine.LreExec: captures after a failed match are not specified (the machine returns without undoing the last pairs).
- Allocation failure, the timeout callback, stack relocation and the packing of frame kinds into stack words; header bytes, flags and the table of group names at the end of a program.
- StringSets.StringList.ListOp: union into a table that removals have emptied is left out (the class parser does not do it); `FindOrAdd` and `AddAndFind` say what a single insertion does there.
- StringSets.Rehash: chains are sequences, one for each bucket; the relinking of cells is not modelled.
- StringSets.StringList.KeepStrings: removal takes a string out of its sequence; the pointer to the link field is not modelled. Exclusive or of string lists, on which the original aborts, is not defined.
- Generated tables: their contents are parameters with stated well-formedness predicates (`CaseFolding.WellFormed`, `AsciiAgrees`, `PropertyTables.WellFormedIndex`, `Whole`), and so is the lookup of combining classes. Full case conversion (`lre_case_conv` to several code points), normalization, scripts and categories are not modelled.
- Sorting.Rqsort: works on an array of elements; the byte-wise exchange functions are not modelled.
- RegExpObject.RegExp.Report: says nothing about the bounds of groups that did not take part.
- RegExpObject.RegExp.Exec: programs that need more than the 510 slots of the wrapper are excluded by a condition on their counts; `CaptureArray` says that they exist, and which they are.
- IndexMaps.Utf8ToUtf16: input without NUL and without code points above 0x10FFFF. The slots of low surrogates, which are never written, are not specified; expressions that are not in unicode mode are covered for strings without code points above 0xFFFF.
- EscapeText.ParsePlain: recognises plain characters and their escapes; every other term counts as not plain without being parsed.
- `split`, `replace`, substitution templates, the Lua API and its tables, `unicode_to_utf8`, the string and dump helpers.

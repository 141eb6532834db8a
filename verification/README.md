# Verified models: tree-automaton inference and a selection of LLVM 3.7 algorithms

This project models two parts of the repository and proves properties of the models.

**The tautomata-inf engine**, stage by stage and then as a whole: the lines of dependency-graph files are read into
one set of names (`Naming`, `FileMeaning`, `ParseFiles`), their terms are shared so that one tree is one term
(`DeclaredGraph`, `SharedTerms`, `Consing`), breadth-first sweeps compute k-level hashes (`KLevelHash`, `BfsSweep`,
`BfsQueue`, `SweepUnfolding`), equal k-roots are seeded into a congruence closure (`Terms`, `Partition`, `ENodes`,
`CClosure`, `LeastClasses`, `FoundCongruences`, `MissedCongruence`, `Learn`), one state is spliced into the term graph
for each class (`Splice`, `TreeLanguage`, `Build`), and an acceptor runs test terms against the result (`TreeMatch`,
`Acceptance`). `Pipeline` and `Inference` join the stages, from the files to the number of accepted graphs: each
stage's promises are what the next one assumes, and the terms of the automaton generate exactly the trees that the
learned classes derive.

**LLVM 3.7**: the BrainF compiler (`BrainFSource`, `BrainFIdioms`, `BrainFIR`, `BrainFCompiler`, `BrainFCorrect`),
back edges and reachability in control-flow graphs (`Cfg`, `DepthFirst`, `BackEdges`, `CfgReach`), the distribution of
block mass (`BranchScale`, `BlockWeights`, `BlockDistribution`, `BlockMass`, `BlockDistribute`), address disjointness
(`BitOps`, `GepAlias`, `IndexDifference`, `StructAlias`), recognition of vector reductions (`Reductions`,
`ReductionTrees`), the instruction-number cache (`InstCache`), the once-initialiser (`OnceInit`) and the
`WaitForThreads` barrier (`Barrier`). `Arith` and `Options` hold shared facts.

Code that changes state is modelled by classes and methods with the original's fields and loops, each proved against a
specification function or predicate; what the specification means is proved in lemmas. The two concurrent protocols
are state machines over interleavings of their atomic steps.

## Findings

Places where the code, read closely, does less than its comments or its own assertions suggest. Each has a lemma or
method with the input, and the exact condition where there is one.

- `propagate` misses the simplest congruence. For two classes of equal size it relabels the class of the second term
  but rehashes the uses of the first, so after merging two leaves `a` and `c` the terms `f(a)` and `f(c)` end in one
  class, and the classes are the least congruence, if and only if the hash function does not tell the two terms apart
  (`MissedCongruence.MergeTwoLeaves`; for every run and every order of the uses, `MissedCongruence.UsesMeetExactly`).
  A run misses nothing if in each of its rounds every term with a relabelled operand is listed as a use of the term
  popped first (`FoundCongruences.RehashingIsLeast`). For any graph it is enough that the requests, closed as an
  equivalence, already are a congruence (`LeastClasses.LeastWhenSeedsClosed`). The requests of the inference are so
  after top-down sweeps, which is why it is not affected then (`Learn.SeedsAreClosed`,
  `Learn.ClassesAreLeastCongruence`).
- The downward step of `propagate` never merges anything: it compares all operands of the one term with the first
  operand of the other, so the pair that it asks for is in one class already (`FoundCongruences.DownwardIsIdle`).
- The breadth-first order of the k-level sweep may update an operand before a term that uses it. For a graph of seven
  terms, two of them equal down to level 1, these two end in one class if and only if the hash function gives one
  value for the two operand hashes it then sees (`BfsSweep.BfsMissesAMerge`). A sweep computes the next level for
  every hash function exactly when it updates terms before their operands (`KLevelHash.SweepExactlyTopDown`), and the
  learned classes are sure to be the k-roots, whatever the hash function, exactly when the sweeps unfold k-equal terms
  alike, a question about the graph and the order of visiting only (`SweepUnfolding.ClassesExactly`).
- `rebuildAutomaton` can leave a class of several terms without a state. The walk meets a class through its
  representative only, and once a state has been spliced in for the term above it, the representative may never be
  met. Nine terms with three roots are enough for a class of 0-equal terms to stay unserved, and then the automaton
  lacks a tree that the k-roots stand for (`UnservedClass.RebuildExample`). A class of several terms has a state if
  and only if its representative was visited (`Build.BuildAutomaton.RebuildAutomaton`), so all have theirs if and only
  if all representatives of such classes were (`Inference.AllServedExactly`).
- Nothing keeps the edges of a file from forming a cycle. The check for missing operands and the list of roots let a
  complete root above a cycle pass, and the translation comes to an operand that has no translation yet, which an
  assertion stops (`ParseFiles.ShareCycle`). That happens if and only if the operands of some root with nothing
  missing lead on for ever (`Naming.DepParser.ShareRoots`, `ParseFiles.CyclicRootMeans`).
- The bounds test of BrainF is emitted after moves only. A program compiled with the flag for a tape of no cells can
  still fault before its first move; this happens exactly when the tape is empty (`BrainFCorrect.UntestedStart`,
  `BrainFCorrect.CheckedNeverTraps`).
- `normalize` asserts that the scaled total fits 32 bits. After a 64-bit overflow the total is the sum of the combined
  weights rounded to 2^33, so that whether it fits can be told from the weights
  (`BlockDistribution.OverflowedExactly`). Two maximal weights do not fit (`BlockDistribution.LargestPairDoesNotFit`);
  two targets fail exactly when both combined weights are within rounding distance of the top
  (`BlockDistribution.TwoTargetsFit`).
- The struct-field test of `aliasSameBasePointerGEPs` adds sizes modulo 2^64, so a huge access passes it
  (`StructAlias.WrappingTestFails`); it is exact when the sums do not wrap (`StructAlias.WrappingTestExact`). Even
  then it speaks about the distance of two array elements only as an integer: if the address arithmetic itself may
  wrap, a struct of twelve bytes passes the test and its fields can meet (`StructAlias.TwelveByteStructs`).
- The constant-offset branches of `aliasGEP` answer NoAlias for an access of 2^64 - 4 bytes that meets the other one
  (`GepAlias.LargeAccesses`); the answer is right exactly when the access that lies behind does not run past the end
  of the address space (`GepAlias.ConstantExact`, `GepAlias.NegativeExact`, and for whole pointers
  `GepAlias.ResolveGeps`).
- The pairwise reduction matcher never compares the width of its input with the width of the root, so it accepts an
  input with fewer lanes, filled up from the second shuffle operand (`Reductions.ShortInputIsMatched`). A matched tree
  is the fold of its input, under all associative and commutative operators, if and only if the input is as wide as
  the root (`Reductions.PairwiseExact`).
- The same matcher builds the mask it expects with as many entries as the shuffle has lanes, but writes one entry for
  every pair of the level. Below an eight-lane root it writes four entries into masks of two
  (`Reductions.NarrowBelowWide`). It stays inside its masks if and only if every level that it comes to has at least
  as many lanes as pairs (`Reductions.WritesInsideExactly`).
- Supplying the same input port of a node twice leaves the first source with a stale user, exactly when that was the
  only port it fed (`ParseFiles.SupplyTwice`, `Naming.DepParser.RegisterEdge`).
- `NumberedInstCache::dominates(A, A)` answers true while A is not numbered and false once it is, and the query itself
  numbers it (`InstCache.AskTwice`, `InstCache.NumberedInstCache.Dominates`).
- The edge line of the parser checks the global id of a local number that may never have been declared; an absent
  local number reads as id 0, so the check passes, for any number at all, if and only if some node has been named in
  this or an earlier file (`ParseFiles.CheckMeansSomeName`). Then only an assertion stands between an edge from an
  undeclared number and the missing table entry (`ParseFiles.UndeclaredPasses`, and the input in
  `ParseFiles.ReadUndeclaredSource`).
- The number of nodes survives from file to file but the table of nodes does not: a node line is written outside the
  emptied table if and only if an earlier file allowed its number and this file has not yet given its own
  (`ParseFiles.ReadForgottenCount`, `ParseFiles.ForgottenCount`).

## Model

| member | source | states |
|---|---|---|
| BrainFSource.NestingIsBalance | llvm-3.7.0/examples/BrainF/BrainF.cpp:418-467 | The verdict on the brackets is success exactly for balanced programs |
| BrainFSource.NestingMeaning | llvm-3.7.0/examples/BrainF/BrainF.cpp:418-467 | From any point on, success means that the nesting depth never goes below zero and ends at zero |
| BrainFSource.SkipClosed | llvm-3.7.0/examples/BrainF/BrainF.cpp:21-22 | Looking for an outer closing bracket may jump over a closed inner loop |
| BrainFSource.SkipOpened | llvm-3.7.0/examples/BrainF/BrainF.cpp:21-22 | The same backwards, for opening brackets |
| BrainFSource.ChangesAdd | llvm-3.7.0/examples/BrainF/BrainF.cpp:17-18 | Executing a run of + and - one by one adds their sum to the cell modulo 256 |
| BrainFSource.MovesPartway | llvm-3.7.0/examples/BrainF/BrainF.cpp:19-20 | Executing a run of < and > one by one moves the head by their sum; with the flag the tape is left only at the run's end |
| BrainFSource.CommentsDoNothing | llvm-3.7.0/examples/BrainF/BrainF.cpp:410-412 | Other characters change nothing |
| BrainFIdioms.CloseMeans | llvm-3.7.0/examples/BrainF/BrainF.cpp:21-22 | The bracket a zero cell jumps to is the first at which more are closed than were opened since, and never is there one before it |
| BrainFIdioms.OpenMeans | llvm-3.7.0/examples/BrainF/BrainF.cpp:21-22 | The bracket jumped back to is the last before which as many are open, with none fewer in between |
| BrainFIdioms.Echo | llvm-3.7.0/examples/BrainF/BrainF.cpp:15-16 | The program ,. stores and writes the next input byte, or 255 at the end of the input, which is consumed no further |
| BrainFIdioms.AddLoop | llvm-3.7.0/examples/BrainF/BrainF.cpp:15-22 | The program [->+<] adds any cell to its neighbour modulo 256 and leaves zero behind, with or without the tests |
| BrainFSource.OnTapeStep | llvm-3.7.0/examples/BrainF/BrainF.cpp:245-266 | With the flag, between runs the head is on the tape after every step |
| BrainFSource.CheckedRunsNeverFault | llvm-3.7.0/examples/BrainF/BrainF.cpp:245-266 | So no run of a checked program on a non-empty tape touches a cell outside it |
| BrainFIR.AddressMeaning | llvm-3.7.0/examples/BrainF/BrainF.cpp:245-258 | The two unsigned pointer comparisons are true together exactly for heads outside the tape, whatever the addresses wrap to |
| BrainFCompiler.BrainF.constructor | llvm-3.7.0/examples/BrainF/BrainF.cpp:52-182 | The header emits the entry, end and error blocks; nothing of the text has been compiled |
| BrainFCompiler.BrainF.ReadSymbol | llvm-3.7.0/examples/BrainF/BrainF.cpp:312-415 | The lexer consumes a stretch of text that spells the returned symbol with its coalesced value, and at most one symbol beyond it |
| BrainFCompiler.BrainF.EmitRead | llvm-3.7.0/examples/BrainF/BrainF.cpp:201-216 | The layout of everything emitted is kept, with the read added as the next segment |
| BrainFCompiler.BrainF.EmitWrite | llvm-3.7.0/examples/BrainF/BrainF.cpp:218-236 | The same for a write |
| BrainFCompiler.BrainF.EmitMove | llvm-3.7.0/examples/BrainF/BrainF.cpp:238-268 | The same for a coalesced move, which with the flag ends its block with a bounds test |
| BrainFCompiler.BrainF.EmitTest | llvm-3.7.0/examples/BrainF/BrainF.cpp:245-266 | Exactly the current block gets the test and the branch to the error block, and emission goes on in one new block |
| BrainFCompiler.BrainF.EmitChange | llvm-3.7.0/examples/BrainF/BrainF.cpp:270-282 | The same for a coalesced change |
| BrainFCompiler.BrainF.BeginLoop | llvm-3.7.0/examples/BrainF/BrainF.cpp:284-304 | A loop is opened: its test block starts with a half-finished phi node that knows the head from before the loop |
| BrainFCompiler.BrainF.FinishLoop | llvm-3.7.0/examples/BrainF/BrainF.cpp:424-456 | The phi node is completed and the loop's two ends are paired with the matching brackets of the text |
| BrainFCompiler.BrainF.CompileSymbol | llvm-3.7.0/examples/BrainF/BrainF.cpp:194-310 | One symbol is compiled and the layout now covers its text, or the error is the one the whole text deserves |
| BrainFCompiler.BrainF.CompileLoop | llvm-3.7.0/examples/BrainF/BrainF.cpp:284-304 | The recursive call compiles the text up to the matching bracket |
| BrainFCompiler.BrainF.ReadBody | llvm-3.7.0/examples/BrainF/BrainF.cpp:194-416 | The loop over symbols ends at the bracket that closes this nesting level or at the end of the text |
| BrainFCompiler.BrainF.ReadLoop | llvm-3.7.0/examples/BrainF/BrainF.cpp:184-468 | readloop as a whole: its result is the verdict on the rest of the text, and on success the code is laid out for all of it |
| BrainFCompiler.BrainF.FinishProgram | llvm-3.7.0/examples/BrainF/BrainF.cpp:461-467 | The end of the program branches to the end block; inside a loop that is an error |
| BrainFCompiler.BrainF.Parse | llvm-3.7.0/examples/BrainF/BrainF.cpp:40-50 | Compilation succeeds exactly for balanced programs, with a complete layout |
| BrainFCorrect.OneRound | llvm-3.7.0/examples/BrainF/BrainF.cpp:184-468 | From related states, some steps of the source and some of the emitted blocks lead to related states again |
| BrainFCorrect.SameBehaviour | llvm-3.7.0/examples/BrainF/BrainF.cpp:12-22 | For every input and every initial memory, program and code agree on output, input consumed, tape and ending, at arbitrarily late points of their runs |
| BrainFCorrect.SameEnding | llvm-3.7.0/examples/BrainF/BrainF.cpp:184-468 | One of them ends in a given way if and only if the other does |
| BrainFCorrect.NeverStuck | llvm-3.7.0/examples/BrainF/BrainF.cpp:184-468 | The emitted code never uses an undefined register, a missing phi entry or an unfinished block |
| BrainFCorrect.CheckedNeverTraps | llvm-3.7.0/examples/BrainF/BrainF.cpp:245-266 | With the flag and a non-empty tape every executed load and store is inside the tape |
| BrainFCorrect.UntestedStart | llvm-3.7.0/examples/BrainF/BrainF.cpp:245-282 | The checked program + faults exactly when the tape has no cells |
| BrainFCorrect.Parse | llvm-3.7.0/examples/BrainF/BrainF.cpp:40-50 | The whole compiler: success exactly for balanced text, and then the code behaves like the text in every world |
| Terms.ComputeKLevEqual | tautomata-inf/src/Term.cpp:141-162 | The recursive comparison decides k-root equality, which KLevEqualByPaths tells without recursion |
| Terms.KLevEqualByPaths | tautomata-inf/src/Term.cpp:141-162 | Terms are equal to depth k if and only if every sequence of at most k operand positions leads nowhere from both or to terms of one id and one number of operands |
| Terms.KLevSym | tautomata-inf/src/Term.cpp:141-162 | k-root equality is symmetric |
| Terms.KLevTrans | tautomata-inf/src/Term.cpp:141-162 | and transitive |
| Terms.KLevMonotone | tautomata-inf/src/Term.cpp:141-162 | Terms equal to a depth are equal to every smaller depth |
| Terms.KRelIsCongruence | tautomata-inf/src/Term.cpp:141-162 | k-root equality is a congruence |
| Terms.LeastIsCongruence | tautomata-inf/src/CClosure.cpp:42-44 | The intersection of all congruences with the requested pairs is one itself |
| Partition.MergeClassesOf | tautomata-inf/src/ENode.h:55-89 | Joining removes one root, unites exactly two disjoint classes and leaves the others alone |
| Partition.SmallerMoves | tautomata-inf/src/CClosure.cpp:74-81 | When the smaller class is relabelled, two to the number of times a term has moved stays within the size of its class |
| Partition.MergeSound | tautomata-inf/src/CClosure.cpp:134-134 | Joining the classes of a related pair relates no other terms |
| ENodes.ENode.GetRepresentative | tautomata-inf/src/ENode.h:37-45 | Parent chains have length at most one, so the walk ends at the root |
| ENodes.ENode.Absorb | tautomata-inf/src/ENode.h:55-89 | The list of the other class is appended, emptied there, and all its nodes point here |
| CClosure.Closure.constructor | tautomata-inf/src/CClosure.h:62-62 | All tables start empty |
| CClosure.Closure.Hash | tautomata-inf/src/CClosure.h:34-57 | The hash is the hash function of the id and of the ids of the operands' representatives, an operand not yet checked in standing for itself; congruent terms have one hash by CongruentHash |
| CClosure.Closure.Checkin | tautomata-inf/src/CClosure.cpp:11-31 | A new term gets a class of its own, its uses and one entry under its hash; a known one changes nothing |
| CClosure.Closure.Merge | tautomata-inf/src/CClosure.cpp:42-44 | The pair goes to the end of the work list and widens the least congruence accordingly |
| CClosure.Closure.RemoveUses | tautomata-inf/src/CClosure.cpp:83-109 | The uses listed for the term, each once, leave the buckets of their present hashes, and its use list goes |
| CClosure.Closure.Downward | tautomata-inf/src/CClosure.cpp:112-132 | Exactly one pair is pushed, the last operand of one and the first of the other, and only if all operands of the one are in the class of that first operand |
| CClosure.Closure.PickClasses | tautomata-inf/src/CClosure.cpp:62-78 | The two representatives, the smaller class first, the second term's on a tie |
| CClosure.Closure.UnionClasses | tautomata-inf/src/CClosure.cpp:62-81 | The smaller class is relabelled, the second one on a tie; one merge is counted, exactly the terms with a new representative count one more move, and the node objects follow the classes |
| CClosure.Closure.SameOps | tautomata-inf/src/CClosure.cpp:167-179 | The loop decides whether operands are in the same classes one by one |
| CClosure.Closure.FindCongruent | tautomata-inf/src/CClosure.cpp:156-185 | Exactly the congruent terms of the bucket are pushed, in the bucket's order, and counted |
| CClosure.Closure.Reinsert | tautomata-inf/src/CClosure.cpp:142-188 | All uses are listed for the other term and enter the table one by one under their new hashes, each meeting the earlier ones |
| CClosure.Closure.MergeClasses | tautomata-inf/src/CClosure.cpp:74-189 | One merge as a whole: classes, lookup table, use lists, work list and both counters, for the order in which the uses were taken |
| CClosure.Closure.ProcessPair | tautomata-inf/src/CClosure.cpp:54-193 | A popped pair of one class changes nothing, another pair makes exactly one merge |
| CClosure.Closure.Propagate | tautomata-inf/src/CClosure.cpp:46-194 | It terminates by a chain of such rounds; every requested pair ends together, only pairs of the least congruence do, and merges plus classes count the terms; what a round finds is told by MergeFindsAll |
| CClosure.SettledFacts | tautomata-inf/src/CClosure.cpp:49-193 | A round never separates terms, joins its pair, keeps what is waiting and either leaves all as it was or lowers the number of classes |
| CClosure.FewChanges | tautomata-inf/src/CClosure.cpp:74-81 | Over any run of rounds, each of which counts one move for exactly the terms with a new representative, two to the count of a term stays within the size of its class |
| LeastClasses.LeastWhenSeedsClosed | tautomata-inf/src/CClosure.cpp:46-194 | If the requests, closed as an equivalence, are a congruence, the final classes are the least congruence |
| LeastClasses.LeastWhenNoneMissed | tautomata-inf/src/CClosure.cpp:46-194 | Final classes are the least congruence if and only if no two terms of one id with operands in the same classes are apart |
| LeastClasses.DoneIsLeast | tautomata-inf/src/CClosure.cpp:11-194 | So any closure object with closed requests and nothing left to do holds the least congruence |
| FoundCongruences.CongruentHash | tautomata-inf/src/CClosure.h:34-57 | Different terms of one id whose operands are in the same classes have one hash, whatever the hash function |
| FoundCongruences.CheckinFiles | tautomata-inf/src/CClosure.cpp:11-31 | Check-in keeps every term in the bucket of its present hash and in no other |
| FoundCongruences.MergeFindsAll | tautomata-inf/src/CClosure.cpp:83-188 | If every term with a relabelled operand is among the rehashed uses, a merge leaves every term under its new hash, and asks for every congruent pair that has a rehashed use or was not congruent before, in one direction or the other |
| FoundCongruences.RoundKeepsCurrent | tautomata-inf/src/CClosure.cpp:46-194 | So after such a round all congruent terms are in one class or waiting to be, if they were before it |
| FoundCongruences.RehashingIsLeast | tautomata-inf/src/CClosure.cpp:46-194 | A run of such rounds to an empty work list ends in the least congruence of the requests |
| FoundCongruences.InOrderRehashes | tautomata-inf/src/CClosure.cpp:62-151 | A round for two representatives, the first with the smaller class, is one, when each use list holds the users of the whole class, and keeps the use lists so |
| FoundCongruences.DownwardIsIdle | tautomata-inf/src/CClosure.cpp:112-132 | The pair that the downward step asks for is in one class already |
| MissedCongruence.UsesMeetExactly | tautomata-inf/src/CClosure.cpp:75-188 | After two leaves with one use each were asked to merge, every run to an empty work list leaves the uses in one class if and only if their hashes agree |
| MissedCongruence.LeastExactly | tautomata-inf/src/CClosure.cpp:75-188 | and the classes are the least congruence if and only if they do |
| MissedCongruence.MergeTwoLeaves | tautomata-inf/src/CClosure.cpp:11-194 | Both from an empty closure by check-in, merge and propagate; the least congruence relates the uses |
| KLevelHash.Sweep | tautomata-inf/src/Term.cpp:111-125 | The sweep leaves the hashes of the specification, term by term in the order given |
| KLevelHash.TopDownIsLevel | tautomata-inf/src/SDGInference.cpp:211-212 | A sweep that updates terms before their operands computes the next level from the previous one only |
| KLevelHash.SweepExactlyTopDown | tautomata-inf/src/KRootHash.h:10-13 | It does so for every hash function and all old hashes if and only if the order is top-down |
| KLevelHash.EqualHashes | tautomata-inf/src/SDGInference.cpp:211-231 | After k top-down sweeps k-equal terms have one hash |
| KLevelHash.KEqualMeansDeep | tautomata-inf/src/SDGInference.cpp:236-239 | The assertion of the seeding loop: k-equal but different shared terms are deeper than k |
| BfsSweep.BfsVisit | tautomata-inf/src/TermVisitor.cpp:54-76 | The level-by-level visitor with its marks and successor lists visits in the breadth-first order |
| BfsSweep.BfsMeaning | tautomata-inf/src/TermVisitor.cpp:54-76 | That order is exactly the terms at or below the roots, each once, nearer ones before farther ones |
| BfsQueue.BfsIsQueue | tautomata-inf/src/TermVisitor.cpp:54-76 | And in which order: first the roots as given, then the operands of what it lists, term by term and position by position, each where it comes first |
| BfsSweep.AllBelow | tautomata-inf/src/SDGInference.cpp:176-185 | If the roots are the terms that no term uses, everything is at or below a root |
| BfsSweep.KRootHashes | tautomata-inf/src/SDGInference.cpp:211-212 | The loop of sweeps leaves the hashes of cutoff sweeps in that order |
| BfsSweep.ExampleSweep | tautomata-inf/src/TermVisitor.cpp:54-91 | For two given roots that order covers all terms and is not top-down |
| BfsSweep.BfsMissesAMerge | tautomata-inf/src/SDGInference.cpp:211-248 | With hashes from that sweep, by any hash function and whatever the closure does, two 1-equal terms end in one class if and only if the function gives one value to the two arguments it is called with |
| SweepUnfolding.HashesAgreeExactly | tautomata-inf/src/Term.cpp:111-125 | k-equal terms get one hash from every hash function if and only if the sweeps unfold them alike |
| SweepUnfolding.TopDownUnfoldsAlike | tautomata-inf/src/SDGInference.cpp:211-212 | Top-down orders do so |
| SweepUnfolding.KRootsExactly | tautomata-inf/src/SDGInference.cpp:211-251 | For one hash function the learned classes are sure to be the k-roots if and only if it hashes k-equal terms alike |
| SweepUnfolding.ClassesExactly | tautomata-inf/src/SDGInference.cpp:211-251 | For all hash functions together, if and only if the order of visiting unfolds k-equal terms alike |
| Learn.SeedOne | tautomata-inf/src/SDGInference.cpp:227-248 | After each term the table holds pairwise unequal k-roots and every term handled is one of them or was merged with one |
| Learn.CheckInTerms | tautomata-inf/src/SDGInference.cpp:183-190 | After the check-in loop every term is alone, in the bucket of its own hash and in no other, and has its users listed |
| Learn.ClassesAreKEqual | tautomata-inf/src/SDGInference.cpp:222-251 | Terms of one class are k-equal |
| Learn.KEqualAreMerged | tautomata-inf/src/SDGInference.cpp:227-251 | k-equal terms of one hash were merged with the same entry |
| Learn.LearnClasses | tautomata-inf/src/SDGInference.cpp:183-251 | Check-in in one order, seeding in another and closure together: the classes are the k-roots of equal hash, reached by a run from terms on their own, each filed under its hash, whose move counters started at zero, and no term changed its representative more than log2 of the number of terms |
| Learn.ClassesAreKRoots | tautomata-inf/src/SDGInference.cpp:183-251 | After top-down sweeps two terms share a class if and only if they are k-equal |
| Learn.SeedsAreClosed | tautomata-inf/src/SDGInference.cpp:225-248 | After top-down sweeps the requests of the seeding loop, closed as an equivalence, are a congruence |
| Learn.ClassesAreLeastCongruence | tautomata-inf/src/SDGInference.cpp:225-251 | and if and only if the least congruence of the requests relates them |
| Splice.SplicedInverse | tautomata-inf/src/BuildAutomaton.cpp:41-60 | A splice keeps operands and users exact inverses of each other |
| TreeLanguage.SpliceMeaning | tautomata-inf/src/BuildAutomaton.cpp:41-60 | After a splice a term generates exactly the trees it generated before when members of the class may stand for each other, even if the graph becomes cyclic |
| TreeLanguage.SpliceKeepsTrees | tautomata-inf/src/BuildAutomaton.cpp:41-60 | So no term loses a tree |
| TreeLanguage.StateMeaning | tautomata-inf/src/BuildAutomaton.cpp:41-60 | A state generates the union of its members |
| Build.BuildAutomaton.constructor | tautomata-inf/src/CClosure.cpp:196-200 | Before any visit the automaton is the term graph |
| Build.LabelState | tautomata-inf/src/BuildAutomaton.cpp:41-44 | A new state gets its hash and depth from its members and is filed under that hash; no other label changes |
| Build.BuildAutomaton.SubstOp | tautomata-inf/src/Term.cpp:75-88 | Every occurrence of the operand is replaced and the replacement learns of its user exactly if there was one |
| Build.BuildAutomaton.NewState | tautomata-inf/src/Term.cpp:42-68 | The members gain the fresh state as a user and nothing else changes |
| Build.BuildAutomaton.RedirectUses | tautomata-inf/src/BuildAutomaton.cpp:46-60 | After a member is handled all its users but the state use the state instead, and the state is its only user |
| Build.BuildAutomaton.SpliceState | tautomata-inf/src/BuildAutomaton.cpp:27-60 | Handling all members makes exactly the graph in which the class was replaced by the state |
| Build.BuildAutomaton.VisitNode | tautomata-inf/src/BuildAutomaton.cpp:8-63 | Only a representative of a class with other members gets a state; no term's language shrinks |
| Build.BuildAutomaton.Visit | tautomata-inf/src/TermVisitor.cpp:38-43 | The post-order visit leaves all operands of what it visited visited and serves every representative it meets, and it meets terms only along edges that were there when it began; no tree is lost |
| Build.BuildAutomaton.VisitPost | tautomata-inf/src/TermVisitor.cpp:18-27 | The same for the operands in turn, while they may turn into states |
| Build.BuildAutomaton.RebuildAutomaton | tautomata-inf/src/CClosure.cpp:196-206 | All roots are visited in a run of such walks, the number of states is the counter's difference, every term keeps its trees, and a class of several terms has a state if and only if its representative was visited |
| UnservedClass.RebuildExample | tautomata-inf/src/BuildAutomaton.cpp:8-63 | Over the 0-root classes of nine terms the walk leaves a class of two terms without a state, and a tree that the k-roots stand for is not generated |
| Build.SplicedFinal | tautomata-inf/src/BuildAutomaton.cpp:61-62 | The closing assertion: the state has no users exactly when no member had any |
| Build.StatesStay | tautomata-inf/src/BuildAutomaton.cpp:41-60 | Each served class still has its members used by its state only after further splices |
| Build.OpsMove | tautomata-inf/src/BuildAutomaton.cpp:49-56 | Operands are the original ones, with served classes replaced by their states |
| Pipeline.MembersAreApart | tautomata-inf/src/Acceptor.cpp:114-117 | A member of a state is an operand of that state only |
| Pipeline.RebuiltIsReady | tautomata-inf/src/BuildAutomaton.cpp:8-63 | A rebuilt automaton has exact users, members used by their state only, and no two equal nodes without states below |
| Pipeline.CopyIsFiled | tautomata-inf/src/SDGInference.cpp:255-259 | A term of the automaton that copies a test tree was learned from, untouched, and lies in the bucket of the test term's hash |
| Pipeline.IdsAreApart | tautomata-inf/src/SDGInference.cpp:253-253 | No test term has the id of a state, and ids have one arity in the automaton and the test table |
| Pipeline.JoinedIsSane | tautomata-inf/src/SDGInference.cpp:255-270 | All that the acceptor assumes holds of every rebuilt automaton and test table filled under one naming |
| TreeMatch.GoodByOperands | tautomata-inf/src/Acceptor.cpp:138-208 | The terms generating a tree are exactly those with its id whose operands are, position by position, matches or states above matches |
| TreeMatch.CopyGenerates | tautomata-inf/src/Acceptor.cpp:94-106 | An exact copy generates the tree |
| TreeMatch.CopyIsOnly | tautomata-inf/src/Acceptor.cpp:114-117 | and is the only term that does, cycles elsewhere notwithstanding |
| Acceptance.Equal.Test | tautomata-inf/src/Acceptor.cpp:19-46 | The memoised comparison decides whether one term is a copy of another |
| Acceptance.Collect.Visit | tautomata-inf/src/Acceptor.cpp:64-86 | The search visits all states above a term and finds the matching users of each |
| Acceptance.Collect.Collected | tautomata-inf/src/Acceptor.cpp:162-166 | So it adds exactly the terms of the sought id with the term, or a state above it, at the sought position |
| Acceptance.GoodFitsEverywhere | tautomata-inf/src/Acceptor.cpp:138-208 | A term generates the test term's tree if and only if it fits at every operand position |
| Acceptance.LeafIsCopied | tautomata-inf/src/Acceptor.cpp:229-232 | A leaf without a copy is generated by nothing |
| Acceptance.Acceptor.ExactMatch | tautomata-inf/src/Acceptor.cpp:94-106 | The bucket of the hash yields exactly the copies |
| Acceptance.Acceptor.Predecessors | tautomata-inf/src/Acceptor.cpp:158-166 | Exactly the candidates that fit at one position |
| Acceptance.Acceptor.VisitOperands | tautomata-inf/src/Acceptor.cpp:124-136 | The loop gives up only when nothing can match |
| Acceptance.Acceptor.Intersection | tautomata-inf/src/Acceptor.cpp:141-208 | The intersection over all positions is exactly the terms generating the tree |
| Acceptance.Acceptor.Visit | tautomata-inf/src/Acceptor.cpp:89-233 | match[t] becomes exactly the terms that generate t's tree, and final terms are counted exactly when there is one |
| Acceptance.Acceptor.AcceptFinals | tautomata-inf/src/SDGInference.cpp:268-277 | The number of accepted test graphs is the number of final test terms with a match |
| Inference.AutomatonLanguage | tautomata-inf/src/BuildAutomaton.cpp:8-63 | A training term generates a tree in the finished automaton if and only if the classes with states derive it |
| Inference.StateIsUnion | tautomata-inf/src/BuildAutomaton.cpp:41-60 | A state accepts exactly what some member of its class accepts |
| Inference.MatchesDerive | tautomata-inf/src/SDGInference.cpp:268-277 | With the tables and the automaton as the stages before leave them, the acceptor matches a test term with exactly the training terms that derive its tree |
| Inference.TrainingIsAccepted | tautomata-inf/src/SDGInference.cpp:250-277 | Every training tree is accepted by the automaton learned from it |
| Inference.LearnedClasses | tautomata-inf/src/SDGInference.cpp:211-251 | After sweeps that unfold k-equal terms alike the learned classes are the k-roots |
| Inference.InferredLanguage | tautomata-inf/src/SDGInference.cpp:174-277 | A match is derivable by exchanging k-equal subterms, and if all non-trivial classes were served the converse holds too |
| Inference.AllServedExactly | tautomata-inf/src/BuildAutomaton.cpp:8-19 | All classes of several terms have states if and only if the walk has met all their representatives |
| Inference.Snapshot | tautomata-inf/src/CClosure.cpp:200-200 | The automaton builder receives the classes as lists without repetitions |
| Inference.SweepsCover | tautomata-inf/src/SDGInference.cpp:176-212 | Sweeps from the final terms of a table reach every term of it |
| Inference.LearnFrom | tautomata-inf/src/SDGInference.cpp:174-251 | From the training table: check-in, breadth-first sweeps, sorting, seeding and closure leave classes learned from the hashes of those sweeps |
| Inference.Infer | tautomata-inf/src/SDGInference.cpp:174-253 | The whole learning run over a table: such classes, then an automaton in which no training tree is lost and all roots are reached |
| Inference.CountsAccepted | tautomata-inf/src/SDGInference.cpp:271-277 | Counting test terms one by one gives the number of final ones with a match |
| Inference.Accept | tautomata-inf/src/SDGInference.cpp:268-277 | The whole testing run over the two tables: it establishes what the acceptor assumes, and the number counted is that of the accepted final test terms |
| Inference.AcceptedIsDerived | tautomata-inf/src/SDGInference.cpp:268-277 | A test term is accepted if and only if it is final and some training term derives its tree |
| Inference.ReadTable | tautomata-inf/src/SDGInference.cpp:102-154 | One directory is read by a parser of its own under the names and signatures so far, and all its complete roots are in its table, unless a file is refused for one of the stated reasons |
| Inference.TrainAndTest | tautomata-inf/src/SDGInference.cpp:102-277 | From the files to the count: if no file is refused, both tables hold the complete roots of their files, the automaton is the learned one, and the count is right; otherwise some file was refused for one of the stated reasons |
| SharedTerms.SameTreeSameTerm | tautomata-inf/src/CSE.cpp:9-61 | In a table without two equal nodes, terms spelling one tree are one term |
| SharedTerms.Label | tautomata-inf/src/Term.cpp:90-109 | Hash and depth follow from the operands' |
| SharedTerms.LabelIs | tautomata-inf/src/Term.cpp:90-109 | and are functions of the tree alone |
| SharedTerms.DepthIsLongest | tautomata-inf/src/Term.cpp:28-40 | The depth is the length of the longest sequence of operand positions that leads anywhere |
| SharedTerms.SharedTable.NewTerm | tautomata-inf/src/CSE.cpp:57-60 | A new node keeps the table free of duplicates, correctly labelled and filed, with exact users |
| DeclaredGraph.RanksAreRanks | tautomata-inf/src/DependencyParser.cpp:95-103 | Every declared graph has a rank for the terms above no cycle, and a term with ranked operands only is ranked |
| DeclaredGraph.UnrankedIsEndless | tautomata-inf/src/DependencyParser.cpp:95-103 | A declared term has no rank if and only if it lies in a set each of whose terms has an operand in the set |
| DeclaredGraph.CompleteExactly | tautomata-inf/src/TermVisitor.cpp:93-109 | Where there is a rank, nothing missing below is the same by recursion and by closed sets |
| Consing.FullyDefined.Visit | tautomata-inf/src/TermVisitor.cpp:93-109 | The check fails only if something is missing below, and while it has not failed all operands of what it left are there and met; it ends on cycles |
| Consing.IsDefined | tautomata-inf/src/DependencyParser.cpp:262-267 | So it decides whether nothing is missing below a root, with or without cycles |
| Consing.CSE.Find | tautomata-inf/src/CSE.cpp:10-40 | The bucket search misses no equal node |
| Consing.CSE.Share | tautomata-inf/src/CSE.cpp:9-61 | The term returned spells the tree, and old terms keep theirs |
| Consing.CSE.VisitNode | tautomata-inf/src/CSE.cpp:9-61 | The node is translated and all earlier translations stay right |
| Consing.CSE.Visit | tautomata-inf/src/TermVisitor.cpp:38-43 | Everything below a term gets translated, if and only if no cycle is below it; otherwise it comes to an operand without a translation |
| Consing.TranslateRoots | tautomata-inf/src/DependencyParser.cpp:251-275 | If no complete root leads to a cycle, all complete roots of a file end translated in the shared table and the incomplete ones are counted; otherwise the translation stops |
| Consing.OneTermPerTree | tautomata-inf/src/CSE.cpp:9-61 | In the table, pointer equality is tree equality |
| Consing.SharedExactly | tautomata-inf/src/CSE.cpp:9-61 | Two parsed terms share a translation if and only if they are the same tree |
| Naming.RenamingEnds | tautomata-inf/src/DependencyParser.cpp:67-84 | Each renaming leaves fewer long enough names in the way |
| Naming.UnderscoredIs | tautomata-inf/src/DependencyParser.cpp:76-83 | The candidate names are the name with any number of underscores behind it |
| Naming.DepParser.GlobalId | tautomata-inf/src/DependencyParser.cpp:38-86 | The first of name, name_, name__ and so on that is new or has the wanted arity gets or keeps its id |
| Naming.DepParser.RegisterNode | tautomata-inf/src/DependencyParser.cpp:38-93 | The node is declared under that id with all operands missing; ids and arities of other names stay |
| Naming.DepParser.RegisterEdge | tautomata-inf/src/DependencyParser.cpp:95-103 | One operand is supplied; exact users stay exact if and only if no other operand loses its last mention |
| Naming.DepParser.LocalId | tautomata-inf/src/DependencyParser.cpp:187-187 | Looking up a number makes an entry; an absent one reads as id 0 |
| Naming.DepParser.CheckEdge | tautomata-inf/src/DependencyParser.cpp:187-229 | Which edges pass the checks, which are refused, and which leave the table of nodes |
| Naming.DepParser.ReadLine | tautomata-inf/src/DependencyParser.cpp:129-239 | Each line is refused, leaves the tables, or makes the step of the specification |
| Naming.DepParser.ReadLines | tautomata-inf/src/DependencyParser.cpp:129-239 | A file is read as far as its first bad line |
| FileMeaning.ReadsMeans | tautomata-inf/src/DependencyParser.cpp:115-239 | Told from the lines alone: each node line has its own term with as many operands as it says, under the id of the first name that fits; an operand is the node that the last line for it named, by the last declaration of its number since the number of nodes was given, and is missing if no line supplies it; a node's users are exactly those that lines connected |
| FileMeaning.RootsMean | tautomata-inf/src/DependencyParser.cpp:105-113 | The roots are the nodes that a number still stands for at the end and that no line has connected to anything |
| Naming.DepParser.ShareRoots | tautomata-inf/src/DependencyParser.cpp:251-281 | The complete roots of a file go into the shared table if and only if none of them leads to a cycle |
| Naming.DepParser.Parse | tautomata-inf/src/DependencyParser.cpp:115-290 | Any file into the shared table: every complete root has its shared term, old terms stay, and names, arities and the node count are all that the next file sees; or the file is refused, at a bad line, for lack of a node count, or at a complete root above a cycle |
| Naming.DepParser.GetRoots | tautomata-inf/src/DependencyParser.cpp:105-113 | Exactly the declared terms without users, none of which is an operand |
| Naming.OneArityPerId | tautomata-inf/src/DependencyParser.cpp:65-84 | Terms of one id have one number of operands, over all files |
| ParseFiles.ParseAll | tautomata-inf/src/SDGInference.cpp:128-149 | Any sequence of files into one table: each is read from where the one before ended, earlier files keep their shared terms, and arities stay one per id |
| ParseFiles.SameTreeAnywhere | tautomata-inf/src/CSE.cpp:9-61 | Complete roots of any two files have one shared term if and only if they are the same tree |
| ParseFiles.CyclicRootMeans | tautomata-inf/src/CSE.cpp:42-48 | Translation stops at a file if and only if the operands of a root with nothing missing lead on for ever |
| ParseFiles.ShareCycle | tautomata-inf/src/CSE.cpp:42-48 | Two nodes that are each other's operand below a third: the assertion on the visiting order fails |
| ParseFiles.CheckMeansSomeName | tautomata-inf/src/DependencyParser.cpp:187-216 | The check of a node number passes if and only if some node has been named, whether the number was declared or not |
| ParseFiles.UndeclaredPasses | tautomata-inf/src/DependencyParser.cpp:187-233 | An edge from an undeclared number to an existing port passes every check |
| ParseFiles.ReadUndeclaredSource | tautomata-inf/src/DependencyParser.cpp:95-98 | A file of three lines with such an edge, stopped by the assertion only |
| ParseFiles.RoomAfter | tautomata-inf/src/DependencyParser.cpp:137-146 | The table has room for the node count exactly if this file has given it |
| ParseFiles.ForgottenCount | tautomata-inf/src/DependencyParser.cpp:147-180 | A node line leaves the table if and only if only an earlier file had given a count that allows it |
| ParseFiles.ReadForgottenCount | tautomata-inf/src/DependencyParser.cpp:147-180 | A file announcing one node, then one with that node only, leave the table |
| ParseFiles.SupplyTwice | tautomata-inf/src/DependencyParser.cpp:95-103 | Two sources for one port: the first keeps a stale user |
| Cfg.RankMeansAcyclic | llvm-3.7.0/lib/Analysis/CFG.cpp:22-26 | A graph whose edges descend some rank has no cycle |
| BackEdges.SkipKeeps | llvm-3.7.0/lib/Analysis/CFG.cpp:46-55 | The search invariant survives passing over a visited successor, reported or not |
| BackEdges.EnterKeeps | llvm-3.7.0/lib/Analysis/CFG.cpp:57-60 | and going down to a new block |
| BackEdges.LeaveKeeps | llvm-3.7.0/lib/Analysis/CFG.cpp:61-64 | and going back up |
| BackEdges.FindFunctionBackedges | llvm-3.7.0/lib/Analysis/CFG.cpp:27-66 | Without the reported edges the reachable graph is acyclic; every reported edge is a loop or closes a cycle of edges that are not reported; it is reported as often as its block has that successor; the blocks visited are exactly the reachable ones; and the order is that of the recursive search |
| BackEdges.EnterHeads | llvm-3.7.0/lib/Analysis/CFG.cpp:46-65 | Going down leaves unchanged what the recursive searches that the stack stands for will end with, and so do the other steps |
| DepthFirst.FirstSuccessorFirst | llvm-3.7.0/lib/Analysis/CFG.cpp:46-55 | Of a cycle with two entries the edge back to the successor listed first is reported |
| CfgReach.GetOutermostLoop | llvm-3.7.0/lib/Analysis/CFG.cpp:112-119 | The loop without parent around a block's innermost loop |
| CfgReach.GetExitBlocks | llvm-3.7.0/include/llvm/Analysis/LoopInfoImpl.h:62-73 | Exactly the successors outside the loop are appended |
| CfgReach.LoopContainsBoth | llvm-3.7.0/lib/Analysis/CFG.cpp:121-127 | True exactly if one loop holds both blocks |
| CfgReach.DryMeansNoPath | llvm-3.7.0/lib/Analysis/CFG.cpp:158-170 | An empty work list means that no path exists, although loop bodies were jumped over |
| CfgReach.PotentiallyReachableFromMany | llvm-3.7.0/lib/Analysis/CFG.cpp:129-171 | The answer is false if and only if fewer than 32 blocks hold the start and, with the exits of whole outermost loops for blocks in loops, all their successors, and neither the stop block nor a block sharing a loop with it; then no path exists; an answer true before giving up has a path; giving up takes 32 different blocks that the start leads to |
| CfgReach.LaterIsExecution | llvm-3.7.0/lib/Analysis/CFG.cpp:192-224 | One instruction can execute after another exactly in the cases the function distinguishes |
| CfgReach.PotentiallyReachable | llvm-3.7.0/lib/Analysis/CFG.cpp:185-234 | The same for instructions: false exactly when the blocks are shut off from each other in this way or, in one block outside loops, the order says so; from the entry block the answer is conservative in the stated way |
| BranchScale.DivideDigits | llvm-3.7.0/lib/Support/BranchProbability.cpp:48-64 | Long division in 32-bit digits gives the 64-bit quotient, or all ones if it does not fit |
| BranchScale.Scale | llvm-3.7.0/lib/Support/BranchProbability.cpp:28-65 | Scaling is the floor of num * n / d, saturated |
| BlockWeights.FoldCombines | llvm-3.7.0/lib/Analysis/BlockFrequencyInfoImpl.cpp:118-132 | Combining weights one by one gives each target the saturated sum of its weights |
| BlockWeights.FoldPermuted | llvm-3.7.0/lib/Analysis/BlockFrequencyInfoImpl.cpp:133-153 | The order of the weights does not matter |
| BlockWeights.CombineSorted | llvm-3.7.0/lib/Analysis/BlockFrequencyInfoImpl.cpp:133-153 | The in-place compaction of a sorted list keeps one entry per target with its combined weight, in the order of the targets |
| BlockWeights.CombineByHashing | llvm-3.7.0/lib/Analysis/BlockFrequencyInfoImpl.cpp:154-170 | So does the hash table, in any order, and it leaves the list alone if nothing was combined |
| BlockDistribution.PathsAgree | llvm-3.7.0/lib/Analysis/BlockFrequencyInfoImpl.cpp:133-170 | Both paths end with the same entries |
| BlockDistribution.CombineWeights | llvm-3.7.0/lib/Analysis/BlockFrequencyInfoImpl.cpp:171-179 | One entry per original target and kind, with the saturated sum; up to 128 weights end in the order of their targets |
| BlockDistribution.CombinedTotal | llvm-3.7.0/lib/Analysis/BlockFrequencyInfoImpl.cpp:214-222 | The asserted sum: combining keeps the total unless it passes 64 bits |
| BlockDistribution.RoundsToNearest | llvm-3.7.0/lib/Analysis/BlockFrequencyInfoImpl.cpp:180-186 | The shift divides by a power of two, rounding halves up |
| BlockDistribution.ScaledFits | llvm-3.7.0/lib/Analysis/BlockFrequencyInfoImpl.cpp:203-240 | Without overflow, up to 2^31 scaled weights sum to less than 2^32 |
| BlockDistribution.OverflowedFits | llvm-3.7.0/lib/Analysis/BlockFrequencyInfoImpl.cpp:208-240 | After one overflow they do if the true sum leaves room for the rounding of each target |
| BlockDistribution.OverflowedExactly | llvm-3.7.0/lib/Analysis/BlockFrequencyInfoImpl.cpp:208-240 | After an overflow the total for any number of targets is the sum of their combined weights, each rounded to 2^33 and at least one |
| BlockDistribution.Distribution.Add | llvm-3.7.0/lib/Analysis/BlockFrequencyInfoImpl.cpp:101-116 | The overflow flag is set exactly when the true sum has passed 64 bits |
| BlockDistribution.CountTargets | llvm-3.7.0/lib/Analysis/BlockFrequencyInfoImpl.cpp:171-179 | As many weights are left as there are targets |
| BlockDistribution.Distribution.Normalize | llvm-3.7.0/lib/Analysis/BlockFrequencyInfoImpl.cpp:187-241 | One target gets one. Of several, without overflow, each keeps its combined weight if the total has 32 bits; otherwise one power of two, which leaves the total 31 bits, serves all: each weight is its combined weight in such steps, to the nearest and at least one, and twice the new total plus the number of targets is at least 2^31. The total is the sum, fits 32 bits for up to 2^31 targets, and after an overflow if and only if the rounded combined weights do |
| BlockDistribution.TwoTargetsFit | llvm-3.7.0/lib/Analysis/BlockFrequencyInfoImpl.cpp:208-240 | With an overflow and two targets the total fits if and only if not both weights are near the top |
| BlockDistribution.LargestPairDoesNotFit | llvm-3.7.0/lib/Analysis/BlockFrequencyInfoImpl.cpp:240-240 | Two maximal weights normalise to a total of 2^32 |
| BlockMass.NoMassIsLost | llvm-3.7.0/lib/Analysis/BlockFrequencyInfoImpl.cpp:56-58 | The portions add up to the mass |
| BlockMass.DitherBounds | llvm-3.7.0/lib/Analysis/BlockFrequencyInfoImpl.cpp:60-71 | After i portions the remaining mass is proportional to the remaining weight, up to i |
| BlockMass.FairPortion | llvm-3.7.0/lib/Analysis/BlockFrequencyInfoImpl.cpp:60-71 | Each portion is its exact share up to its position in the list |
| BlockDistribute.DitheringDistributer.constructor | llvm-3.7.0/lib/Analysis/BlockFrequencyInfoImpl.cpp:83-88 | The remaining weight starts as the sum of the normalised weights |
| BlockDistribute.DitheringDistributer.TakeMass | llvm-3.7.0/lib/Analysis/BlockFrequencyInfoImpl.cpp:90-99 | A portion is the floor of its share and is subtracted without underflow |
| BlockDistribute.LoopData.GetHeaderIndex | llvm-3.7.0/include/llvm/Analysis/BlockFrequencyInfoImpl.h:229-235 | The header's own slot |
| BlockDistribute.BlockFrequencyInfo.DistributeMass | llvm-3.7.0/lib/Analysis/BlockFrequencyInfoImpl.cpp:394-427 | Place by place: a block that is a local target gains its portion, saturated, and no other block changes; likewise exactly the slot of each header that a back edge leads to; and the exits grow by the exit targets with their portions in order. All this is as if each portion had been delivered in turn |
| BlockDistribute.EachArrives | llvm-3.7.0/lib/Analysis/BlockFrequencyInfoImpl.cpp:394-427 | Delivering in turn puts every portion where it belongs, as no target comes twice |
| BlockDistribute.AllMassArrives | llvm-3.7.0/lib/Analysis/BlockFrequencyInfoImpl.cpp:394-427 | What the targets gain together is exactly the source's mass |
| BlockDistribute.AddMass | llvm-3.7.0/include/llvm/Analysis/BlockFrequencyInfoImpl.h:84-91 | The wrapping test saturates the sum |
| BlockDistribute.SubMass | llvm-3.7.0/include/llvm/Analysis/BlockFrequencyInfoImpl.h:93-101 | The wrapping test saturates the difference at zero |
| BitOps.LowestSetBit | llvm-3.7.0/lib/Analysis/BasicAliasAnalysis.cpp:1133-1133 | m ^ (m & (m - 1)) is the largest power of two dividing m |
| BitOps.OrZeros | llvm-3.7.0/lib/Analysis/BasicAliasAnalysis.cpp:1130-1132 | That power of the union of two numbers divides both, and is exactly that of one of them |
| BitOps.MaskIsRemainder | llvm-3.7.0/lib/Analysis/BasicAliasAnalysis.cpp:1138-1138 | Masking with a power of two less one is the remainder |
| GepAlias.ModuloTest | llvm-3.7.0/lib/Analysis/BasicAliasAnalysis.cpp:1127-1143 | The loop and the comparisons decide the modulo criterion |
| GepAlias.ModuloSound | llvm-3.7.0/lib/Analysis/BasicAliasAnalysis.cpp:1135-1142 | If it holds, the ranges are disjoint modulo 2^64 for all values of the indices |
| GepAlias.ModuloExact | llvm-3.7.0/lib/Analysis/BasicAliasAnalysis.cpp:1127-1143 | and it holds whenever they are disjoint for all integers as values: some make the ranges meet if it fails |
| GepAlias.ModuloExactAttained | llvm-3.7.0/lib/Analysis/BasicAliasAnalysis.cpp:1127-1143 | With one index of full width whose scale has the lowest bit of all, it is exact over the values that sign- and zero-extended indices can take |
| GepAlias.ByteIndex | llvm-3.7.0/lib/Analysis/BasicAliasAnalysis.cpp:1127-1143 | Without one it can be too careful: a byte index that never bridges a thousand bytes fails the criterion |
| GepAlias.ConstantExact | llvm-3.7.0/lib/Analysis/BasicAliasAnalysis.cpp:1103-1108 | For a constant offset the answer NoAlias is right if and only if the first access does not wrap |
| GepAlias.NegativeExact | llvm-3.7.0/lib/Analysis/BasicAliasAnalysis.cpp:1109-1123 | and for a negative one if and only if the second does not |
| GepAlias.CloserMeets | llvm-3.7.0/lib/Analysis/BasicAliasAnalysis.cpp:1103-1106 | A partial overlap answered for a small offset is one |
| GepAlias.ResolveDifference | llvm-3.7.0/lib/Analysis/BasicAliasAnalysis.cpp:1089-1150 | Which answer is given for which offsets, indices and sizes |
| GepAlias.GetIndexDifference | llvm-3.7.0/lib/Analysis/BasicAliasAnalysis.cpp:1474-1508 | The in-place loop computes the symbolic difference of the specification |
| GepAlias.DifferencePreserves | llvm-3.7.0/lib/Analysis/BasicAliasAnalysis.cpp:1474-1508 | That difference has the value of the one minus the value of the other modulo 2^64, for all values of the indices |
| GepAlias.DifferenceScales | llvm-3.7.0/lib/Analysis/BasicAliasAnalysis.cpp:1492-1506 | No zero scale is left behind |
| IndexDifference.DifferenceExact | llvm-3.7.0/lib/Analysis/BasicAliasAnalysis.cpp:1474-1508 | Each stable index is left once, with the difference of its scales in the two pointers, or not at all if that is zero; the other indices are all left, those of the second pointer negated |
| IndexDifference.CancelsExactly | llvm-3.7.0/lib/Analysis/BasicAliasAnalysis.cpp:1474-1508 | No index is left if and only if all are stable and have the same scales in both pointers |
| IndexDifference.SameIndicesCancel | llvm-3.7.0/lib/Analysis/BasicAliasAnalysis.cpp:1474-1508 | So a pointer's stable indices cancel against themselves |
| GepAlias.GepsNoAlias | llvm-3.7.0/lib/Analysis/BasicAliasAnalysis.cpp:1127-1143 | With variable indices left in the difference, its modulo criterion keeps the two accesses apart for all index values |
| GepAlias.ConstantGeps | llvm-3.7.0/lib/Analysis/BasicAliasAnalysis.cpp:1099-1126 | When the indices cancel out, the accesses meet for all index values or for none, as the constant offset says |
| GepAlias.ResolveGeps | llvm-3.7.0/lib/Analysis/BasicAliasAnalysis.cpp:1050-1150 | From two decomposed pointers to the answer: NoAlias is right for all index values if and only if nothing wraps at a constant distance, a constant distance answered otherwise always meets, and MustAlias is one address |
| GepAlias.LargeAccesses | llvm-3.7.0/lib/Analysis/BasicAliasAnalysis.cpp:1103-1123 | Two accesses, one of 2^64 - 4 bytes, answered NoAlias in either order although they meet |
| GepAlias.AddIndex | llvm-3.7.0/lib/Analysis/BasicAliasAnalysis.cpp:375-399 | Merging a scaled index keeps each variable once, no zero scale, and the sum modulo the pointer width |
| GepAlias.Narrow | llvm-3.7.0/lib/Analysis/BasicAliasAnalysis.cpp:388-393 | Shifting up and down gives a signed value congruent modulo the pointer width |
| StructAlias.AliasSameBasePointerGeps | llvm-3.7.0/lib/Analysis/BasicAliasAnalysis.cpp:836-926 | NoAlias exactly for two different constant fields of one struct, reached through arrays, that pass the test |
| StructAlias.RoomExact | llvm-3.7.0/lib/Analysis/BasicAliasAnalysis.cpp:914-919 | Without wrapping the test holds if and only if the fields are disjoint for every distance of the two structs |
| StructAlias.WrappingTestExact | llvm-3.7.0/lib/Analysis/BasicAliasAnalysis.cpp:914-919 | When the 64-bit test passes, the fields are disjoint if and only if its sums did not wrap harmfully |
| StructAlias.TestComplete | llvm-3.7.0/lib/Analysis/BasicAliasAnalysis.cpp:914-923 | Disjoint fields always pass one of the two tests |
| StructAlias.WrappingTestFails | llvm-3.7.0/lib/Analysis/BasicAliasAnalysis.cpp:914-919 | An access of 2^64 - 4 bytes passes and overlaps |
| StructAlias.SameBaseNoAlias | llvm-3.7.0/lib/Analysis/BasicAliasAnalysis.cpp:836-926 | A NoAlias for accesses that do not wrap means disjoint bytes for all values of the array indices |
| StructAlias.FieldsWithWrapping | llvm-3.7.0/lib/Analysis/BasicAliasAnalysis.cpp:896-919 | With wrapping addresses the exact criterion is the modulo test on the struct's size |
| StructAlias.TwelveByteStructs | llvm-3.7.0/lib/Analysis/BasicAliasAnalysis.cpp:902-919 | Twelve-byte structs pass the field test but not that criterion |
| Reductions.MatchVectorSplittingReduction | llvm-3.7.0/lib/Analysis/CostModel.cpp:305-379 | The loop recognises exactly the splitting trees of the specification |
| Reductions.SplittingReduces | llvm-3.7.0/lib/Analysis/CostModel.cpp:328-374 | Lane 0 of a recognised tree is the fold of all lanes of its deepest input, for every associative and commutative operator |
| ReductionTrees.SplittingExactly | llvm-3.7.0/lib/Analysis/CostModel.cpp:291-379 | A splitting reduction is matched, and starts from a vector, if and only if it is built over that vector step by step, with the shuffle on either side, on the left if the vector is itself a shuffle |
| Reductions.PairwiseBlocks | llvm-3.7.0/lib/Analysis/CostModel.cpp:161-240 | Lane i of a level is the fold of the i-th block of input lanes |
| Reductions.PairwiseReduces | llvm-3.7.0/lib/Analysis/CostModel.cpp:242-289 | Lane 0 of a recognised pairwise tree is the fold of its input's first lanes, also with the omitted shuffle, if the input is as wide as the root |
| Reductions.ShortInputShows | llvm-3.7.0/lib/Analysis/CostModel.cpp:161-240 | With a narrower input lane 0 is not the fold of the input, in the world where everything is one and operators add |
| Reductions.PairwiseExact | llvm-3.7.0/lib/Analysis/CostModel.cpp:161-289 | A recognised pairwise tree is the fold of its input under all associative and commutative operators if and only if the input is as wide as the root |
| ReductionTrees.PairwiseTreesExactly | llvm-3.7.0/lib/Analysis/CostModel.cpp:134-289 | A pairwise reduction is matched, and starts from a vector, if and only if it is built over it level by level, operands in either order, with the left shuffle missing at the root at most |
| Reductions.ShortInputIsMatched | llvm-3.7.0/lib/Analysis/CostModel.cpp:189-239 | A narrower input is accepted too, and then lane 0 holds lanes of another vector as well |
| Reductions.WritesInsideExactly | llvm-3.7.0/lib/Analysis/CostModel.cpp:139-159 | The masks are written inside their bounds if and only if every level that the matcher comes to has as many lanes as pairs |
| Reductions.NarrowBelowWide | llvm-3.7.0/lib/Analysis/CostModel.cpp:148-152 | An eight-lane tree that makes it write four entries into masks of two |
| Reductions.OutsideIsNoMatch | llvm-3.7.0/lib/Analysis/CostModel.cpp:148-152 | In the model such a tree is not matched |
| Reductions.FoldZip | llvm-3.7.0/lib/Analysis/CostModel.cpp:328-337 | Folding lane-wise results is combining the folds |
| InstCache.NumberedOrder | llvm-3.7.0/lib/Analysis/CaptureTracking.cpp:99-106 | When a prefix of the block is numbered, each of the three cached answers is the block order |
| InstCache.FirstFound | llvm-3.7.0/lib/Analysis/CaptureTracking.cpp:108-108 | The first of two new instructions met is the earlier one |
| InstCache.NumberedInstCache.Find | llvm-3.7.0/lib/Analysis/CaptureTracking.cpp:67-89 | The numbered prefix grows up to the first of the two |
| InstCache.NumberedInstCache.Dominates | llvm-3.7.0/lib/Analysis/CaptureTracking.cpp:95-109 | After any queries the answer for two distinct instructions is whether the first precedes the second; for one instruction, whether it was not yet numbered, and it is numbered afterwards |
| InstCache.AskTwice | llvm-3.7.0/lib/Analysis/CaptureTracking.cpp:95-109 | One query about an instruction and itself answers true, then false |
| OnceInit.NextKeeps | llvm-3.7.0/include/llvm/PassSupport.h:36-54 | The invariant of flag, threads and calls survives every atomic step |
| OnceInit.ExactlyOnce | llvm-3.7.0/include/llvm/PassSupport.h:36-54 | In every interleaving the function starts at most once, and who has left saw it finished |
| OnceInit.NobodyWaitsForNothing | llvm-3.7.0/include/llvm/PassSupport.h:46-53 | Once no winner is under way a waiting thread leaves within two of its steps |
| OnceInit.WinnerLeaves | llvm-3.7.0/include/llvm/PassSupport.h:39-45 | The winner runs the function, publishes and leaves |
| Barrier.NextKeeps | llvm-3.7.0/examples/ParallelJIT/ParallelJIT.cpp:149-217 | The invariant of counters and threads survives every step |
| Barrier.NobodyPassesEarly | llvm-3.7.0/examples/ParallelJIT/ParallelJIT.cpp:149-175 | A worker that is past the barrier has seen all workers and the controller arrive |
| Barrier.ControllerWaits | llvm-3.7.0/examples/ParallelJIT/ParallelJIT.cpp:177-199 | The controller passes only after all workers have arrived |
| Barrier.AssertionNeverFails | llvm-3.7.0/examples/ParallelJIT/ParallelJIT.cpp:158-158 | n never passes waitFor |
| Barrier.EveryoneGetsThrough | llvm-3.7.0/examples/ParallelJIT/ParallelJIT.cpp:149-217 | Every run is finite, and where no step is left everybody is past |

## Left out

- CClosure.Closure.RemoveUses: the order in which the uses are taken is arbitrary, because the original walks and sorts pointers; all results hold for every order.
- CClosure.Closure.Propagate: does not promise the least congruence for arbitrary requests, because the code does not reach it (see Findings).
- Build.BuildAutomaton.RebuildAutomaton: does not promise a state for every class, because the walk does not meet every representative (see Findings).
- Inference.InferredLanguage: the converse half assumes that all non-trivial classes were served; without that it is false (UnservedClass.RebuildExample), and Inference.AllServedExactly says when they were.
- Inference.LearnedClasses: assumes sweeps that unfold k-equal terms alike; the breadth-first order does not always do so (see Findings), and Inference.TrainAndTest promises the classes of the hashes it computed.
- Reductions.PairwiseReduces: assumes an input as wide as the root; without that it is false (Reductions.PairwiseExact).
- BlockDistribution.OverflowedFits: a sufficient bound on the sum of the weights; the exact condition is BlockDistribution.OverflowedExactly.
- GepAlias.ModuloExact: its values are all integers; what extended indices can take is the subject of GepAlias.ModuloExactAttained.
- Reductions.OutsideIsNoMatch: what the original answers after writing outside its mask is not modelled.
- StructAlias.SameBaseNoAlias: distances between array elements are integers; wrapping addresses are the subject of StructAlias.FieldsWithWrapping.
- CfgReach.PotentiallyReachableFromMany: dominator facts and loops are given as data, assumed correct and strongly connected; their computation is not modelled.
- BlockDistribution.Distribution.Normalize: sorting is an insertion sort, one of the permutations std::sort may return; weights overflowing 64 bits more than once are excluded as in the original's assertion.
- BlockDistribute.BlockFrequencyInfo.DistributeMass: block masses are slots of one array, headers a sorted list; the loop tree is not modelled.
- BrainFCorrect.SameBehaviour: run lengths and tape size fit a 32-bit int; getchar and putchar act on sequences, malloc returns some block that does not wrap around the address space, memset fills it.
- Barrier.EveryoneGetsThrough: no spurious wakeups; each call holds the mutex from its entry to its wait or exit.
- OnceInit.ExactlyOnce: sequentially consistent memory; the fences and the thread-sanitizer annotations are no steps of the model.
- Naming.DepParser.RegisterEdge: called with declared nodes and an existing port, which its assertion demands; output arities are ignored as in the original.
- Naming.DepParser.ReadLines: a line that the assertions of a debug build stop ends the reading; what a release build does with the missing entry is not modelled.
- Naming.DepParser.Parse: above a cycle the model stops where the assertion of a debug build does; what a release build makes of the missing translation is not modelled.
- ParseFiles.ParseAll: the order in which a directory lists its files is a parameter; a refused file ends the run, as exit does.
- Hash mixing (tautomata-inf/src/HashFunctions.cpp) is an uninterpreted function; every theorem holds for any.
- Term comparison order (TermSorter), randomness and statistics of tautomata-inf, except the counters named above.
- The character reader of the parsers, option parsing, directory walks, printing and DOT output: input and output only.
- GetLinearExpression, PHI speculation and the recursion of aliasCheck: a full SSA semantics would be needed.
- Scaled64 conversion, AliasSetTracker and CFLAliasAnalysis: they rest on headers outside the parts modelled.
- The costs computed from recognised reductions: table look-ups.
- isSafeToPrune and the capture trackers around the instruction cache: queries to other analyses.

# MiniSQL in Dafny

MiniSQL is a small relational engine. This project models its core in Dafny and proves what the
code is for: the B+ tree index and its file form, the nested-loop join, the query rewriter against
the expression evaluator, the expression parser, row files with DELETE and UPDATE, the write-ahead
log, the transaction manager and the thread pool as systems of interleaved steps, and the sort and
aggregate operators.

Code that changes state is modelled as classes and loops and proved against specification functions;
the laws about those functions are lemmas. Concurrency is modelled as state machines whose steps are
the shared-memory steps of the code. Exceptions and error results are `None` or failed runs.

## How the files fit together

| files | part |
|---|---|
| `BTree`, `BTreeLaws`, `BTreeRuns` | the B+ tree as a value: operations, what each keeps and means, whole runs, occupancy |
| `BPlusTree` | the linked B+ tree: nodes on the heap, changed in place, proved against the value |
| `BTreeSerial`, `BPlusTreeFile` | the saved node list; saving and loading linked trees |
| `PrimaryIndex` | building and reading a PRIMARY index |
| `Sequences` | concatenation |
| `Values`, `ValueLaws` | values, how they read and compare, and what that means |
| `Expressions`, `ExpressionLaws` | evaluation, and what each operator means |
| `Rewriter`, `Operators`, `Filter`, `FilterLaws` | the rewriter, WHERE as a pull operator, and what names mean in it |
| `PrintLaws` | which conditions print apart, and that the rewriter is right on plain ones |
| `Join`, `JoinLaws` | the nested-loop join iterator and what its runs are |
| `Grammar`, `GrammarLaws`, `Parser` | expression grammar and writer, their laws, the recursive-descent parser |
| `RowText`, `RowTextLaws`, `TableFile`, `Rewrites`, `Dml` | rows as text, the data file, DELETE and UPDATE |
| `Wal`, `Transactions`, `ThreadPool` | the log, transactions, the pool |
| `SortOrder`, `SortOperator` | ORDER BY |
| `Aggregates`, `Groups`, `GroupLaws`, `AggregateOperator` | GROUP BY and the aggregate functions |

## What the proofs found in the code

- Saving and loading an index gives the tree back exactly when it has at most two levels; children of
  deeper trees are taken from the wrong places (`BTreeSerial.CodedRoundTrip`). The leaf chain is
  right at every depth. `BTreeSerial.Read` places children at preorder offsets; it is a correction,
  not the code.
- Splitting an inner node shortens its key vector before copying the keys behind the middle, and so
  reads past its end. A run of calls does this exactly when its tree grows to three levels, the
  orders 0 and 1 apart (`BTreeRuns.ReadsPastEndIff`); five keys are enough at order 2
  (`BTreeRuns.FiveKeysReadPastEnd`). `BPlusTree.SplitInner` copies first; that is a correction.
- A row id of -1 makes its key invisible to the duplicate check and to deletion
  (`BTreeRuns.SeenAgainIff`): a run is answered as on a map exactly when no call meets such a key
  (`BTreeRuns.AnswersAreRightIff`).
- The branch of deletion that lowers the root is never taken (`BTreeLaws.RemoveRootRefines`).
- A node splits when it has more than `order` keys, so it holds up to `order` keys and `order + 1`
  children; the comment at `src/storage/BPlusTree.cpp:14` says one less of each.
- Two conditions that print alike are merged although they differ, such as IN conditions on one literal
  with different nested queries (`Rewriter.AlikePrintsLoseACondition`), or a = b and a = 'b'
  (`PrintLaws.QuotesAreLost`). Conditions of columns, integers, operators, NOT and calls never do
  (`PrintLaws.PlainWhereSameRows`).
- Folding cuts DOUBLE literals to whole numbers: 0.5 + 0.5 = 1 is rewritten to a condition that drops
  every row (`Rewriter.FoldedHalvesDropEveryRow`); `Rewriter.FoldLevelIff` says when the number stays.
- A RIGHT join that was drained, closed and opened again yields no row, because its marks and its
  phase are kept (`JoinLaws.ReopenedRightJoinIff`).
- Minus takes only INT and DOUBLE, and the minus of an INT is a BIGINT: a second minus on an integer is
  an error (`ExpressionLaws.MinusMeans`).
- NULL IN (SELECT ...) finds a NULL, unlike NULL = NULL (`ExpressionLaws.SubqueriesMean`).
- EXISTS is refused at the start of an expression, and a stray NOT behind a comparison is dropped
  (`GrammarLaws.ExistsCannotStart`, `GrammarLaws.StrayNotIsDropped`).
- A string with a comma or a newline, or spelled like NULL, is not kept by the row file
  (`RowTextLaws.FileSurvivesIff`); an UPDATE that assigns a text with a comma loses rows
  (`Dml.CommaLosesARow`), as full rows with one are passed over (`RowTextLaws.FullRowIsPassedOverIff`).
- Every DELETE and UPDATE that touches a row rewrites all rows and rounds their doubles to what they
  print (`Dml.DeleteLeavesTheOthers`, `Dml.UpdateReplacesTheMatches`).
- A second `begin` on a thread leaves its first transaction ACTIVE forever
  (`Transactions.TwoBeginsForgetTheFirst`, `Transactions.ForgottenForever`), and nothing else does
  (`Transactions.ForgottenIff`).
- A task submitted after the last exit check of a worker never runs (`ThreadPool.RunsAreSafe`,
  `ThreadPool.LateTaskNeverRuns`).
- BOOLEAN values throw when they are compared (`GroupLaws.BooleansDoNotCompare`). GROUP BY a BOOLEAN
  column so fails unless every key is NULL: a repeated truth value throws while the rows are gathered,
  and a single one when its group is handed out (`GroupLaws.BooleanKeysIff`). MIN and MAX fail on a
  second one (`Aggregates.ExtremesStreamIff`).
- ORDER BY over a column that mixes numbers and texts compares in a circle
  (`SortOrder.MixedKindsRunInACircle`); the comparator is a strict weak order exactly for uniform columns
  (`SortOrder.OrdersRowsIff`).
- A sort opened again after a failed opening also hands out the rows it had collected then
  (`SortOperator.SortOperator.Open`).

## Model

| member | source | states |
|---|---|---|
| BTree.LowerBound | src/storage/BPlusTree.cpp:94-95 | the position found splits the keys into those below the searched key and those not below it |
| BTree.ChildIndex | src/storage/BPlusTree.cpp:249-256 | the child chosen has every separator before it not above the key and every one behind it above |
| BTreeLaws.FindReadsEntries | src/storage/BPlusTree.cpp:204-225 | in a valid tree the search answers a row id stored with the key, or -1 if the key is in no leaf |
| BTreeLaws.FindIsLookup | src/storage/BPlusTree.cpp:204-225 | the search is the lookup in the finite map the tree stands for, with -1 for absent keys |
| BTreeLaws.InsertAddsEntry | src/storage/BPlusTree.cpp:90-179 | recursive insertion with splits adds exactly the new pair, at its place in key order |
| BTreeLaws.InsertKeepsValid | src/storage/BPlusTree.cpp:90-179 | for every order, inserting an absent key keeps keys strictly sorted, separators in order between their bounds, one more child than keys, at most `order` keys (one, for order 0) and all leaves at one depth; two halves meet at a separator inside the bounds |
| BTreeLaws.InsertRootRefines | src/storage/BPlusTree.cpp:51-71 | insertion at the root keeps the tree valid, adds a level exactly on a root split, and does to the map what an insertion does |
| BTreeLaws.RemoveDropsEntry | src/storage/BPlusTree.cpp:358-378 | deletion without merging keeps the tree valid and takes out its key alone |
| BTreeLaws.RemoveRootRefines | src/storage/BPlusTree.cpp:341-356 | deletion at the root removes exactly its key from the map; the branch that would lower the root changes nothing |
| BTreeLaws.LeavesHoldEntries | src/storage/BPlusTree.cpp:281-310 | the leaves from left to right hold exactly the entries in key order |
| BTreeLaws.LeavesBeforeAreBelow | src/storage/BPlusTree.cpp:284-293 | the leaves left of the one a descent reaches hold only smaller keys |
| BTreeLaws.ScanFromDescent | src/storage/BPlusTree.cpp:281-310 | scanning from the leaf the descent for min reaches to the end of the chain finds every row of the range, in key order |
| BTreeLaws.ScanLeavesIsRows | src/storage/BPlusTree.cpp:295-307 | scanning leaves with ascending keys, each up to its first key above max, takes exactly the rows of the range |
| BTreeLaws.PathIsHeight | src/storage/BPlusTree.cpp:204-225 | a search for any key walks through as many nodes as the tree has levels |
| BTreeRuns.StepRefines | src/storage/BPlusTree.cpp:51-71 | one insert or remove call on a key not stored with row id -1 keeps the tree valid and answers and changes the map as the map operation does |
| BTreeRuns.RunsRefine | src/storage/BPlusTree.cpp:51-256 | after every run of inserts and removes, of any order, that meets no key stored with row id -1, the tree is valid, every call was answered as on a finite map, and find reads that map |
| BTreeRuns.AnswersAreRightIff | src/storage/BPlusTree.cpp:51-71 | a run is answered as on a finite map exactly when no call meets a key stored with row id -1, whatever the order |
| BTreeRuns.FindInserted | src/storage/BPlusTree.cpp:90-179 | a key just inserted is found with its row id, through every split |
| BTreeRuns.SeenAgainIff | src/storage/BPlusTree.cpp:52-55 | a key inserted once is refused a second time and can be removed exactly when its row id is not -1 |
| BTreeRuns.ReadsPastEndIff | src/storage/BPlusTree.cpp:146-163 | a run of calls reads past the end of a shortened key vector exactly when the order is at least 2 and the tree has grown to three levels |
| BTreeRuns.FiveKeysReadPastEnd | src/storage/BPlusTree.cpp:146-163 | in a tree of order 2 any five ascending keys do it, and the first four do not |
| BTreeRuns.InsertKeepsOccupied | src/storage/BPlusTree.cpp:101-128 | both halves of every split hold at least the minimum, (order+1)/2 keys in leaves and order/2 in inner nodes |
| BTreeRuns.InsertRunsStayOccupied | src/storage/BPlusTree.cpp:90-179 | insert-only runs of any order leave no node but the root under-full |
| BTreeRuns.InsertOnlyTreesAreShallow | src/storage/BPlusTree.cpp:90-179 | an insert-only tree of h >= 2 levels holds at least 2 (order/2+1)^(h-2) ((order+1)/2) keys |
| BTreeRuns.SearchPathsAreShort | src/storage/BPlusTree.cpp:204-225 | in an insert-only tree a search walks through n >= 2 nodes only if the tree holds at least 2 (order/2+1)^(n-2) ((order+1)/2) keys, so its path is logarithmic |
| BPlusTree.FindChildIndex | src/storage/BPlusTree.cpp:249-256 | the loop over a node's separators gives the chosen child |
| BPlusTree.SplitLeaf | src/storage/BPlusTree.cpp:101-128 | the in-place split of a leaf moves its upper half to a new node, gives that node's first key as separator and links it into the leaf chain |
| BPlusTree.InsertLeaf | src/storage/BPlusTree.cpp:91-131 | insertion in a leaf on the heap shows the grown tree of the specification and keeps the chain |
| BPlusTree.SplitInner | src/storage/BPlusTree.cpp:146-175 | the in-place split of an inner node moves the keys and children behind the middle to a new node and lifts the middle key; the keys are copied before they are cut off, which corrects lines 157-163 |
| BPlusTree.AdoptChild | src/storage/BPlusTree.cpp:139-144 | the separator and the new child go in beside the split child |
| BPlusTree.InsertNode | src/storage/BPlusTree.cpp:90-179 | the recursive insertion on linked nodes, with that correction, shows the grown tree, keeps children apart, keeps the leaf chain complete and adds only fresh nodes |
| BPlusTree.RemoveNode | src/storage/BPlusTree.cpp:358-378 | the recursive deletion on linked nodes shows the reduced tree and relinks nothing |
| BPlusTree.Search | src/storage/BPlusTree.cpp:204-225 | the search loop through the nodes gives what find gives on the tree and visits exactly the nodes on the path of the key |
| BPlusTree.DescendTo | src/storage/BPlusTree.cpp:284-293 | the descent reaches the leaf for min, with the chain from there on holding all leaves behind it |
| BPlusTree.ScanLeaf | src/storage/BPlusTree.cpp:297-304 | the inner loop appends what the scan of a leaf takes, stopping at the first key above max |
| BPlusTree.ScanChain | src/storage/BPlusTree.cpp:295-307 | following next to the end, across empty leaves, takes what the scans of all leaves of the chain take |
| BPlusTree.GrowRoot | src/storage/BPlusTree.cpp:61-68 | a split root gets a new root over both halves |
| BPlusTree.BPlusTree.constructor | src/storage/BPlusTree.cpp:17-20 | a new tree of any order is sound and holds the empty map |
| BPlusTree.BPlusTree.FindUnlocked | src/storage/BPlusTree.cpp:204-225 | find answers what the search in the tree value gives, in an ordered tree the row id of the key in the map, or -1 if it is absent |
| BPlusTree.BPlusTree.InsertUnlocked | src/storage/BPlusTree.cpp:51-71 | insert returns true exactly when find does not see the key, then the linked nodes and the leaf chain hold the tree the value-level insertion gives; in an ordered tree its pairs are the old ones with the new one in key order, and it stays ordered, keeping all bounds, unless the key was there with row id -1 |
| BPlusTree.BPlusTree.RemoveUnlocked | src/storage/BPlusTree.cpp:341-356 | remove returns whether find sees the key and then the linked nodes hold the tree without it; in an ordered tree exactly that key is deleted |
| BPlusTree.BPlusTree.RangeSearchUnlocked | src/storage/BPlusTree.cpp:281-310 | range search scans the leaf chain from the leaf the descent reaches; in an ordered tree it returns exactly the row ids of the keys in [min, max], in ascending key order |
| BPlusTree.BPlusTree.Clear | src/storage/BPlusTree.cpp:383-385 | clearing leaves a sound empty tree |
| BTreeSerial.ReadFlatten | src/storage/BPlusTree.cpp:431-467 | the preorder node list determines the tree: reading children at preorder subtree offsets gives back every tree |
| BTreeSerial.LeafRecordsOfFlatten | src/storage/BPlusTree.cpp:536-541 | the leaf records of a saved tree are its leaves, left to right, at every depth |
| BTreeSerial.ShallowRoundTrip | src/storage/BPlusTree.cpp:519-533 | taking the children right behind their parent gives back a tree of one or two levels |
| BTreeSerial.DeepRoundTripFails | src/storage/BPlusTree.cpp:519-533 | it gives a different tree for every valid tree of three levels or more, of any order: the second child comes out a level too low |
| BTreeSerial.CodedRoundTrip | src/storage/BPlusTree.cpp:519-533 | as coded, loading gives the saved tree back exactly when the tree has at most two levels |
| BPlusTreeFile.SerializeNode | src/storage/BPlusTree.cpp:431-467 | the recursive writer appends the preorder records of the subtree |
| BPlusTreeFile.Serialize | src/storage/BPlusTree.cpp:408-420 | saving gives the preorder records of the whole tree |
| BPlusTreeFile.CreateNodes | src/storage/BPlusTree.cpp:494-517 | the first pass makes one new node per record |
| BPlusTreeFile.LinkChildren | src/storage/BPlusTree.cpp:519-533 | the second pass gives inner record i the nodes i+1 .. i+childCount that exist |
| BPlusTreeFile.LinkLeaves | src/storage/BPlusTree.cpp:542-548 | the third pass chains the leaves in list order and ends the chain; it fails exactly when there is no leaf |
| BPlusTreeFile.Deserialize | src/storage/BPlusTree.cpp:483-565 | loading gives nodes built from their records, leaf nodes chained in list order, and the root record's node, or a new leaf for an index without record; records without any leaf give no tree, as the last loop then runs off its vector |
| BPlusTreeFile.ChainHoldsLeaves | src/storage/BPlusTree.cpp:535-548 | whatever the depth, the loaded chain holds the keys and rows of the saved leaves in order |
| BPlusTreeFile.LoadedIsLinked | src/storage/BPlusTree.cpp:519-548 | a loaded tree of at most two levels is linked exactly as it was |
| BPlusTreeFile.SaveAndLoad | src/storage/BPlusTree.cpp:408-565 | saving a tree of at most two levels and loading it gives a sound tree with the same keys, rows, shape and chain |
| BPlusTreeFile.LoadedShowsUnfold | src/storage/BPlusTree.cpp:519-533 | the loaded objects show the tree that the coded child placement reads off the records |
| PrimaryIndex.FirstWith | src/storage/IndexManager.cpp:37-43 | the linear scan gives the smallest row id whose first column reads as the key, or -1 if there is none |
| PrimaryIndex.CreatePrimary | src/storage/IndexManager.cpp:22-45 | the built index answers every key as the linear scan does, because later duplicates are refused; building fails exactly when some first column cannot be read as an integer |
| PrimaryIndex.LookUp | src/storage/IndexManager.cpp:32-45 | looking a key up in the index gives the linear scan's answer |
| PrimaryIndex.LookUpRange | src/storage/BPlusTree.cpp:281-310 | a range search on the index gives, in ascending key order and once for each key of the range that some row has, the row id the linear scan finds for that key, and nothing else |
| Values.ParseIntText | src/common/Value.cpp:71-80 | every 64-bit integer is read back from its own decimal text |
| Values.CompareTextAntisymmetric | src/common/Value.cpp:195-198 | swapping the texts flips the sign of the comparison, and equality is equality of texts |
| Values.CompareTextTransitive | src/common/Value.cpp:195-198 | the text comparison is transitive, strictly if one step is strict |
| Values.CompareFlips | src/common/Value.cpp:182-199 | values of one kind, readable numbers or texts, compare without throwing, and swapping them flips the sign |
| Values.CompareChains | src/common/Value.cpp:182-199 | on values of one kind the comparison is transitive, strictly if one step is strict |
| ValueLaws.CompareTextIsOrder | src/common/Value.cpp:195-198 | a text compares below another exactly if it is a proper prefix of it or has the smaller character at the first place where they differ |
| ValueLaws.CompareNumbers | src/common/Value.cpp:187-193 | values of numeric types compare as the numbers in them, integers and doubles alike |
| ValueLaws.CompareTexts | src/common/Value.cpp:195-198 | as soon as one value has no numeric type both compare by their texts |
| ValueLaws.CompareNulls | src/common/Value.cpp:182-185 | NULL stands below every other value and level with NULL |
| ValueLaws.ParseIntReads | src/common/Value.cpp:71-80 | reading an integer skips blanks, takes a sign and the digits of a number, ignores what follows, and fails exactly outside 64 bits |
| ValueLaws.ParseIntFails | src/common/Value.cpp:71-80 | without a digit behind blanks and a sign reading an integer fails |
| ValueLaws.DigitsAndBlanks | src/common/Value.cpp:71-80 | the digits are those from 0 to 9 and the blanks are the space and the five control characters behind it in the C locale |
| ValueLaws.TruncatesTowardsZero | src/common/Value.cpp:71-80 | a double reads as the whole number next to it towards zero |
| ValueLaws.TruthOf | src/common/Value.cpp:104-116 | a number is true unless it is zero, and a text exactly if it spells true, 1 or yes in any case |
| ExpressionLaws.ComparisonMeaning | src/executor/ExpressionEvaluator.cpp:251-268 | for any operands that evaluate, each of the six comparisons keeps a row exactly when the operands stand in its relation, as numbers if both have numeric types and otherwise by their texts, drops it with a NULL on either side, and fails exactly when a numeric side does not read as a number |
| ExpressionLaws.IntegersCompare | src/executor/ExpressionEvaluator.cpp:251-268 | on integers the six comparisons keep a row exactly when the relation of that name holds, and drop it otherwise |
| ExpressionLaws.TextsCompare | src/executor/ExpressionEvaluator.cpp:251-268 | on texts they do so for the lexicographic order |
| ExpressionLaws.ConnectivesMean | src/executor/ExpressionEvaluator.cpp:236-249 | AND keeps what both sides keep and OR what one keeps, provided both evaluate; there is no short cut around an error |
| ExpressionLaws.NegationMeans | src/executor/ExpressionEvaluator.cpp:140-146 | NOT keeps what its operand drops, but drops where the operand is NULL |
| ExpressionLaws.MinusMeans | src/executor/ExpressionEvaluator.cpp:147-157 | minus turns the sign of an INT or a DOUBLE, leaves NULL, and fails on every other type, so on the minus of an integer |
| ExpressionLaws.IntegerArithmetic | src/executor/ExpressionEvaluator.cpp:216-233 | on integers of whatever types the result is exact and a BIGINT; the quotient is the one that leaves a rest smaller than the divisor and of the sign of the dividend, and a zero divisor fails |
| ExpressionLaws.RealArithmeticMeans | src/executor/ExpressionEvaluator.cpp:197-215 | as soon as one side is a DOUBLE, sums, differences and products are those of the reals, and DOUBLE |
| ExpressionLaws.RealDivisionMeans | src/executor/ExpressionEvaluator.cpp:205-211 | the real quotient times the divisor is the dividend, and a zero divisor fails |
| ExpressionLaws.NullArithmetic | src/executor/ExpressionEvaluator.cpp:192-195 | arithmetic with a NULL is NULL, even a division by zero |
| ExpressionLaws.SubqueriesMean | src/executor/ExpressionEvaluator.cpp:465-515 | IN keeps a row exactly when an equal value, NULL being equal to NULL, comes before any that cannot be compared; NOT IN exactly when all can be compared and none is equal; EXISTS asks whether there is a row |
| ExpressionLaws.CallMeans | src/executor/ExpressionEvaluator.cpp:164-189 | a call applies its scalar function to the values of its arguments, in order, fails if one fails, and always fails for an aggregate |
| Rewriter.SpineTruth | src/executor/ExpressionEvaluator.cpp:236-249 | the truth of AND and OR is that of the truths of their operands, NULL counting as false |
| Rewriter.EliminateKeepsTruth | src/optimizer/QueryRewriter.cpp:143-227 | on every row on which the condition evaluates, the reduced condition evaluates and is true for exactly the same rows, if sides that print alike are equal |
| Rewriter.AlikePrintsLoseACondition | src/optimizer/QueryRewriter.cpp:183-186 | two IN conditions on one literal print alike, and dropping the second keeps the truth in every environment exactly when their nested queries are the same |
| Rewriter.EliminateReduces | src/optimizer/QueryRewriter.cpp:160-222 | the result has no literal left as an operand on its AND/OR spine and no two sides that print alike |
| Rewriter.EliminateIdempotent | src/optimizer/QueryRewriter.cpp:143-227 | eliminating twice is eliminating once |
| Rewriter.FoldKeepsValue | src/optimizer/QueryRewriter.cpp:55-141 | on integer literals folding gives the exact value wherever the original evaluates, under NOT, comparisons and arithmetic alike; a zero divisor is an error there, so its folding to NULL is never seen |
| Rewriter.FoldReduces | src/optimizer/QueryRewriter.cpp:55-141 | however deep below operators, no arithmetic on two number literals is left |
| Rewriter.FoldComputesIff | src/optimizer/QueryRewriter.cpp:76-123 | an operator becomes a literal exactly if it is arithmetic on two literals of numeric types that read as whole numbers, where a zero divisor spares the dividend from being read; otherwise it stays on its folded operands |
| Rewriter.SpineOperatorsInAnyCase | src/optimizer/QueryRewriter.cpp:143-227 | the passes take an operator for AND or OR exactly if it spells it in any case |
| Rewriter.FoldExactIff | src/optimizer/QueryRewriter.cpp:89-112 | folding an operator on two numeric literals gives the evaluated value, type tag included, exactly when neither literal is a DOUBLE |
| Rewriter.FoldLevelIff | src/optimizer/QueryRewriter.cpp:89-112 | with a DOUBLE literal the folded value compares equal to the evaluated one exactly when the operator gives the same number on the literals cut to whole numbers |
| Rewriter.FoldedHalvesDropEveryRow | src/optimizer/QueryRewriter.cpp:89-112 | 0.5 + 0.5 = 1 keeps every row, and its rewritten form drops every row |
| Rewriter.SimplifyIsIdentity | src/optimizer/QueryRewriter.cpp:243-277 | the last pass changes no expression |
| Rewriter.RewriteKeepsTruth | src/optimizer/QueryRewriter.cpp:24-49 | all passes together keep the truth of the condition on every row on which it evaluates |
| PrintLaws.PrintIsOne | src/parser/AST.h:104-205 | on expressions built from columns, integers, binary operators, calls, and NOT before a binary operator, the printed text determines the expression, whatever text follows it |
| PrintLaws.PlainPrintsApart | src/optimizer/QueryRewriter.cpp:183-186 | two such conditions print alike exactly if they are the same |
| PrintLaws.ClausesPrintAlikeIff | src/parser/AST.h:229-270 | two IN conditions on such operands print alike exactly if operands and negations are the same, whatever their nested queries, and two EXISTS conditions if their negations are |
| PrintLaws.QuotesAreLost | src/optimizer/QueryRewriter.cpp:183-186 | a text prints like a column of that name, so of a = b and a = 'b' under AND or OR the second is dropped |
| Operators.RowSource.Next | src/executor/FilterOperator.cpp:47-55 | a child yields its rows in order and then its end or its error |
| Filter.BuildRowContext | src/executor/FilterOperator.cpp:104-131 | the loop registers each full column name and its short form where that is still free |
| Filter.FilterOperator.Next | src/executor/FilterOperator.cpp:39-81 | each call yields the next row on which the condition is not NULL and true; for comparisons `FilterLaws.WhereKeepsTheRelated` says which rows these are |
| Filter.FilterOperator.Drain | src/executor/FilterOperator.cpp:39-81 | a drain yields exactly the rows on which the condition is true, up to the first error |
| FilterLaws.ContextMeans | src/executor/FilterOperator.cpp:104-131 | a name stands for the last column called so, else for the first column with that short name, and for nothing if there is neither |
| FilterLaws.ShortNameMeans | src/executor/FilterOperator.cpp:117-127 | the short form of a name is what follows its first dot |
| FilterLaws.ColumnMeans | src/executor/ExpressionEvaluator.cpp:65-91 | a reference reads the value of the column called by its whole name, or else of the one called by the column name alone |
| FilterLaws.ColumnFails | src/executor/ExpressionEvaluator.cpp:65-91 | a reference that evaluates means some column |
| FilterLaws.WhereKeepsTheRelated | src/executor/FilterOperator.cpp:39-81 | WHERE column op constant drains exactly the rows whose value in the column stands in the relation to the constant, in order, for each of the six comparisons |
| FilterLaws.FilterStops | src/executor/FilterOperator.cpp:39-81 | on the first row on which the condition fails the drain ends with an error, with the kept rows before it |
| Filter.RewrittenWhereSameRows | src/optimizer/QueryRewriter.cpp:24-49 | a filter over the rewritten condition yields the same row sequence as one over the original wherever the original drains without error |
| PrintLaws.PlainWhereSameRows | src/optimizer/QueryRewriter.cpp:24-49 | for every condition built from columns, integers, binary operators, calls, and NOT before a binary operator, the rewritten filter yields the same rows as the original, without any further condition, wherever the original drains without error |
| Join.NestedLoopJoin.LoadRightTable | src/executor/NestedLoopJoinOperator.cpp:298-314 | opening collects all right rows in order |
| Join.NestedLoopJoin.Open | src/executor/NestedLoopJoinOperator.cpp:65-84 | opening collects the right rows and leaves pending the run that the marks and the phase left from an earlier opening determine; on a new join that is the whole join; an open join is left as it is |
| Join.NestedLoopJoin.NextUnmatched | src/executor/NestedLoopJoinOperator.cpp:160-178 | the second phase of a RIGHT join yields the next unmatched right row padded on the left |
| Join.NestedLoopJoin.ScanRights | src/executor/NestedLoopJoinOperator.cpp:206-241 | the inner loop resumes where it stopped and yields the next match of the left row in hand |
| Join.NestedLoopJoin.NextJoined | src/executor/NestedLoopJoinOperator.cpp:180-260 | the first phase yields the next joined or padded row and always ends |
| Join.NestedLoopJoin.Next | src/executor/NestedLoopJoinOperator.cpp:154-261 | each call terminates and yields the first row of what is pending, which then moves on by that row |
| Join.NestedLoopJoin.Drain | src/executor/NestedLoopJoinOperator.cpp:154-261 | pulling to the end gives exactly the pending run |
| Join.NestedLoopJoin.Close | src/executor/NestedLoopJoinOperator.cpp:263-273 | closing clears the right rows and keeps the marks and the phase of a RIGHT join |
| JoinLaws.JoinRunIsJoin | src/executor/NestedLoopJoinOperator.cpp:154-261 | a drained join is the INNER, LEFT or RIGHT join of its inputs in left-major order, the lonely right rows last, and fails exactly when the left input does or some pair cannot be judged |
| JoinLaws.JoinHasRow | src/executor/NestedLoopJoinOperator.cpp:86-296 | a drained join has a row exactly if it is a left and a right row that pair, side by side, or, in a LEFT join, a left row that pairs with none and behind it a NULL for every right column, or, in a RIGHT join, a right row that pairs with none and in front of it a NULL for every left column |
| JoinLaws.RightJoinIsTurnedLeftJoin | src/executor/NestedLoopJoinOperator.cpp:160-178 | as a bag of rows, RIGHT JOIN is the LEFT JOIN of the swapped inputs with its columns swapped back |
| JoinLaws.ReopenedIsJoin | src/executor/NestedLoopJoinOperator.cpp:65-84 | an INNER or LEFT join opened again after closing has the whole join pending again |
| JoinLaws.ReopenedRightJoinIff | src/executor/NestedLoopJoinOperator.cpp:160-178 | a drained RIGHT join opened again yields no row, which is the join exactly when it has no right rows and its left input does not fail |
| Grammar.BinaryLevel | src/parser/Parser.cpp:1062-1199 | an operator belongs to the level whose loop takes its token |
| GrammarLaws.ParseInvertsWrite | src/parser/Parser.cpp:1058-1292 | reading the tokens of a tree written with only the parentheses precedence needs gives the same tree and stops exactly at a follow token |
| GrammarLaws.WriteParse | src/parser/Parser.cpp:1058-1292 | at every level, a written operand is read back and handed to the loop of that level, so chains group to the left and NOT sits between AND and comparison |
| GrammarLaws.ParsedIsWritable | src/parser/Parser.cpp:1058-1292 | whatever any level reads is a tree the grammar can write |
| GrammarLaws.WritableIffParsed | src/parser/Parser.cpp:1058-1292 | the trees some token list reads as are exactly the writable ones |
| GrammarLaws.Atoms | src/parser/Parser.cpp:1214-1281 | numbers that fit, texts, names and qualified names are operands, written without parentheses everywhere |
| GrammarLaws.TighterTakesTheMiddle | src/parser/Parser.cpp:1062-1199 | of any two binary operators the one that binds more tightly takes the operand between them, and of two that bind alike the first; from loose to tight: OR, AND, the comparisons, + and -, then *, / and % |
| GrammarLaws.PrefixTakes | src/parser/Parser.cpp:1088-1212 | a sign takes the operand next to it alone, and NOT everything up to the next AND or OR |
| GrammarLaws.InTakes | src/parser/Parser.cpp:1099-1165 | IN takes the whole comparison in front of it, but no AND or OR |
| GrammarLaws.NotTakesIn | src/parser/Parser.cpp:1088-1097 | a NOT in front takes the whole IN condition |
| GrammarLaws.IntegerLiteralIff | src/parser/Parser.cpp:1214-1225 | an integer literal is read exactly if it fits 31 bits |
| GrammarLaws.StarIsText | src/parser/Parser.cpp:1232-1292 | a star where a value is expected is the text of one star, so f(*) is, for every f and whatever may follow, the call of f on that text, and reading stops right behind it |
| GrammarLaws.UnclosedIsRefused | src/parser/Parser.cpp:1276-1290 | a parenthesis that is not closed behind its expression is refused |
| GrammarLaws.ExistsCannotStart | src/parser/Parser.cpp:1153-1163 | no level reads tokens that start with EXISTS |
| GrammarLaws.StrayNotIsDropped | src/parser/Parser.cpp:1131-1153 | a NOT behind a comparison that neither IN nor EXISTS follows disappears from the tree |
| GrammarLaws.WithoutQuery | src/parser/Parser.cpp:1115-1163 | without a nested query IN is dropped, or refused before a parenthesis, while NOT IN, EXISTS and NOT EXISTS are dropped together with a parenthesis behind them |
| GrammarLaws.OpenQueryIsRefused | src/parser/Parser.cpp:1119-1161 | with a nested query, each of the four clauses is refused unless a parenthesis closes it |
| Parser.Parser.ParseExpression | src/parser/Parser.cpp:1058-1060 | the parser object returns what the grammar gives and moves exactly past it |
| Parser.Parser.ParseOr | src/parser/Parser.cpp:1062-1073 | the OR loop reads the OR level of the grammar |
| Parser.Parser.ParseAnd | src/parser/Parser.cpp:1075-1086 | the AND loop reads the AND level |
| Parser.Parser.ParseNot | src/parser/Parser.cpp:1088-1097 | NOT takes an operand of its own level |
| Parser.Parser.ParseComparison | src/parser/Parser.cpp:1099-1165 | the comparison loop and the clause behind it read the comparison and membership levels |
| Parser.Parser.ParseMember | src/parser/Parser.cpp:1115-1162 | IN, NOT IN, EXISTS and NOT EXISTS behind a comparison, including the cases in which their keywords are dropped |
| Parser.Parser.ParseAdditive | src/parser/Parser.cpp:1167-1182 | the loop over + and - reads the additive level |
| Parser.Parser.ParseMultiplicative | src/parser/Parser.cpp:1184-1199 | the loop over *, / and % reads the multiplicative level |
| Parser.Parser.ParseUnary | src/parser/Parser.cpp:1201-1212 | a sign takes an operand of its own level |
| Parser.Parser.ParsePrimaryExpression | src/parser/Parser.cpp:1214-1292 | literals, the star, calls, columns and parentheses, with the errors the source throws |
| Parser.Parser.ParseCallArguments | src/parser/Parser.cpp:1251-1258 | the argument loop reads the argument list |
| RowTextLaws.UnescapeEscape | src/storage/TableManager.cpp:556-570 | undoubling the apostrophes undoes doubling them, for every pattern of apostrophes |
| RowTextLaws.EscapeDoubles | src/common/Value.cpp:132-140 | an apostrophe in a text is written twice and nothing else is changed |
| RowTextLaws.CellFormat | src/common/Value.cpp:123-142 | a cell holds \N for NULL, the digits of an integer, what the library prints for a double, and a text between apostrophes |
| RowTextLaws.LineFormat | src/storage/TableManager.cpp:536-543 | a line is its cells with a comma between any two |
| RowTextLaws.CellReading | src/common/Value.cpp:144-180 | a cell reads as NULL exactly in five spellings, as a truth value in a BOOLEAN column and otherwise as a number or itself by the type of its column |
| RowTextLaws.StorableReadsBack | src/common/Value.cpp:123-180 | a storable value is written in one clean cell and read back as itself |
| RowTextLaws.ParsedIsStorable | src/common/Value.cpp:144-180 | whatever is read from a cell without comma or newline is storable, doubles aside |
| RowTextLaws.RowSurvivesIff | src/storage/TableManager.cpp:536-578 | a row written on one line reads back as itself exactly when it has no more values than columns and each is storable: NULL, a 64-bit integer, a kept double, a canonical truth value, or a text without comma outside the NULL spellings |
| RowTextLaws.ConvertedReadsBack | src/common/Value.cpp:123-180 | a value that its column takes is written in one clean cell and reads back as its conversion: the same NULL, integer, truth value or text, or the double its text reads as |
| RowTextLaws.RetaggedSurvivesIff | src/storage/TableManager.cpp:536-578 | a row of values of any types, written on one line, reads back with the same payloads under the column types exactly when each of these is storable |
| RowTextLaws.FullRowIsPassedOverIff | src/storage/TableManager.cpp:545-578 | in a table of text columns, a row with a value in every column is passed over when it is read back exactly when one of its texts holds a comma |
| RowTextLaws.FileSurvivesIff | src/storage/TableManager.cpp:150-179 | loading the lines written from a list of rows gives that list exactly when each row is non-empty and storable |
| RowTextLaws.LoadedRowsAreKeptIff | src/storage/TableManager.cpp:150-179 | rows loaded from any file survive a rewrite exactly when their doubles survive printing |
| RowTextLaws.LoadedRowsAreTakenIff | src/storage/TableManager.cpp:150-179 | rows loaded from any file are taken by their columns exactly when each double prints as a text that reads as a double that prints back |
| RowTextLaws.TakenRowsReadAs | src/storage/TableManager.cpp:150-221 | rewriting rows that their columns take converts each value to its column, and a second rewrite changes nothing |
| RowTextLaws.AppendLoads | src/storage/TableManager.cpp:139-148 | a row appended behind a complete line loads behind the rows before it |
| TableFile.ToSqlString | src/common/Value.cpp:123-142 | the escaping loop writes the value's text |
| TableFile.RowToCsv | src/storage/TableManager.cpp:536-543 | the loop writes the row's line |
| TableFile.UnquoteCell | src/storage/TableManager.cpp:556-570 | the loop strips the quotes and undoubles apostrophes |
| TableFile.CsvToRow | src/storage/TableManager.cpp:545-578 | the cell loop reads the line's row, refuses too many cells and throws on an unreadable number |
| TableFile.TableFile.LoadTable | src/storage/TableManager.cpp:150-179 | the line loop skips empty and overlong lines without numbering them and gives the rows in order |
| TableFile.TableFile.InsertRow | src/storage/TableManager.cpp:139-148 | inserting appends the row's line |
| TableFile.TableFile.DeleteRow | src/storage/TableManager.cpp:181-200 | the file becomes the loaded rows without the one at that place, and stays if it cannot be read |
| TableFile.TableFile.UpdateRow | src/storage/TableManager.cpp:202-221 | the file becomes the loaded rows with that place replaced; an id no row has adds the row at the end it sorts to |
| TableFile.StepHolds | src/storage/TableManager.cpp:139-221 | an insert, update or delete with storable rows takes a file that holds a list of rows to one that holds the new list |
| TableFile.PutSurvivesIff | src/storage/TableManager.cpp:202-221 | a file rewritten with a row put in place loads as those rows, with that row's payloads under the column types, exactly when each of them is storable |
| TableFile.TableFile.ApplyAll | src/storage/TableManager.cpp:139-221 | after any sequence of inserts, updates and deletes from an empty table a load gives the abstract list of rows |
| Dml.BuildContext | src/executor/DMLExecutor.cpp:130-135 | the loop maps each column name the row reaches to its value |
| Dml.ContextMeans | src/executor/DMLExecutor.cpp:240-243 | distinct column names stand each for their own value, and no other name for anything |
| Dml.CollectMatches | src/executor/DMLExecutor.cpp:224-257 | the ids of exactly the rows on which the clause is true, in order, or failure if it fails on some row |
| Dml.EraseMatch | src/executor/DMLExecutor.cpp:259-266 | deleting the last match by its id leaves the ids of all earlier matches right |
| Rewrites.PutUpdates | src/storage/TableManager.cpp:202-214 | replacing a row by its id, below, among or above the ids in use, is an assignment in the map of the rows, listed in ascending order of its ids |
| Rewrites.EraseRemoves | src/storage/TableManager.cpp:181-193 | deleting a row by its id takes that id out of the map of the rows and leaves the others in order |
| Rewrites.DeletionsConvert | src/storage/TableManager.cpp:181-200 | a run of deletions, each loading and writing the file anew, leaves the rows without the erased ones, each converted once by the rewriting |
| Rewrites.UpdatesConvert | src/storage/TableManager.cpp:202-221 | a run of updates leaves the rows, up to the first that fails, with the written ones replaced at their places, all converted once one is written |
| Dml.ExecuteDelete | src/executor/DMLExecutor.cpp:202-275 | the matching ids, found on the loaded rows, are deleted from the last to the first, each deletion loading the file anew; nothing is deleted if the clause fails on a row |
| Dml.DeleteLeavesTheOthers | src/executor/DMLExecutor.cpp:202-275 | exactly the rows on which the clause is true are taken out, although every deletion renumbers the file, and counted; the others keep their order and are rewritten, so they are unchanged exactly when their doubles print back |
| Dml.ExecuteUpdate | src/executor/DMLExecutor.cpp:99-200 | each matching row's changed values are written at its id, every write loading the file anew, up to the first row that fails; the rows written are counted |
| Dml.FindColumn | src/executor/DMLExecutor.cpp:161-165 | the place found has the name and no place before it has |
| Dml.AssignMeans | src/executor/DMLExecutor.cpp:150-171 | all assignments succeed exactly if their values evaluate on the original row; then each value of the changed row is that of the last assignment to its column, the first of that name, and without one the old value |
| Dml.UpdateReplacesTheMatches | src/executor/DMLExecutor.cpp:99-200 | when the columns take the assigned values, each matching row is replaced at its place by the row in which every value is that of the last assignment to its column, evaluated on the original row, or the old value, each turned into its column's type; no other row changes but for doubles that do not print back, the count is right, and the first row whose clause or assignments fail ends it with the rows before it updated |
| Dml.CommaTearsRow | src/storage/TableManager.cpp:545-578 | a row shorter than its column list takes a comma in a text as the end of a cell: the one text a,b comes back as two, for all texts a and b without commas and apostrophes |
| Dml.CommaLosesARow | src/executor/DMLExecutor.cpp:99-200 | UPDATE without WHERE that sets the first of two text columns of two rows to a text with a comma reports two rows, loses the first row and leaves the second unchanged |
| Wal.BytesRoundTrip | src/server/transaction/WALManager.cpp:86-91 | k little-endian bytes hold a number modulo 256^k |
| Wal.LowByteFirst | src/server/transaction/WALManager.cpp:86-91 | byte i of a number is its digit i to the base 256 |
| Wal.RecordLayout | src/server/transaction/WALManager.cpp:86-94 | LSN and transaction take eight bytes each, the kind one, the three lengths four each, and then come table, key and value |
| Wal.RecordRoundTrip | src/server/transaction/WALManager.cpp:86-94 | a record is read back field by field, and reading stops exactly behind it |
| Wal.RecoversIff | src/server/transaction/WALManager.cpp:106-140 | recovery gives back what was written exactly when every field is shorter than 2^32 bytes |
| Wal.WalManager.WriteLog | src/server/transaction/WALManager.cpp:72-97 | each call appends one record with the next sequence number, counted from 1 |
| Wal.WalManager.Recover | src/server/transaction/WALManager.cpp:106-140 | the read loop recovers the entries written, in order, exactly when all lengths fit |
| Wal.WalManager.Truncate | src/server/transaction/WALManager.cpp:142-150 | truncation empties the log and restarts the sequence numbers |
| Transactions.StepKeepsInv | src/server/transaction/TransactionManager.cpp:19-109 | every shared-memory step of begin, commit or rollback by any thread keeps the relation between threads, states, active map and log |
| Transactions.RunsAreSafe | src/server/transaction/TransactionManager.cpp:19-109 | in every interleaving a COMMITTED transaction has its COMMIT in the log and an ABORTED one has none, no record is written twice, a COMMIT stands behind its BEGIN, and between calls the active map holds exactly the ACTIVE ids |
| Transactions.CallsDoTheirWork | src/server/transaction/TransactionManager.cpp:19-99 | in every interleaving, a call that has returned has done its work: a begin has made a new ACTIVE id, current on its thread and in the active map, with its BEGIN logged; a commit leaves its id COMMITTED, with its COMMIT logged; a rollback leaves it ABORTED, without COMMIT; both leave it out of the active map and the thread without a current transaction; and a call has returned exactly when all its steps are taken |
| Transactions.ThreadsAreApart | src/server/transaction/TransactionManager.cpp:19-37 | two threads never work on the same transaction |
| Transactions.DecisionsAreFinal | src/server/transaction/TransactionManager.cpp:43-99 | ids are never drawn again, and a committed or aborted transaction stays so |
| Transactions.ForgottenForever | src/server/transaction/TransactionManager.cpp:19-37 | a transaction no thread holds stays ACTIVE and in the active map in every further run and is never committed |
| Transactions.SecondBeginForgets | src/server/transaction/TransactionManager.cpp:28-29 | a begin while the thread has a transaction leaves that one without a thread |
| Transactions.ForgottenIff | src/server/transaction/TransactionManager.cpp:19-37 | a step makes a transaction one that no thread holds exactly when it is a begin that overwrites the ACTIVE transaction its own thread has |
| Transactions.TwoBeginsForgetTheFirst | src/server/transaction/TransactionManager.cpp:19-37 | after one thread has begun twice, transaction 1 stays active and uncommitted in every further run |
| ThreadPool.StepKeepsInv | src/server/network/ThreadPool.cpp:18-46 | every step of submitters, workers and stop keeps the lock, the queue order and the place of every task |
| ThreadPool.RunsAreSafe | src/server/network/ThreadPool.cpp:18-46 | in every interleaving each submitted task is queued, running or done and only one of these, tasks start in submission order, none runs twice, and once all workers are joined a submitted task has run exactly when it was submitted before the last exit check |
| ThreadPool.DecisionsAreSound | src/server/network/ThreadPool.cpp:33-42 | a worker returns only on seeing stop with an empty queue, and one that takes a task finds the first of the queue |
| ThreadPool.WorkerTakesFirst | src/server/network/ThreadPool.cpp:28-46 | a worker that enters a free pool with a task queued holds the lock, takes the first task and finishes it, stop or no stop, and leaves the rest of the pool as it was |
| ThreadPool.SubmittedIsQueued | src/server/network/ThreadPool.h:82-96 | a submission queues the next task behind the others |
| ThreadPool.TasksCanFinish | src/server/network/ThreadPool.cpp:28-46 | no run gets stuck: as long as one worker has not returned, every run can go on, without a further submission or stop, until every task submitted so far is done |
| ThreadPool.LateTasksStayQueued | src/server/network/ThreadPool.h:82-96 | once every worker has returned no task starts any more |
| ThreadPool.LateTaskNeverRuns | src/server/network/ThreadPool.h:82-96 | in a pool of one worker, a task submitted after the worker has returned stays queued in every further run |
| SortOrder.CompareRows | src/executor/SortOperator.cpp:109-152 | the loop over the sort items decides by the first key that differs, and says no if a key cannot be evaluated |
| SortOrder.LessMeans | src/executor/SortOperator.cpp:109-152 | on rows whose keys compare, the comparator puts the left row first exactly if the first key by which they differ does: NULL first, then the smaller value, or the greater one in descending order |
| SortOrder.LessStops | src/executor/SortOperator.cpp:109-152 | if all keys before it are the same, a key that cannot be evaluated makes the comparator say no, and keys that do not compare make it throw |
| SortOrder.LessIsRowOrder | src/executor/SortOperator.cpp:109-152 | on regular rows the comparator never throws and is the sign of the lexicographic key order |
| SortOrder.StrictWeakOrder | src/executor/SortOperator.cpp:109-152 | on rows whose keys are NULL or of one kind per item, readable numbers or texts, the comparator is irreflexive and transitive, and so is being level, for any list of ASC and DESC items |
| SortOrder.MixedKindsRunInACircle | src/executor/SortOperator.cpp:109-152 | with a number type and a text type in one column, 9 comes before 10, 10 before 5x and 5x before 9, or the other way round if descending |
| SortOrder.OrdersRowsIff | src/executor/SortOperator.cpp:109-152 | for rows of given column types, comparing by the columns is a strict weak order that never throws exactly when no column is BOOLEAN and each holds only numbers or only texts |
| SortOperator.StdSort | src/executor/SortOperator.cpp:101-104 | the sort permutes its rows and, on regular rows, orders them |
| SortOperator.SortOperator.Open | src/executor/SortOperator.cpp:19-44 | opening an open operator changes nothing; otherwise the child's rows are put behind those a failed opening has left and all are sorted, which orders them if they are regular; it fails if the child fails or a comparison throws |
| SortOperator.SortOperator.Next | src/executor/SortOperator.cpp:46-59 | each call hands out the next sorted row |
| SortOperator.SortOperator.Drain | src/executor/SortOperator.cpp:46-59 | the drained rows are the child's rows, each as often, with no row behind one it should come before |
| Aggregates.StreamIsBatch | src/executor/AggregateOperator.cpp:46-127 | adding values one by one and computing gives the count of all values, the sum or average of the numbers in the INT, BIGINT and DOUBLE values that are not NULL, values of other types counting 0, or the least or greatest of values of one kind, and NULL when there are none |
| Aggregates.SumAndAverage | src/executor/AggregateOperator.cpp:46-127 | on integers, doubles and NULLs SUM is the total of the numbers in them as a DOUBLE and AVG that total over how many there are, and both are NULL without any |
| Aggregates.SumStreamsIff | src/executor/AggregateOperator.cpp:46-87 | SUM and AVG accept a column exactly when each value that is not NULL reads as an amount |
| Aggregates.ExtremesStreamIff | src/executor/AggregateOperator.cpp:69-83 | MIN and MAX accept values of numeric types exactly when at most one of them is not NULL or each of those reads as a number |
| Aggregates.AggregateOfPermuted | src/executor/AggregateOperator.cpp:46-127 | in any order the values have aggregates that compare equal, and one and the same aggregate if they are of one type |
| GroupLaws.SameGroupIsSameNorm | src/executor/AggregateOperator.h:63-69 | on keys of the same types, comparison tells whether they are equal up to type tags or throws, and without a BOOLEAN column it never throws |
| GroupLaws.KeyTextsMean | src/executor/AggregateOperator.h:71-81 | the hash of a key is made of the texts of all its values, one after the other, NULLs left out |
| GroupLaws.FindIsNorm | src/executor/AggregateOperator.cpp:327-334 | the lookup among keys of one hash finds the group of the key or tells that there is none, and throws exactly when the key clashes with one of the others, wherever that stands |
| GroupLaws.AddRowHolds | src/executor/AggregateOperator.cpp:318-351 | a row goes in exactly when its key clashes with none before, its arguments evaluate and its group's aggregates accept them; it then changes the states of its own group only, which it makes if it is new |
| GroupLaws.AddRowsIff | src/executor/AggregateOperator.cpp:305-355 | gathering all rows succeeds exactly when no two keys clash and every aggregate accepts its arguments in every group, and then builds exactly the groups of the rows |
| GroupLaws.GroupRunSucceedsIff | src/executor/AggregateOperator.cpp:209-264 | all groups are handed out exactly when, besides, no key clashes with itself, as each key is looked up once more |
| GroupLaws.OutputIsGrouped | src/executor/AggregateOperator.cpp:305-355 | on rows whose keys do not clash, the output has one row per distinct key in the order of first appearance, with each aggregate over all rows of the group, whatever the argument types each aggregate accepts |
| GroupLaws.RegularRowsAreGrouped | src/executor/AggregateOperator.cpp:209-355 | without a BOOLEAN key column the operator does not fail on such rows and gives exactly those groups |
| GroupLaws.FirstKeysLaws | src/executor/AggregateOperator.cpp:327-334 | whatever the arguments, the keys are distinct, cover every row and each come from some row |
| GroupLaws.CountsAddUp | src/executor/AggregateOperator.cpp:305-355 | whatever the arguments, the sizes of the groups add up to the number of input rows |
| GroupLaws.PermutedRowsSameGroups | src/executor/AggregateOperator.cpp:305-355 | permuting the rows gives as many groups, paired one to one with the same keys and agreeing aggregates |
| GroupLaws.BooleansDoNotCompare | src/common/Value.cpp:182-193 | when true and false do not read as numbers, comparing BOOLEAN values throws |
| GroupLaws.BooleanKeysIff | src/executor/AggregateOperator.cpp:209-355 | with one BOOLEAN key column whose two values hash apart, the rows are gathered exactly when no truth value repeats, and all groups are handed out exactly when every key is NULL |
| AggregateOperator.AggregateOperator.FindGroup | src/executor/AggregateOperator.cpp:328-329 | the lookup compares the key with those of the same hash and finds the first that is equal, or throws |
| AggregateOperator.AggregateOperator.TakeRow | src/executor/AggregateOperator.cpp:318-351 | a row's arguments go into the states of its group |
| AggregateOperator.AggregateOperator.BuildGroups | src/executor/AggregateOperator.cpp:305-355 | the loop streams all rows into groups and fails if the child, a key, a lookup, an argument or an aggregate fails |
| AggregateOperator.AggregateOperator.Next | src/executor/AggregateOperator.cpp:209-264 | each call looks up the next group's key and hands out its row, or throws with the lookup |
| AggregateOperator.AggregateOperator.Drain | src/executor/AggregateOperator.cpp:209-264 | the drained rows are those of the groups of the child's rows, up to the first key whose lookup throws; without BOOLEAN keys and with fitting arguments they are all its groups |

## Left out

- The Qt client, the command line, the logger, sockets, the reactor, file system calls and the JSON
  library: a data file is a string, the log a byte sequence, a saved tree a list of records.
- Locks: a tree operation is modelled between taking and releasing its lock, the log's and the
  active map's critical sections are single steps, and LockManager is not modelled.
- Integer overflow, double rounding and NaN: integers and doubles are exact. The library's
  conversions between doubles and text are parameters; the row-file results ask that they print
  digits, signs and points.
- Negative tree orders, which turn into a huge unsigned bound.
- BPlusTree.BPlusTree.InsertUnlocked: on a key stored with row id -1 the links, the tree value and its
  pairs are stated; the tree then holds the key twice and stands for no map.
- BPlusTree.SplitInner: the source shortens the key vector (line 157) before it copies the keys behind
  the middle (lines 161-163), which reads past the new size; the model copies first, as the comments
  there intend. `BTreeRuns.ReadsPastEndIff` says which runs the correction concerns.
- Nested queries, scalar functions and the row context of a JOIN's ON condition: parameters.
- Join.NestedLoopJoin.Close: does not close its children; a child that is opened again is given as a
  new run.
- Rewriter.FoldKeepsValue: asks, as `RewriteKeepsTruth` does, for literals on which folding is exact;
  `FoldExactIff` and `FoldLevelIff` say when it is not.
- Rewriter.EliminateKeepsTruth: one direction only; sides that print alike but differ may still agree on
  a given row.
- The lexer, statements other than expressions, the semantic analyser, DDL, ALTER TABLE: not
  modelled. A nested SELECT is one token.
- Foreign keys in INSERT and UPDATE, and the type check of INSERT values.
- Dml.UpdateReplacesTheMatches: asks that the columns take the assigned values: NULL, a 64-bit integer, a
  number or truth value that prints back, or a text without comma, newline or NULL spelling; what happens
  to others is what `Rewrites.UpdateFrom` computes, as in `CommaLosesARow`. Like `DeleteLeavesTheOthers` it asks
  that every double in the file prints as a text that reads as a double that prints back.
- A log that ends inside a record: the source then reads indeterminate values.
- Redo of the log and undo of operations: the source discards recovered entries and only logs undo.
- Termination of the pool's stop: the flag is set without the mutex, so a wake-up can be missed.
- HAVING, aggregates in generated plans, FULL JOIN, index selection, cost estimation and statistics.
- SortOperator.StdSort: an insertion sort stands for the library sort; only its contract is used.
- AggregateOperator.AggregateOperator.FindGroup: the hash of a key is any function of the texts of its
  values that are not NULL, and keys of one hash are compared in the order of appearance, which
  `FindIsNorm` shows not to matter for throwing; what a failed opening leaves behind is not modelled.
- SUM and AVG add nothing for TINYINT, SMALLINT, FLOAT and DECIMAL values, as the code does.

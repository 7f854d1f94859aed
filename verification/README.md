# Verified models of Database Jones

Database Jones maps JavaScript objects to SQL and NDB tables. This project models the algorithms at its core in
Dafny and proves what they are for. `dafny verify dfyconfig.toml` checks everything.

Code that works in place is modelled in place: a class with the source's fields, a method for each of its functions,
loops where it has loops. Every such method is tied to a specification function, and what the source promises is
proved of that function. Where the code does less than its comments promise, the code is what is modelled; the exact
condition under which it keeps the promise is proved as an equivalence, or an input on which it fails is proved to be
one, and both are listed under "Where the code falls short".

## What is modelled

**Index ranges** (`Endpoints`, `NumberLines`, `Complements`, `QueryTrees`, `ColumnMasks`, `ColumnBounds`, `ColumnCover`,
`NotAcross`, `Consolidation`, `IndexKeys`, `Insertions`, `IndexRuns`, `IndexCover`, `IndexBounds`, `IndexGaps`,
`KeptRanges`). A query predicate is evaluated to a line of intervals for each column that its masks mark: comparators
and null tests give segments, AND and OR merge and sweep the lines of their operands, NOT complements a line in place.
The lines of the columns of an index are then consolidated to ranges of multi-part keys. Values are one linear order,
minus infinity, NULL, the reals, plus infinity; predicates have SQL's three truth values. The main results: the sweep at
depth d holds exactly the points covered by at least d lines; complementing is exact on non-null values if and only if
the line does not end at NULL; every row a predicate selects has each marked column's value in the bound of that column,
even where masks lose columns; and its key lies in one of the ranges that are scanned, as long as all segments of the
leading bounded columns but each column's last have two finite and inclusive ends. For one bounded column the condition
is exact: `IndexGaps.OneColumnIff` reads off the ends of the line whether keys are lost.

**Joined rows** (`JoinRows`, `ReadState`, `ReadProjection`, `JoinForest`, `JoinListing`, `JoinPlaces`, `JoinRoundTrip`).
The rows of a LEFT OUTER JOIN are turned back into a forest of nested objects, one row at a time, with a current tuple
for each sector. `JoinForest` defines the join itself as nested loops over the tables, so that sibling relations
multiply and an absent object gives null keys in all sectors below it. The main result is the round trip: for every forest that
fits the sectors, reading the rows of its join reports exactly that forest; following the relationships from the roots
comes to every object that was made, and to none of them twice.

**Sectors** (`ProjectionTrees`, `Sectors`, `SelectList`). The double worklist that gives a projection, and every
projection in its tree, a list of sectors. It terminates, each list is the breadth-first list of the projection's own
tree, parents precede children, child indexes invert parent indexes, and offsets agree with the column aliases of the
SELECT list. `SectorsMakeTable` shows that these sectors are what reading joined rows relies on.

**Promises** (`Promises`, `PromiseRuns`, `PromiseRuntime`, `PromiseChains`). Promises with their callback arrays and the
queue of delayed jobs, as a state machine whose invariant every step keeps. Handlers only run as jobs, in the order in
which `then` was called, each call of `then` has one job, each job calls the one of the two handlers given to `then`
that is right for how the promise was settled, and each derived promise is settled as its job asks. When no job is left,
a chain of thens has come to the composition of the handlers given to them.

**The batch queue** (`BatchLogs`, `BatchQueue`). The MySQL transaction handler with callbacks that may submit further
batches. At most one operation is with the server, batches finish in the order they were submitted, all callbacks
are called exactly once with the batch's last, each with the error it should get, and nothing is sent after an error.

**SQL text** (`SqlText`, `SqlVisitor`, `SqlFaults`). The visitor that renders a predicate. A reader of the text that does
not know the predicate gets it back, with the i-th `?` the i-th formal parameter.

**Masks, index choice** (`BitMasks`, `ColumnMasks`, `IndexChoice`). Bit masks as sets of numbers with a recorded size;
the masks that mark which columns a predicate uses and fixes, made of them, and which columns they lose; unique and
ordered indexes chosen by them.

**Fields and columns** (`Columns`, `ColumnMapping`). Mapping fields to columns one to one, many to one, one to many, and
to a container of all other fields; what is sent to the database for an object, what an object is after reading any
row, and that reading what was written restores the object.

**Projection validation** (`Validation`). Invalidating a projection with all that use it, and marking it validated with
all it uses.

**The rest.** The LOAD DATA parser (`Grammars`, `GrammarLaws`, `Parsing`), the scheduling of a test suite
(`TestSuite`), and TIME strings (`TimeStrings`). `Options` has the type of values that may be missing.

## Where the code falls short

- Bounds of NOT: complementing the bounds of a predicate over several columns leaves out rows that its NOT selects,
  unless that is none or no bound holds a number (`NotAcross.NotCoveredIff`, for predicates without null tests and
  without a BETWEEN whose limits are in the wrong order). This is why `Boundable` asks for one column below a NOT.
- Complementing a line that ends at NULL leaves nothing where everything else should be
  (`Complements.ComplementExact`), and a second complement only restores a line without NULL
  (`Complements.ComplementInvolution`).
- Consolidation does not reset its two flags from one segment to the next. With one bounded column this loses keys
  exactly in two cases (`IndexGaps.OneColumnIff`, `IndexGaps.QueryScannedIff`): low ends have stopped taking parts, no
  high end has, and the last high end is exclusive; or the high end of the segment just before the last is the first to
  stop, no low end has, and the last low end is exclusive. `a >= 1 AND a <> 3` on an index whose first column is `a`
  loses every row above 3 (`IndexGaps.ReusedFlagsMiss`).
- The range of the first execution of a query is kept in the tree, so later parameters are ignored. It is right as long
  as the parameters mentioned have the same values (`KeptRanges.KeptRangesCover`), and for conjunctions of equalities
  only if those on the leading index columns do (`KeptRanges.KeptRangesCoverIff`, `KeptRanges.StaleRangeMisses`).
- `then` on a promise takes a falsy rejection reason for a fulfilment; a handler that returns null, the promise it was
  attached to, or the one it is to settle does not resolve as Promises/A+ section 2.3 says
  (`PromiseChains.ToldTheTruth`, `PromiseChains.ResolvesAsAPlus`, `PromiseChains.HandlerSettles`).
- The transaction handler keeps the error of a batch for the next one submitted while it is idle
  (`BatchLogs.OwnOutcome`, `BatchLogs.AllSent`).
- All AND and OR nodes below the root write to one shared text (`SqlFaults.TextRight`).
- A bit that is a positive multiple of 24 and just past a mask's size is stored without counting it in the size
  (`BitMasks.BitMask.Set`), and is then lost by `or` (`BitMasks.ExactIff`). The mask marker starts from masks of 24 bits
  and so loses such a column where a condition on it goes into an AND or OR none of whose earlier operands mentions a
  greater column (`ColumnMasks.MarkedIff`, `ColumnMasks.LosesColumn`); all masks over the first n columns of a table are
  exact if and only if n is at most 24 (`ColumnMasks.ExactBelowIff`).
- The mask marker never collects the fixed columns of AND (`ColumnMasks.Fixed`).
- One projection in error keeps others that use the same projection from being invalidated: a validated one stays
  validated if and only if it comes in the breadth-first list of users only at or after the first one in error
  (`Validation.ClosedIff`, `Validation.ErrorStopsInvalidating`).
- A field divided over columns that already have another field, or one that shares part of a divided field, is not
  reported as an error (`ColumnMapping.PartsSound`, `ColumnMapping.FieldSound`, `ColumnMapping.DisturbedSilently`), and
  neither is the first or last part of a divided field that becomes the container for all other fields
  (`ColumnMapping.SparseSound`).
- A statement may be cut short: a series is accepted without its last members when the tokens run out
  (`Grammars.CutShortAccepted`, `Grammars.CutShortOnlyAtEnd`). A token added at the end that nothing matches turns
  exactly these results into errors (`Grammars.EndTokenTells`).
- The sign of a negative TIME below a second is not read back (`TimeStrings.MySQLTime.ReadBack`).

## Model

| member | source | states |
|---|---|---|
| Endpoints.CompareValuesSign | database-jones/Adapter/common/IndexBounds.js:107-137 | the sign of compareValues is the order -Inf < NULL < values < +Inf, except that an infinity is less than itself |
| Endpoints.CompareIndexValues | database-jones/Adapter/common/IndexBounds.js:173-188 | the loop compares the common prefix of two keys, part by part |
| Endpoints.CompareKeysSign | database-jones/Adapter/common/IndexBounds.js:173-188 | on keys of one length that comparison is the lexicographic order |
| Endpoints.CompareRealisesOrder | database-jones/Adapter/common/IndexBounds.js:263-296 | at one value high-exclusive < low-inclusive < high-inclusive < low-exclusive, and Endpoint.compare decides by it, never answering 0 |
| NumberLines.MergeSortEndpoints | database-jones/Adapter/common/IndexBounds.js:581-593 | the loop merges two lists of endpoints as the recursive merge does |
| NumberLines.NumberLineStack.constructor | database-jones/Adapter/common/IndexBounds.js:563-579 | the list of a stack is the merge of all its lines, the last line first |
| NumberLines.NumberLineStack.Sweep | database-jones/Adapter/common/IndexBounds.js:598-613 | the loop pushes exactly the points at which the depth reaches or leaves the target |
| NumberLines.SweepTheorem | database-jones/Adapter/common/IndexBounds.js:563-629 | sweeping any number of well-formed lines at any depth gives a well-formed line that holds exactly the points covered by at least that many lines |
| NumberLines.CoverCountMeaning | database-jones/Adapter/common/IndexBounds.js:615-629 | covered by all lines means in every one, covered by at least one means in some |
| NumberLines.IntersectionOf | database-jones/Adapter/common/IndexBounds.js:617-621 | the intersection holds exactly the points that all lines hold |
| NumberLines.UnionOf | database-jones/Adapter/common/IndexBounds.js:625-629 | the union holds exactly the points that some line holds |
| Complements.NumberLine.Complement | database-jones/Adapter/common/IndexBounds.js:504-523 | flips all transitions in place and drops or adds the two ends; fails on the empty line |
| Complements.ComplementExact | database-jones/Adapter/common/IndexBounds.js:504-523 | the complement holds exactly the non-null values the line does not, if and only if the line does not end at NULL |
| Complements.ComplementWellFormed | database-jones/Adapter/common/IndexBounds.js:504-523 | the mutated line is well formed if and only if its inner transitions at NULL are all on one side of it |
| Complements.ComplementInvolution | database-jones/Adapter/common/IndexBounds.js:504-523 | complementing twice restores the line if and only if it has no endpoint at NULL and the first complement is not empty |
| ColumnBounds.CreateSegmentForComparator | database-jones/Adapter/common/IndexBounds.js:404-421 | builds the segment, or for != the two segments, of a comparator |
| ColumnBounds.CreateSegmentBetween | database-jones/Adapter/common/IndexBounds.js:397-401 | builds the inclusive segment between two values, whichever is lower |
| ColumnBounds.ColumnBoundVisitor.Visit | database-jones/Adapter/common/IndexBounds.js:690-759 | stores in every node the lines the specification gives for each column its mask holds, lost columns or not; fails exactly when a NOT meets an empty line |
| ColumnBounds.ColumnBoundVisitor.Combine | database-jones/Adapter/common/IndexBounds.js:702-715 | stores the union or intersection of the operands' lines for every column the mask holds, unbounded lines where an operand has none |
| ColumnBounds.ColumnBoundVisitor.ComplementOperand | database-jones/Adapter/common/IndexBounds.js:718-727 | stores the complement of the operand's line for every column the mask holds |
| ColumnBounds.LinePaired | database-jones/Adapter/common/IndexBounds.js:521-521 | every stored line has an even number of transitions, lows and highs by turns |
| ColumnCover.ComparatorExact | database-jones/Adapter/common/IndexBounds.js:403-421 | the segments of a comparator hold exactly the values that satisfy it, never NULL |
| ColumnCover.BetweenCovers | database-jones/Adapter/common/IndexBounds.js:395-401 | the segment of BETWEEN holds all values between its limits, and no others if they are in order |
| ColumnCover.NullTestsExact | database-jones/Adapter/common/IndexBounds.js:749-759 | the segments of IS NULL and IS NOT NULL hold exactly NULL and everything else |
| ColumnCover.OneColumnExact | database-jones/Adapter/common/IndexBounds.js:637-759 | on a tree over one column without null tests, whose mask has kept it, the bound holds a non-null value exactly if the predicate is true of it, false otherwise |
| ColumnCover.BoundsCoverPredicate | database-jones/Adapter/common/IndexBounds.js:680-759 | every row the predicate selects has the value of every marked column in that column's bound |
| ColumnCover.BoundIsExact | database-jones/Adapter/common/IndexBounds.js:637-759 | the bound of a column holds a number if and only if what the predicate says about that column allows it, for a predicate over any number of columns with only one below each NOT |
| NotAcross.NotCoveredIff | database-jones/Adapter/common/IndexBounds.js:717-727 | the complemented bounds cover all rows that NOT selects if and only if one column is used, no bound holds a number, or NOT selects nothing |
| NotAcross.NotAcrossColumnsMisses | database-jones/Adapter/common/IndexBounds.js:717-727 | NOT (a = 1 AND b = 2) selects the row (1, 3), which its bound for a leaves out |
| Consolidation.Consolidator.ConsolidateColumn | database-jones/Adapter/common/IndexBounds.js:813-841 | extends the partial bounds by each segment of a column, handing them to the next column or inserting them |
| Consolidation.Consolidate | database-jones/Adapter/common/IndexBounds.js:843-857 | consolidates the bounds of all index columns; fails exactly if the first has none |
| Insertions.InsertedKeeps | database-jones/Adapter/common/IndexBounds.js:528-531 | inserting a segment into a line of keys of different lengths keeps every key and adds its own, wherever comparing settles which ends admit the key |
| IndexCover.ClosedRunCover | database-jones/Adapter/common/IndexBounds.js:807-841 | if all segments of each bounded column but its last have finite inclusive ends, every key whose parts lie in their bounds is scanned |
| IndexCover.RunsAreClosed | database-jones/Adapter/common/IndexBounds.js:807-841 | columns of a single segment of any kind are such columns, and so are columns all of whose ends are finite and inclusive |
| IndexCover.PointsExact | database-jones/Adapter/common/IndexBounds.js:807-841 | if all bounded columns but the last have a single point, exactly those keys are in the range |
| IndexBounds.GetIndexBounds | database-jones/Adapter/common/IndexBounds.js:935-960 | for an index of one column exactly the numbers are scanned that the predicate allows there; the ranges of the first evaluation are those specified, later ones over several columns the stored ones; fails exactly if a NOT meets an empty line or the first of several columns is not marked |
| IndexBounds.ScannedIffSelected | database-jones/Adapter/common/IndexBounds.js:935-960 | with a predicate over the one index column alone, a number is in some range if and only if the predicate selects it |
| IndexBounds.ScanCoversQuery | database-jones/Adapter/common/IndexBounds.js:924-960 | the key of every row the predicate selects lies in one of the ranges: for an index of one column, and for more with all segments but each column's last closed |
| IndexGaps.OneColumnIff | database-jones/Adapter/common/IndexBounds.js:813-841 | with one bounded column all keys in its bound are scanned if and only if the ends of its line show no gap |
| IndexGaps.QueryScannedIff | database-jones/Adapter/common/IndexBounds.js:924-960 | the same for every query without NOT that bounds the first index column and not the second |
| IndexGaps.ReusedFlagsMiss | database-jones/Adapter/common/IndexBounds.js:821-828 | a >= 1 AND a <> 3 selects the row with 4, and no range has its key |
| KeptRanges.KeptRangesCover | database-jones/Adapter/common/IndexBounds.js:844-855 | ranges kept from an evaluation with the same values of all parameters mentioned cover what a later one selects |
| KeptRanges.KeptRangesCoverIff | database-jones/Adapter/common/IndexBounds.js:844-855 | for a conjunction of equalities they do if and only if those on the leading index columns ask for the same values |
| KeptRanges.StaleRangeMisses | database-jones/Adapter/common/IndexBounds.js:844-855 | a = ? AND b = 5 with 2 after 1: the ranges kept from the first evaluation miss a row the second selects |
| JoinRows.KnownIsListed | jones-mysql/impl/MySQLConnection.js:796-812 | an object has been shown exactly if its key is listed below its parent |
| ReadState.CaseNull | jones-mysql/impl/MySQLConnection.js:896-914 | setting the parent's field to its default for null keys keeps the invariant |
| ReadState.CaseFound | jones-mysql/impl/MySQLConnection.js:915-925 | for an object found in its parent only the current tuples change |
| ReadState.CaseNew | jones-mysql/impl/MySQLConnection.js:926-946 | storing a new object and adding it to its parent keeps the invariant |
| ReadState.RootKept | jones-mysql/impl/MySQLConnection.js:879-895 | a row of the current root changes nothing in the root sector |
| ReadState.RootAdded | jones-mysql/impl/MySQLConnection.js:881-892 | a row of a new root adds it and resets all other tuples |
| ReadState.CurrentTuple | jones-mysql/impl/MySQLConnection.js:915-919 | the tuple left by the row before is the object this row shows if the keys agree |
| ReadState.BetweenIsRead | jones-mysql/impl/MySQLConnection.js:863-948 | between rows the objects are exactly those the rows show, each with its key, data and all related objects in order |
| ReadProjection.IsRowSectorKeyNull | jones-mysql/impl/MySQLConnection.js:762-771 | true exactly if all key columns of the sector are null |
| ReadProjection.IsRowSectorKeyEqual | jones-mysql/impl/MySQLConnection.js:774-790 | true exactly if there is a tuple and it has the row's key |
| ReadProjection.NewResultObjectFromRow | database-jones/Adapter/common/DBTableHandler.js:732-757 | the new object has the sector's key and data from the row and no relationship |
| ReadProjection.ReadProjectionOperation.ResetTuples | jones-mysql/impl/MySQLConnection.js:815-821 | exactly the tuples of sectors below the given one are cleared |
| ReadProjection.ReadProjectionOperation.FindResultTupleInParent | jones-mysql/impl/MySQLConnection.js:796-812 | finds the parent's related object with the row's key, if there is one |
| ReadProjection.ReadProjectionOperation.ProcessRoot | jones-mysql/impl/MySQLConnection.js:879-895 | sector 0 of a row; the roots so far are collected in order |
| ReadProjection.ReadProjectionOperation.ProcessSector | jones-mysql/impl/MySQLConnection.js:896-946 | another sector of a row takes the invariant one sector further |
| ReadProjection.ReadProjectionOperation.OnResult | jones-mysql/impl/MySQLConnection.js:863-948 | after each row the objects are what the rows so far say |
| ReadProjection.ReadProjectionOperation.OnEnd | jones-mysql/impl/MySQLConnection.js:957-986 | a scan reports all roots, a read the last; without rows the error is 1032 |
| JoinForest.SameWay | jones-mysql/impl/MySQLConnection.js:707-718 | the keys from the root down to an object of the join determine it |
| JoinForest.ResultCoherent | jones-mysql/impl/MySQLConnection.js:649-755 | the rows of the join of any forest are nested, agree on what they show, and stand together by root |
| JoinListing.RelatedListed | jones-mysql/impl/MySQLConnection.js:707-718 | below an object, the rows of the join list exactly its related objects, in their order |
| JoinListing.RootsListed | jones-mysql/impl/MySQLConnection.js:719-732 | the roots of the rows are those of the forest, in their order |
| JoinRoundTrip.RootsRebuilt | jones-mysql/impl/MySQLConnection.js:863-986 | objects that are what the rows of a forest's join say are that forest |
| JoinRoundTrip.ObjectsOnce | jones-mysql/impl/MySQLConnection.js:926-946 | different places of the forest have different objects, and there is no object besides |
| JoinRoundTrip.RowsRebuild | jones-mysql/impl/MySQLConnection.js:863-986 | the state after all rows of the join holds the forest, each object once under its parent, and no other object |
| JoinRoundTrip.ReadForest | jones-mysql/impl/MySQLConnection.js:848-986 | reading the join of any forest by onResult for each row and onEnd reports exactly that forest, and has made as many objects as it has places |
| ProjectionTrees.BfsLists | database-jones/Adapter/api/UserContext.js:708-908 | the breadth-first list has every projection as often as the trees do |
| ProjectionTrees.LevelByLevel | database-jones/Adapter/api/UserContext.js:893-908 | the list goes level by level: the trees of one level in their order, then the list of all their children |
| ProjectionTrees.ParentListed | database-jones/Adapter/api/UserContext.js:741-753 | whatever follows the queue in it is related to something earlier |
| ProjectionTrees.GrowsToAll | database-jones/Adapter/api/UserContext.js:708-908 | while the first sectors are made the outer worklist grows to the whole breadth-first list |
| ProjectionTrees.GrowsNoMore | database-jones/Adapter/api/UserContext.js:893-908 | after that the outer worklist does not grow |
| Sectors.FindParent | database-jones/Adapter/api/UserContext.js:743-753 | finds the first sector of the parent projection |
| Sectors.CollectNonKeyFields | database-jones/Adapter/api/UserContext.js:874-883 | the projected fields that are not in the key, in their order |
| Sectors.NonKeyExact | database-jones/Adapter/api/UserContext.js:874-883 | these are the fields at ascending places, exactly those places that do not hold a key field |
| Sectors.AddSector | database-jones/Adapter/api/UserContext.js:708-889 | adds the sector of the next projection of the list, with its offset, parent, and entry among the parent's children |
| Sectors.AddRelationships | database-jones/Adapter/api/UserContext.js:834-858 | related projections join the inner worklist, and the outer one unless they are on it |
| Sectors.CreateSector | database-jones/Adapter/api/UserContext.js:708-908 | works off both lists, giving every projection on the outer one its sectors |
| Sectors.BuildSectors | database-jones/Adapter/api/UserContext.js:708-908 | terminates with sectors for every projection in the tree, breadth first over its own tree |
| SelectList.InitializeProjection | jones-mysql/impl/MySQLConnection.js:656-747 | counts the offsets and lists the columns, so that each sector's columns have the aliases from its offset on |
| SelectList.ChildrenExact | database-jones/Adapter/api/UserContext.js:743-753 | child indexes are exactly the sectors with that parent index, ascending |
| SelectList.SectorsMakeTable | database-jones/Adapter/api/UserContext.js:862-897 | the sectors built are a valid row layout for reading joined rows |
| SelectList.EachProjectionOnce | database-jones/Adapter/api/UserContext.js:884-897 | every projection of the tree has exactly one sector, and no other has one |
| Promises.ThenRegisters | jones-promises/lib/Promise.js:132-208 | a call of then keeps callback arrays and promises as the calls so far say |
| Promises.ThenOrders | jones-promises/lib/Promise.js:141-160 | a call of then on a settled promise queues one job, behind all others, with the right handler of the two for how the promise was really settled and with its value or reason; on a pending one none |
| Promises.SettleOrders | jones-promises/lib/Promise.js:224-255 | settling a promise queues the jobs of all calls on it, in their order, once each |
| Promises.QueueRight | jones-promises/lib/Promise.js:141-206 | every job in the queue has the handler registered for fulfilment and the value if its promise was fulfilled, the other and the reason if it was rejected, the first and no value after a falsy rejection before the call |
| PromiseRuns.ThenInv | jones-promises/lib/Promise.js:132-208 | a client's call of then keeps the invariant of all runs |
| PromiseRuns.SettleInv | jones-promises/lib/Promise.js:210-257 | settling a promise as the one call that may ask for it does keeps the invariant |
| PromiseRuns.StartInv | jones-promises/lib/Promise.js:50-58 | starting the first job of the queue keeps the invariant |
| PromiseRuns.StartHeard | jones-promises/lib/Promise.js:50-58 | what a started job calls is the registered handler for the truth about its promise, and that stays so for all jobs ever started |
| PromiseRuns.CallInv | jones-promises/lib/Promise.js:54-58 | whatever a handler returns or throws, only the promises that its job must settle remain open |
| PromiseRuns.AdoptInv | jones-promises/lib/Promise.js:85-107 | calling then on a returned promise leaves the new promise waiting for it alone |
| PromiseRuns.ClientSettles | jones-promises/lib/Promise.js:210-257 | a client's promise is settled at most once, and all earlier calls and results remain |
| PromiseRuntime.Runtime.Then | jones-promises/lib/Promise.js:132-208 | no handler runs; a new promise is returned and the call registered; on a settled promise one job is queued, which carries the right one of the two handlers and its argument |
| PromiseRuntime.Runtime.Fulfill | jones-promises/lib/Promise.js:210-234 | no handler runs; throws exactly if the promise is settled, else settles it and queues its jobs in order |
| PromiseRuntime.Runtime.Reject | jones-promises/lib/Promise.js:236-257 | the same for a rejection |
| PromiseRuntime.Runtime.StartJob | jones-promises/lib/Promise.js:147-157 | the first job queued runs next, and calls the handler registered for how its promise was settled |
| PromiseRuntime.Runtime.PassOn | jones-promises/lib/Promise.js:94-106 | the promise waiting for a returned one is settled as that one was; it never is already |
| PromiseRuntime.Runtime.FinishJob | jones-promises/lib/Promise.js:50-130 | after a handler its promise is settled, or waits for the returned one, as the invariant says; what the handler did is recorded for its call, and nothing else |
| PromiseChains.JobsInOrder | jones-promises/lib/Promise.js:224-233 | jobs of one promise are in the order of the calls of then, each once |
| PromiseChains.FinishedInOrder | jones-promises/lib/Promise.js:224-233 | a call on a promise has finished before any later call on it |
| PromiseChains.ResolvesAsAPlus | jones-promises/lib/Promise.js:67-127 | what a handler returns resolves the promise as in section 2.3 of Promises/A+ if and only if it is not null, the original or the new promise; the first two reject, the last is waited for |
| PromiseChains.ToldTheTruth | jones-promises/lib/Promise.js:141-158 | a handler is told the true outcome if and only if it was not a falsy rejection before the call of then |
| PromiseChains.AllReturned | jones-promises/lib/Promise.js:132-208 | when no job is left, exactly the calls on settled promises have had their job |
| PromiseChains.ComesTo | jones-promises/lib/Promise.js:67-127 | the new promise is then settled as its job asked, or as the promise it was given is |
| PromiseChains.HandlerSettles | jones-promises/lib/Promise.js:54-127 | what becomes of a promise whose handler throws, returns null, a plain value, the original promise, or the new promise, which then stays pending for good |
| PromiseChains.MissingHandlerPasses | jones-promises/lib/Promise.js:33-66 | without a handler for what became of its promise, the new promise is settled in the same way, with all exceptions named |
| PromiseChains.StillPending | jones-promises/lib/Promise.js:132-208 | a promise made by then on a pending promise is pending |
| PromiseChains.ChainComposes | jones-promises/lib/Promise.js:41-257 | a chain of thens comes to the composition of the handlers given to them, whatever functions the handlers of the client are; returned promises are replaced by what they came to |
| BatchLogs.CallbacksOnce | jones-mysql/impl/MySQLConnection.js:277-322 | each operation of a finished batch calls back exactly once, sent or not, and the batch once, last |
| BatchLogs.NothingSentAfterError | jones-mysql/impl/MySQLConnection.js:296-314 | no operation is sent after one has called back with an error |
| BatchLogs.OwnOutcome | jones-mysql/impl/MySQLConnection.js:253-275 | the callback of a batch gets an error if and only if an operation called back with its own or one was left over; it is that of the operation, or else the one left over |
| BatchLogs.ErrorsTold | jones-mysql/impl/MySQLConnection.js:253-322 | in a whole run, the callback of an operation that was sent gets its own error or none, that of one not sent the error of its batch, and so does the callback of the batch |
| BatchLogs.AllSent | jones-mysql/impl/MySQLConnection.js:288-321 | if none of those sent fails, all are sent if and only if no error was left over or there is only one |
| BatchLogs.FirstComeFirstServed | jones-mysql/impl/MySQLConnection.js:265-274 | events are in the order in which their batches were submitted |
| BatchLogs.AnsweredNext | jones-mysql/impl/MySQLConnection.js:277-322 | the event after an operation is sent is its callback: one is outstanding at most |
| BatchLogs.BatchCallsBackLast | jones-mysql/impl/MySQLConnection.js:253-256 | every batch calls back exactly once, after all its other events |
| BatchQueue.TransactionHandler.Execute | jones-mysql/impl/MySQLConnection.js:209-246 | an idle handler sends the first operation of the batch; a busy one appends the batch to those waiting and does nothing else |
| BatchQueue.TransactionHandler.Call | jones-mysql/impl/MySQLConnection.js:307-310 | what a callback submits while a batch runs is appended to those waiting |
| BatchQueue.TransactionHandler.BatchComplete | jones-mysql/impl/MySQLConnection.js:253-275 | the batch calls back with the error there is; the first of those waiting, those its callback submits included, is started without an error, or the error stays |
| BatchQueue.TransactionHandler.OperationComplete | jones-mysql/impl/MySQLConnection.js:277-322 | an answer adds a result to the batch, or finishes it with its full record in the history; the batch that runs is always the list submitted with its number |
| BatchQueue.TransactionHandler.SkipOperations | jones-mysql/impl/MySQLConnection.js:297-312 | the callbacks of all operations not sent get the error |
| SqlText.TextReadsBack | database-jones/Adapter/api/Query.js:430-492 | a reader that does not know the predicate gets it back from its text, each ? the next formal parameter |
| SqlVisitor.SQLVisitor.Visit | database-jones/Adapter/api/Query.js:430-492 | writes the shared texts as specified and appends the parameters from left to right |
| SqlFaults.BelowRoot | database-jones/Adapter/api/Query.js:589-592 | below the root the text is the predicate's if only first operands have an AND or OR in them, and otherwise no predicate's |
| SqlFaults.TextRight | database-jones/Adapter/api/Query.js:448-458 | the text of the root is the predicate's if and only if no AND or OR but the root has one inside a later operand |
| SqlFaults.GetSQL | database-jones/Adapter/api/Query.js:633-637 | exactly then the server reads back the predicate with its parameters |
| BitMasks.BitMask.Grow | database-jones/Adapter/common/BitMask.js:54-62 | adds empty words until the size is reached, changing no bit |
| BitMasks.BitMask.Set | database-jones/Adapter/common/BitMask.js:64-71 | adds the bit and no other, and leaves the size the source leaves, which does not count a multiple of 24 just past it |
| BitMasks.BitMask.BitIsSet | database-jones/Adapter/common/BitMask.js:73-80 | tells whether the bit is there, changing none |
| BitMasks.BitMask.BinaryOp | database-jones/Adapter/common/BitMask.js:90-108 | has exactly the bits of the set operation that lie below the greater size |
| BitMasks.ExactIff | database-jones/Adapter/common/BitMask.js:90-120 | that is the whole set operation if and only if the recorded sizes cover the words that matter to it |
| BitMasks.BitMask.OrWith | database-jones/Adapter/common/BitMask.js:122-127 | takes over the union, below the greater size |
| BitMasks.BitMask.IsNonZero | database-jones/Adapter/common/BitMask.js:129-135 | true exactly if some bit is set |
| BitMasks.BitMask.IsEqualTo | database-jones/Adapter/common/BitMask.js:137-146 | true exactly if both have the same bits, whatever their sizes |
| BitMasks.BitMask.ToArray | database-jones/Adapter/common/BitMask.js:148-172 | terminates and lists exactly the bits, strictly ascending |
| IndexChoice.RowsAgreeOnFixed | database-jones/Adapter/api/Query.js:507-538 | all rows a predicate selects have one non-null value in every fixed column, also if AND collected them as meant |
| IndexChoice.ComparisonFixes | database-jones/Adapter/api/Query.js:508-513 | of the comparisons exactly equality fixes its column: any other selects two rows that differ there |
| IndexChoice.OnlyUsedMatter | database-jones/Adapter/api/Query.js:501-538 | the truth of a predicate depends on its used columns only |
| ColumnMasks.MarkMasks | database-jones/Adapter/api/Query.js:497-538 | the used mask of every node, made of bit masks of 24 bits, holds exactly the columns specified and has their size; the other the columns fixed without looking into AND |
| ColumnMasks.MarkedIff | database-jones/Adapter/api/Query.js:525-538 | a column is in the mask if and only if it is mentioned and kept all the way up: not a positive multiple of 24 put into a group before any greater column |
| ColumnMasks.LosesColumn | database-jones/Adapter/api/Query.js:525-538 | the AND of a condition on such a column and one on column 0 has only column 0 in its mask |
| ColumnMasks.ExactBelowIff | database-jones/Adapter/api/Query.js:500-505 | all masks over the first n columns are exact if and only if n is at most 24 |
| IndexChoice.ChooseUniqueIndexForPredicate | database-jones/Adapter/common/DBTableHandler.js:831-844 | the first unique index all of whose columns are fixed, or none if there is none |
| IndexChoice.UniqueIndexFindsOne | database-jones/Adapter/common/DBTableHandler.js:831-844 | at most one row of a table satisfies a predicate that fixes a unique index |
| IndexChoice.ChooseOrderedIndexForPredicate | database-jones/Adapter/common/DBTableHandler.js:848-866 | the first ordered index of the highest score; none exactly if no ordered index has its first column used |
| IndexChoice.ScoreOf | database-jones/Adapter/common/DBTableHandler.js:1059-1077 | the number of leading key parts that are used, and the number of those among them that are fixed |
| Columns.TableHandler.GetPart | database-jones/Adapter/common/DBTableHandler.js:178-192 | the part of a divided field, which is converted in place between its first and last column |
| Columns.TableHandler.GetColumns | database-jones/Adapter/common/DBTableHandler.js:162-245 | the value of each column is what its kind sends: the converted field; an object with a converted member for each shared field; the member named like the column of the converted field; an object of all fields not excluded. A divided field has been converted there and back afterwards, all others are as before |
| Columns.TableHandler.SetPart | database-jones/Adapter/common/DBTableHandler.js:194-203 | a divided field gathers its parts and is converted back with the last; an error if it is not an object |
| Columns.TableHandler.SetShared | database-jones/Adapter/common/DBTableHandler.js:219-231 | sets exactly the fields that share the column, each converted from the member of its name; an error if there is no value |
| Columns.TableHandler.SetFields | database-jones/Adapter/common/DBTableHandler.js:921-930 | from any row: the last column that sets a field decides it, converted back through column and field; a divided field is put together from all its parts; a field that no column sets stays; no error if shared values are there and divided fields have all parts |
| Columns.LastDecides | database-jones/Adapter/common/DBTableHandler.js:170-258 | the field set last is the value of its column, converted back by the column, taken out by name if shared or sparse, and converted back by the field |
| Columns.PartsSoFar | database-jones/Adapter/common/DBTableHandler.js:194-203 | between its first and last column a divided field is the object of the parts read so far, after that what its converter makes of all of them |
| Columns.ReadableIsRead | database-jones/Adapter/common/DBTableHandler.js:194-231 | no error stops reading a row whose shared values are there and whose divided fields have all their parts or none |
| Columns.ReadBack | database-jones/Adapter/common/DBTableHandler.js:872-930 | reading a row of what was written restores every field that a column holds, in any object |
| Columns.TableHandler.WriteAndRead | database-jones/Adapter/common/DBTableHandler.js:872-930 | getColumns then setFields restores every mapped field and leaves the source as it was |
| Columns.PartsAreWhole | database-jones/Adapter/common/DBTableHandler.js:194-203 | the parts written for a divided field are the whole, which converts back to the field |
| Columns.WriteSame | database-jones/Adapter/common/DBTableHandler.js:162-258 | a column between the parts of a field is written as if that field were not divided |
| ColumnMapping.PartsSound | database-jones/Adapter/common/DBTableHandler.js:125-134 | dividing a field over columns leaves the mapping sound if and only if none of them has a field |
| ColumnMapping.DisturbedSilently | database-jones/Adapter/common/DBTableHandler.js:331-343 | a field divided over a column that has one breaks the mapping without an error |
| ColumnMapping.FieldSound | database-jones/Adapter/common/DBTableHandler.js:107-123 | giving a column a field leaves the mapping sound if and only if it is not one of several parts |
| ColumnMapping.SparseSound | database-jones/Adapter/common/DBTableHandler.js:136-145 | making a column the one for all other fields leaves the mapping sound if and only if it is not the first or last of several parts of a field |
| ColumnMapping.DBTableHandlerPrivate.MapPartial | database-jones/Adapter/common/DBTableHandler.js:331-343 | gives each listed column its part, first and last marked; an error exactly if not all listed columns are found |
| ColumnMapping.DBTableHandlerPrivate.AddField | database-jones/Adapter/common/DBTableHandler.js:329-368 | an error exactly for a repeated name or ill-fitting columns; otherwise the mapping is extended, soundly if and only if no other field is disturbed |
| ColumnMapping.MappingGains | database-jones/Adapter/common/DBTableHandler.js:107-134 | the columns a field is mapped to get its name, as part of a divided field, as shared if either says so, as a column of its own if it had none; all others stay |
| ColumnMapping.DBTableHandlerPrivate.SetSparse | database-jones/Adapter/common/DBTableHandler.js:136-145 | the container holds exactly the fields not mapped yet and those it had whole, with the first of the three converters there is; the other columns stay, and the mapping is sound exactly then |
| Validation.ReachesValidated | database-jones/Adapter/api/UserContext.js:911-931 | in a closed state a validated projection reaches only validated ones |
| Validation.InvalidatingKeepsClosed | database-jones/Adapter/api/Projection.js:53-62 | the state stays closed if no validated projection comes in the list of users only at or after the first one in error |
| Validation.ClosedIff | database-jones/Adapter/api/Projection.js:56-56 | as long as those listed as users are users, if and only if none does |
| Validation.NoUserInError | database-jones/Adapter/api/Projection.js:53-62 | none does if no projection from which the changed one can be reached is in error |
| Validation.ErrorStopsInvalidating | database-jones/Adapter/api/Projection.js:56-56 | with one of two users in error, the other stays validated and the state is not closed |
| Validation.UsersInvalidated | database-jones/Adapter/api/Projection.js:53-62 | if none of them is in error, exactly the projections that reach the changed one are invalidated |
| Validation.StaysExact | database-jones/Adapter/api/Projection.js:121-123 | adding a relationship keeps the lists of users right unless it replaces one |
| Validation.Projections.InvalidateAll | database-jones/Adapter/api/Projection.js:53-62 | terminates, and clears the flag of exactly the projections taken off the worklist before one in error |
| Validation.Projections.CollectErrors | database-jones/Adapter/api/UserContext.js:934-953 | true exactly if a projection that can be reached is in error |
| Validation.Projections.MarkValidated | database-jones/Adapter/api/UserContext.js:912-931 | terminates, and marks exactly the projections that can be reached |
| Validation.Projections.AddFields | database-jones/Adapter/api/Projection.js:69-100 | adds the names, invalidates, and keeps the state closed unless a validated user comes only after one in error |
| Validation.Projections.AddRelationship | database-jones/Adapter/api/Projection.js:105-127 | the same for a relationship, which replaces one of its name |
| Validation.Projections.ValidateProjection | database-jones/Adapter/api/UserContext.js:1163-1220 | fails exactly if it is rejected or a projection that can be reached is in error; then marks nothing, otherwise all that can be reached; the state stays closed |
| Grammars.Evaluate | loader/lib/Parser.js:348-372 | terminates; no match exactly if no token is consumed |
| Grammars.LeavesAreConsumed | loader/lib/Parser.js:241-293 | the leaves of a match are exactly the tokens consumed, in order |
| Grammars.MatchConforms | loader/lib/Parser.js:241-293 | a match has the shape of its grammar symbol, which its node names, strict members missing only at the end |
| Grammars.CutShortOnlyAtEnd | loader/lib/Parser.js:256-256 | a series is accepted in part only when the tokens have run out |
| Grammars.CutShortAccepted | loader/lib/Parser.js:256-256 | a series of A and B is accepted when there is only A |
| Grammars.EndTokenTells | loader/lib/Parser.js:241-259 | with a token added that no terminal matches, exactly the results without a series cut short stay, and the others become errors |
| GrammarLaws.MembersInTurn | loader/lib/Parser.js:241-259 | members of a series or option are tried in turn, each where the one before has stopped, until all have been, a strict one is missing, or one throws |
| GrammarLaws.FirstAlternative | loader/lib/Parser.js:265-276 | the first alternative that does not fail to match decides, every one before it has found no match |
| GrammarLaws.GoesOnWhileItCan | loader/lib/Parser.js:282-293 | a repetition is one round, matched as an option of its members, and the repetition of what follows; over when there is no match |
| GrammarLaws.StopsWhenItMust | loader/lib/Parser.js:282-293 | where a repetition has stopped, its members do not match once more |
| GrammarLaws.RepeatsTaken | loader/lib/Parser.js:282-293 | any number of tokens that match a terminal is taken by its repetition, up to the first that does not |
| Parsing.Parser.EvalSeries | loader/lib/Parser.js:241-259 | the loop over the members of a series does what the specification says |
| Parsing.Parser.EvalSeveral | loader/lib/Parser.js:282-293 | rounds until one matches nothing, each other consuming a token, as GrammarLaws characterises |
| Parsing.Parser.Evaluate | loader/lib/Parser.js:348-372 | evaluation with the token index changed in place has the specified result |
| Parsing.Parse | loader/lib/Parser.js:200-205 | a statement that is accepted is a conforming tree whose leaves are all tokens; accepted exactly if evaluation consumes them all |
| TestSuite.PhasesPartition | jones-test/lib/Suite.js:141-170 | in the sorted list the phases follow one another, with at most one smoke and one clearing test |
| TestSuite.Suite.RunTests | jones-test/lib/Suite.js:180-219 | afterwards a test is running or all are done, unless there are none |
| TestSuite.Suite.Completed | jones-test/lib/Suite.js:271-307 | whichever running test completes, it alone of those started becomes done, and a test is running or all are done and that was reported once |
| TestSuite.Suite.TakeTurns | jones-test/lib/Suite.js:222-268 | of two started tests the earlier is done unless both are concurrent |
| TestSuite.Suite.SkippedIff | jones-test/lib/Suite.js:222-268 | of the tests started, the concurrent and serial ones are skipped if and only if there is a smoke test and it failed; the smoke and the clearing test never are |
| TestSuite.Suite.TestCompleted | jones-test/lib/Suite.js:275-307 | true exactly if it is the call that finds all tests done |
| TestSuite.Suite.StartConcurrentTests | jones-test/lib/Suite.js:222-236 | starts all concurrent tests in order, or goes on to the serial ones |
| TimeStrings.RoundsDown | database-jones/Adapter/common/MySQLTime.js:189-193 | cutting digits off and adding zeros rounds down to that precision |
| TimeStrings.TextIsRead | database-jones/Adapter/common/MySQLTime.js:63-103 | the scan of a time's text finds its digits, both colons and its fraction |
| TimeStrings.MySQLTime.InitializeFromTimeString | database-jones/Adapter/common/MySQLTime.js:50-119 | the fields set from any string, HH:MM and text after a letter included |
| TimeStrings.MySQLTime.ToTimeString | database-jones/Adapter/common/MySQLTime.js:176-207 | the text of the time in its precision |
| TimeStrings.MySQLTime.ReadBack | database-jones/Adapter/common/MySQLTime.js:50-207 | reading the text back restores the time with microseconds rounded down, and the sign if and only if it is positive or at least a second |

## Left out

- Network and driver calls, sessions, pools, DDL and table metadata: a query is an event that completes once, metadata is given data.
- Index bounds for IN, EncodedValue and collations, and OR or NOT over multi-part index ranges: several index columns are modelled for conjunctions only.
- Endpoint objects shared between lines: endpoints are values, so that complementing a line cannot change another one that holds the same object.
- IndexBounds.GetIndexBounds: several index columns are modelled for conjunctions without a nested AND or a NOT over a group, where the ranges of inner nodes do not matter.
- IndexBounds.ScanCoversQuery: over several columns asks for closed segments before each column's last; where several columns are bounded, which other queries are scanned completely is not characterised, and where one is, IndexGaps.QueryScannedIff does.
- IndexGaps.OneColumnIff: the line has no empty segment, which only complementing can leave behind.
- NotAcross.NotCoveredIff: null tests, a BETWEEN with its limits in the wrong order, and predicates of several columns of which the mask has lost all but one are left out.
- ReadProjection: key fields have no converters, as comparing keys assumes, and onResult's rows of one root stand together, which ORDER BY provides (ResultCoherent).
- JoinForest: join tables of many-to-many relationships are part of one join step, and the order of related rows is that of the forest.
- Sectors.BuildSectors: the mapping errors createSector may report are left out; each projection occurs once in the tree, as validation demands.
- Promises: thenables that are not promises of this kind, throwing getters of then, and progress callbacks are left out.
- PromiseRuntime.Runtime.Fulfill: a promise that a call of then returned is settled by its job alone; the source also lets a client fulfill it.
- PromiseRuntime.Runtime.Reject: the same for a rejection.
- BatchQueue.TransactionHandler.Execute: asks for at least one operation, since the source fails on an empty list; begin, commit and rollback with the handler's firstTime are left out, where overlapping calls overwrite each other.
- SqlText.TextReadsBack: text is a list of tokens, so quotes inside literals, which the source does not escape, are not modelled.
- SqlVisitor.SQLVisitor.Visit: a predicate that has been a root before keeps a text of its own, which is not modelled.
- BitMasks: words are lists of 24 bits and operate on them bit by bit.
- Query.getKeys, which does not descend into operands, and the marking of constants.
- Columns.TableHandler.WriteAndRead: asks for values that are defined and convert back, and for fields whose intermediate value has its columns as members; GetColumns and SetFields do not.
- Columns: null, binary checks and simple values given instead of objects are left out.
- ColumnMapping: relationship fields, default mappings and index handlers are left out; a column is taken as unmapped until a field is mapped to it.
- Validation: projections without cycles, which are numbered above those they are related to; what errors validation finds is given.
- Validation.Projections.AddFields: whether all arguments are names is given.
- Grammars.Evaluate: grammars are finite trees, without recursion, and only ASCII letters are put in upper case; the tokenizer and error texts are left out.
- TestSuite.Suite.RunTests: the list is given sorted, and the clearing test is not skipped, where the source goes on as if all were done.
- TimeStrings.MySQLTime.InitializeFromTimeString: what follows a point must be digits, since the source relies on JavaScript's conversion of other strings; numbers are not limited to 53 bits.
- Loader scanner, data sources and controller, Transaction.js, logging, statistics, command lines and samples.

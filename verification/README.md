# The binder of VaubanDB, modelled and proved

VaubanDB is a server that speaks Transact-SQL. Its binder takes the parsed statement and the catalogue
and builds a typed tree: expressions whose columns are positions in rows, and plans over them. Much of
what it builds is not what was written. `COUNT(*) + 1` becomes a column of an `Aggregate` node plus one,
`> ALL` becomes a `NOT IN`, an `ORDER BY` becomes three stacked nodes, a chain of `UNION` is taken apart
and put back, a `CHECK` constraint becomes a text that is parsed again years later. This project models
those rewritings and proves that each of them means what was written.

## How it is laid out

| files | what they hold |
|---|---|
| `sql_types`, `bound`, `evaluation`, `relational`, `evaluator` | types, the bound tree, and what it computes: expressions over a stack of rows, one row per query level, and plans over their inputs |
| `renaming` | columns renamed in an expression and in every plan nested in it |
| `syntax`, `grouping`, `slots`, `extraction`, `grouped_query`, `grouped_meaning`, `handed`, `refusal`, `twins`, `grouping_state` | grouped queries: aggregate extraction, nested queries, refusal |
| `worklists` | the traversals written as loops over a stack |
| `ordering`, `sort`, `order_by`, `distinct` | `ORDER BY`, with and without `DISTINCT` |
| `conversions`, `run_types`, `decimal_digits`, `set_op`, `set_meaning` | set operators and the types of their columns |
| `quantified`, `nullability`, `desugaring` | quantified comparisons, announced nullability, `BETWEEN` and `CASE` |
| `stored_text`, `stored_reader`, `stored_round_trip`, `stored_value`, `money` | the text of a stored expression, and the reader of it |
| `scopes`, `joins` | names, the chain of queries, the `FROM` |
| `counters` | the depth counter, the `WHILE` counter and the flag of a deferred statement |

The meaning of arithmetic, comparison, conversion, calls and aggregates is a parameter, the record `Sem`:
a theorem stated for every `Sem` holds of every implementation. Where a theorem needs a law of them, a
total order for `ORDER BY` say, the law is a hypothesis of the theorem. An error is an outcome of its own,
so the theorems say when the plan fails as well as what it produces. A plan hands out rows one by one, and
may fail after some of them: a projection, a filter, a set operator and a `DISTINCT` pass rows on as they are
pulled, a `TOP` pulls the rows it keeps and no more, a subquery those it needs, and a sort, an aggregate and a
join read their inputs whole first.

The rules that type an operator and choose the conversions around its operands are a parameter too (`Rules`)
in the theorems on grouped queries. A rule sees, of an operand, its type, its collation label, and the whole
of it when it reads no column: what the folding of a constant, the sign of a literal and a collation read.

## Where the code does not do what is promised

Each of these has a lemma with the exact condition.

- Two expressions compared for grouping are compared without their query level, so a column of an enclosing
  query is taken for a grouping column of the same type, at the same position, that has the same identifier
  within its table: the same column, or the column of another table that is its like
  (`Twins.OuterColumnExtraction`).
- A key that reads no column, or that carries a collation label of its own, is one thing to the operator above
  it and its column of the `Aggregate` another: what the rule of that operator sees is kept if and only if the
  key is seen as a column (`Extraction.KeyIsSeen`). So a literal after a unary `+` stays a literal if and only
  if it is not grouped by (`Twins.SignedLiteralExtraction`), and the `ISNULL` of an aggregate and a constant
  keeps its nullability if and only if the constant is not grouped by or its column tells of `NULL` what
  folding it does (`Twins.IsNullNullability`): `ISNULL(MAX(v), CAST(1 AS int))`, which is not nullable, is
  where the query groups by `CAST(1 AS int)` (`Twins.IsNullOverAConstantKey`). The value of a key is kept
  whatever it is.
- Under `DISTINCT`, a key and a select item that cast one column to two types are taken for one
  (`DistinctOrder.CastKeyMatches`).
- The type of a column of a run of set operators loses digits before the decimal point when a `money` outranks
  a wider integer that nothing from the first `decimal` on is as wide as, be there a `decimal` or not: `bigint`
  and `money` come to `money`, 15 digits for 19 (`RunTypes.MoneyRunKeepsDigits`).
- A depth is eight bits and stops at 255: a column is read where it was resolved, whatever the rows, if and
  only if it is at most 255 queries out (`Scopes.ReadsTheColumn`). The parser refuses a batch nested deeper
  than 220 (crates/vauban-parser/src/parser/mod.rs:262), which keeps the rest out of reach.

## Model

| member | source | states |
|---|---|---|
| `Extraction.SameCallValue` | crates/vauban-binder/src/aggregate.rs:1319-1459 | two aggregate calls taken for one have one type and one value over every group, the empty one included |
| `Extraction.KeyPreserved` | crates/vauban-binder/src/aggregate.rs:742-744 | an expression replaced by the column of a key, a literal key included, has its type and computes, on the row of a group, what it meant on any row of that group |
| `Extraction.KeyIsSeen` | crates/vauban-binder/src/aggregate.rs:482-535 | the rule of the operator above sees the column of a key as it saw the key if and only if the key is seen as a column |
| `Extraction.BindIsSeen` | crates/vauban-binder/src/expr.rs:1837-1882 | what a rule sees of an expression, read off what is written, is what it sees of the bound one |
| `Extraction.EntryPreserved` | crates/vauban-binder/src/aggregate.rs:721-739 | an aggregate replaced by its column reads its own value over the group, whatever entries are appended later |
| `Extraction.BindBesideSlots` | crates/vauban-binder/src/aggregate.rs:769-830 | what binds over the `FROM` binds to the same tree once the columns of the `Aggregate` are beside it |
| `Extraction.RewriteMeans` | crates/vauban-binder/src/aggregate.rs:482-535 | extraction preserves meaning: the rewritten expression, bound, has the type of the written one and computes on the row (keys, then aggregates) what the written one means with its aggregates over the group and its other columns on any row of the group, for every query whose keys under an operator are seen by it as columns |
| `Extraction.RewriteChildrenMeans` | crates/vauban-binder/src/aggregate.rs:539-716 | the same of a node rewritten through its operands, of which the rule of the node sees what it saw |
| `Extraction.ResolvedReads` | crates/vauban-binder/src/aggregate.rs:953-1005 | a resolved reference reads in the row of the `Aggregate` what it read in the row of the group or among the aggregates handed over |
| `Extraction.ResolveMeans` | crates/vauban-binder/src/aggregate.rs:841-949 | resolution preserves meaning at every nesting depth and under every plan nested in the expression |
| `Extraction.ResolvedReadsSlots` | crates/vauban-binder/src/aggregate.rs:841-1005 | after resolution no `FROM` column of this query and no handed-over aggregate is left to read, in the expression nor in a plan under it |
| `Slots.SlotsKeep` | crates/vauban-binder/src/aggregate.rs:748-763 | a column of the `Aggregate` keeps its position and its type whatever is extracted afterwards |
| `Slots.EntryOf` | crates/vauban-binder/src/aggregate.rs:721-739 | in every later table, the position issued for a call holds that call, or the same, at its type |
| `Slots.FirstReference` | crates/vauban-binder/src/aggregate.rs:953-981 | the first reference to a handed-over aggregate issues its position and remembers it; the table stays without duplicates |
| `Slots.ResolveIsRename` | crates/vauban-binder/src/aggregate.rs:841-882 | the stateful resolution is one renaming by the final table, so a position issued early is the position read at the end |
| `GroupedQuery.AboveAllGrows` | crates/vauban-binder/src/aggregate.rs:169-309 | across the select list, the `HAVING`, the `ORDER BY` and the handed-over aggregates: one type per aggregate, no aggregate twice, entries only appended |
| `GroupedQuery.AcceptedKeysOwn` | crates/vauban-binder/src/aggregate.rs:1171-1185 | a key that is a bare column and is not refused is a column of this query |
| `GroupedQuery.AboveMeans` | crates/vauban-binder/src/aggregate.rs:806-830 | one clause rewritten, bound and resolved computes on the row of the `Aggregate` what it means over the group, whatever later clauses add |
| `GroupedMeaning.AboveAllMeans` | crates/vauban-binder/src/aggregate.rs:372-443 | the same of all the clauses of a query against its one final table |
| `GroupedMeaning.AggregateSucceeds` | crates/vauban-binder/src/aggregate.rs:257-309 | the `Aggregate` of a query succeeds if and only if each of its aggregates has a value over each group |
| `GroupedMeaning.GroupedQueryMeans` | crates/vauban-binder/src/aggregate.rs:257-309 | the whole plan fails if the input fails, a key has no value on a row or an aggregate none over a group, and otherwise produces the written select list over each group the written `HAVING` holds of, in order, and fails when one of them does |
| `Refusals.RefusalIsExact` | crates/vauban-binder/src/aggregate.rs:482-535 | extraction succeeds if and only if every column is under an aggregate or a key, and otherwise names the first that is not |
| `Twins.OuterColumnExtraction` | crates/vauban-binder/src/aggregate.rs:1319-1459 | in any scope and whatever columns are grouped by, a column of an enclosing query is extracted right if and only if no grouping column has its type, its position and its identifier within its table |
| `Twins.SignedLiteralExtraction` | crates/vauban-binder/src/aggregate.rs:482-535 | in any scope and whatever is grouped by, a literal after a `+` stays a literal if and only if it is not grouped by |
| `Twins.ConstantExtracted` | crates/vauban-binder/src/aggregate.rs:482-535 | extraction leaves a constant as it is when no part of it is a key, and makes it a column of its type when it is one |
| `Twins.IsNullNullability` | crates/vauban-binder/src/call.rs:1458-1474 | for every constant replacement, every list of keys none of which is a proper part of it and every rule of the other operators, an `ISNULL` of an aggregate keeps its announced nullability if and only if the replacement is no key or its column tells of NULL what its folding does |
| `Twins.IsNullOverAConstantKey` | crates/vauban-binder/src/call.rs:1458-1474 | the input it fails on: `ISNULL(MAX(v), CAST(1 AS int))` is not nullable as written and is once the query groups by `CAST(1 AS int)` |
| `HandedOver.BindOuterAggregate` | crates/vauban-binder/src/aggregate.rs:1107-1138 | in place: the errors of the call come first, then the refusal of a query that collects no aggregate; otherwise the call goes last among those of its query, and the reference that comes back, its position, its type and its level, is what the nested query binds the call to |
| `HandedOver.NestedNamesAreOwned` | crates/vauban-binder/src/expr.rs:524-582 | what a nested query reads as a column so many levels up, a depth being held exactly, is, read from there, that query's own column |
| `HandedOver.HandedCallIsItsEntry` | crates/vauban-binder/src/aggregate.rs:1058-1138 | a call handed over binds in the query it belongs to as an aggregate of that query, of the same type, and its argument is there, on every row, what the nested query read |
| `HandedOver.EntriesAreOwn` | crates/vauban-binder/src/aggregate.rs:1107-1138 | the entries of calls handed over, from whatever nested queries, are what the theorems on a clause ask |
| `HandedOver.NestedAggregateMeans` | crates/vauban-binder/src/aggregate.rs:953-1138 | an aggregate over columns of an enclosing query, handed over, bound there, made a column of that `Aggregate` and read back in the nested query at any depth, is the written aggregate over the rows of the group |
| `GroupingState.GroupingTable.FindKey` | crates/vauban-binder/src/aggregate.rs:742-744 | the loop finds the first key that is the same expression |
| `GroupingState.GroupingTable.AggregateIndex` | crates/vauban-binder/src/aggregate.rs:721-739 | in place: the position of the call, appended when no entry is the same, earlier entries untouched |
| `GroupingState.GroupingTable.ResolveReference` | crates/vauban-binder/src/aggregate.rs:953-1005 | in place: the position of a reference, with the new table and the new memory, both unchanged on a refusal |
| `Worklists.NodesWhere` | crates/vauban-binder/src/aggregate.rs:1567-1645 | the stack loop returns exactly the outermost matching nodes in written order, or the first of them |
| `Worklists.OutermostAnswers` | crates/vauban-binder/src/aggregate.rs:1567-1645 | every node so listed matches |
| `Worklists.FindAggregate` | crates/vauban-binder/src/aggregate.rs:1559-1561 | an aggregate is found if and only if there is one, and it is the first written |
| `Worklists.IsConstant` | crates/vauban-binder/src/sort.rs:879-917 | the loop is the recursive definition of a constant item |
| `Worklists.ConstantEach` | crates/vauban-binder/src/sort.rs:879-917 | an operator is constant if and only if each operand is |
| `Worklists.ReadsAVariable` | crates/vauban-binder/src/sort.rs:346-398 | the loop is the recursive definition of an expression that reads a variable |
| `Worklists.VariablesUnread` | crates/vauban-binder/src/sort.rs:346-398 | an expression it says no to, holding no subquery, computes the same whatever the variables hold |
| `Worklists.ContainsInvalidNiladic` | crates/vauban-binder/src/expr.rs:418-486 | the loop is the recursive definition |
| `SortStack.WidenItems` | crates/vauban-binder/src/sort.rs:226-342 | the widened projection holds every item computed under the sort where it says, and the source row first when an item is computed over it |
| `SortStack.SortOverTheProjection` | crates/vauban-binder/src/sort.rs:226-342 | the stack built yields, for every source, select list, list of keys and `TOP`, the select list on the first rows of a stable sort by the keys, and no row and no error for a `TOP` of zero; it is refused only for a key past the select list |
| `SortStack.StackOrders` | crates/vauban-binder/src/sort.rs:226-342 | the same of any layout that places every item and key, items over variables computed above the sort |
| `SortStack.SortedByIsStable` | crates/vauban-binder/src/sort.rs:226-342 | there is a permutation of the rows sorted on the values of the keys, ties as they came, and every such permutation gives that order |
| `SortStack.ProjectTheKeys` | crates/vauban-binder/src/sort.rs:762-797 | each key of the sort refers to the column that holds it, at its type |
| `SortStack.KeyReferencesMean` | crates/vauban-binder/src/sort.rs:762-797 | those references read, in the widened row, the values of the keys on the source row |
| `OrderBy.SignedIntegerLiteral` | crates/vauban-binder/src/sort.rs:625-653 | the loop that carries a sign down is the recursive reading of a signed literal |
| `OrderBy.NamedOutputColumn` | crates/vauban-binder/src/sort.rs:668-686 | the one output column of the name, none, or an ambiguity when there are two |
| `OrderBy.CarriersAre` | crates/vauban-binder/src/sort.rs:668-686 | the columns counted are those of the name, case aside, and no others |
| `OrderBy.ResolveKeys` | crates/vauban-binder/src/sort.rs:521-536 | every item resolved and no column twice, or the error of the first item that does not resolve or repeats one |
| `OrderBy.PrintDetermines` | crates/vauban-binder/src/sort.rs:812-816 | two expressions of one print and one type are one expression |
| `DistinctOrder.SelectListPositions` | crates/vauban-binder/src/sort.rs:742-757 | the position of every key, refused if and only if a key is not in the select list |
| `DistinctOrder.KeyIsItsCell` | crates/vauban-binder/src/sort.rs:742-797 | on any source row, the value of a key is the projected cell it is mapped to |
| `DistinctOrder.CastKeyMatches` | crates/vauban-binder/src/sort.rs:812-816 | two casts of one column match whatever their types, and compute the same if and only if the types are one |
| `DistinctOrder.CollapsedAgree` | crates/vauban-binder/src/sort.rs:148-210 | source rows that collapse under `DISTINCT` compare equal on every key |
| `DistinctOrder.DistinctOrders` | crates/vauban-binder/src/sort.rs:148-210 | the `TOP` over the sort over the deduplicated select list cuts rows of the select list, no two the same, each source row behind one of them, in the written order of the keys on the source rows; it fails if and only if the source, an item on a source row or the count does, a `TOP` of zero never |
| `Conversions.ConvertToMeans` | crates/vauban-binder/src/expr.rs:1756-1775 | the operand brought to a type has the converted value, or its own when the type is its own |
| `RunTypes.PairWithExact` | crates/vauban-types/src/precedence.rs:364-414 | two numbers one of which is exact merge to the larger scale and the larger count of digits before the point, within 38 |
| `RunTypes.RunType` | crates/vauban-binder/src/setop.rs:389-422 | the loop is the fold of the pairwise types, corrected once at the end |
| `RunTypes.RunKeepsIntegralDigits` | crates/vauban-binder/src/setop.rs:389-471 | a run of exact numerics and integers has the widest type of its entries |
| `RunTypes.WidestDigits` | crates/vauban-binder/src/setop.rs:426-454 | that type has the digits before the point of the widest entry, and the scale 38 leaves |
| `RunTypes.RunOrderIsFree` | crates/vauban-binder/src/setop.rs:389-422 | it depends neither on the order of the entries nor on their repetition |
| `RunTypes.MoneyRunKeepsDigits` | crates/vauban-binder/src/setop.rs:389-471 | for every run of numbers, money included and with or without an exact numeric, the digits before the point are kept if and only if the cap is met or no entry before the first exact numeric is outranked by a narrower one and left uncovered after it |
| `RunTypes.MoneyNarrowsBigInt` | crates/vauban-binder/src/setop.rs:389-471 | `bigint` and `money` come to `money`, four digits short |
| `RunTypes.MoneyLosesDigits` | crates/vauban-binder/src/setop.rs:389-471 | `bigint`, `money`, `decimal(5,2)` come to `decimal(19,4)`, four digits short |
| `RunTypes.MoneyKeepsDigitsLast` | crates/vauban-binder/src/setop.rs:389-471 | with the `decimal` first they come to `decimal(23,4)` |
| `DecimalDigits.IntegerDigits` | crates/vauban-binder/src/setop.rs:515-530 | the loop counts the decimal digits |
| `DecimalDigits.DigitsAre` | crates/vauban-binder/src/setop.rs:515-530 | that count of digits writes the number and one fewer does not |
| `SetOps.SplitRunKeeps` | crates/vauban-binder/src/setop.rs:247-280 | a split run lists its operands as written, each at one place, and its skeleton over them is the tree |
| `SetOps.SplitRunIsOne` | crates/vauban-binder/src/setop.rs:247-280 | the operators of a run are one operator; `EXCEPT` and `INTERSECT` are alone in theirs |
| `SetOps.OperandList.Split` | crates/vauban-binder/src/setop.rs:247-270 | the walk that pushes onto the shared list is that split |
| `SetOps.OperandList.SplitOperand` | crates/vauban-binder/src/setop.rs:273-280 | the same of an operand, which continues the run or ends it |
| `SetOps.Assemble` | crates/vauban-binder/src/setop.rs:283-321 | each plan is taken out of its place, is there to be taken, and the operators come back in their shape |
| `SetMeaning.DedupInHalves` | crates/vauban-binder/src/setop.rs:188-224 | rows deduplicated in two halves, each deduplicated or not, are the rows deduplicated once |
| `SetMeaning.AssembledMeans` | crates/vauban-binder/src/setop.rs:283-321 | a run put back computes its one operator over its operands, whatever the parentheses |
| `SetMeaning.ProjectConverted` | crates/vauban-binder/src/setop.rs:608-643 | a projection converted in place hands out the rows of the projection, converted, up to the same failure |
| `SetMeaning.LimitConverted` | crates/vauban-binder/src/setop.rs:608-643 | cutting rows and converting them commute, failures included: no row past a `TOP` is converted |
| `SetMeaning.OperandConverted` | crates/vauban-binder/src/setop.rs:536-552 | an operand converted produces its own rows, deduplicated in their own types where it deduplicates, then converted |
| `SetMeaning.TypeTreeMeans` | crates/vauban-binder/src/setop.rs:188-224 | the plan of a tree of set operators computes what the tree means, whatever the `TOP`s in it: each run its one operator over its operands converted, a nested run and a `DISTINCT` deduplicated in their own types first |
| `SetOps.BindTreeExactly` | crates/vauban-binder/src/setop.rs:124-166 | a body of set operators is bound if and only if its `SELECT`s have one width, whatever the operators and the parentheses |
| `SetMeaning.BindSetOpMeans` | crates/vauban-binder/src/setop.rs:76-86 | the plan of a body as written, when it is accepted, computes what the body means |
| `SetMeaning.UnionAssociates` | crates/vauban-binder/src/setop.rs:76-86 | `(a UNION b) UNION c` and `a UNION (b UNION c)`, and the same of `UNION ALL`, are accepted together, with the same column types and the same rows |
| `SetMeaning.ParenthesesKeepTypes` | crates/vauban-binder/src/setop.rs:188-224 | the types of a run depend on the list of its operands alone |
| `SetMeaning.ParenthesesKeepRows` | crates/vauban-binder/src/setop.rs:188-224 | and so do its rows |
| `Quantified.DeeperMeans` | crates/vauban-binder/src/subquery.rs:400-499 | the tested expression bound one query deeper computes, under any row, what it computed |
| `Quantified.ProducedMeans` | crates/vauban-binder/src/subquery.rs:338-372 | the produced column under its conversion hands out the converted cells up to the first that fails |
| `Quantified.OutcomesDecide` | crates/vauban-binder/src/subquery.rs:400-499 | `1 IN` the outcomes, or `0 NOT IN` them, is the truth value of section 8.7 of ISO/IEC 9075:1992 |
| `Quantified.QuantifiedMeans` | crates/vauban-binder/src/subquery.rs:400-499 | a quantified comparison has that truth value over every query, NULLs and no row included, and fails when a conversion, the tested value or the query does before a candidate decides it |
| `Quantified.QuantifiedInMeans` | crates/vauban-binder/src/subquery.rs:299-328 | `= ANY` bound as `IN` and `<> ALL` bound as `NOT IN` have it too, and fail alike |
| `Nullability.InferenceIsSound` | crates/vauban-binder/src/call.rs:1275-1284 | a value announced not nullable is never NULL, for every expression the binder builds, in every environment that respects what is declared |
| `Nullability.LawsLeaveQuoteName` | crates/vauban-binder/src/call.rs:1576-1592 | the laws asked of the functions leave one that is not folded free to answer NULL, as `QUOTENAME` does |
| `Nullability.OperatorIsHonest` | crates/vauban-binder/src/expr.rs:833-843 | the same of one operator over honest operands |
| `Nullability.CallIsHonest` | crates/vauban-binder/src/call.rs:1458-1513 | the same of a call, `ISNULL` and `COALESCE` included |
| `Nullability.ReplacementNotNull` | crates/vauban-binder/src/call.rs:1466-1474 | a replacement read as not NULL does not evaluate to NULL |
| `Nullability.FoldedNotNull` | crates/vauban-binder/src/call.rs:1601-1641 | a constant the folding does not call nullable does not evaluate to NULL |
| `Nullability.FoldedIntegerNotNull` | crates/vauban-binder/src/call.rs:1646-1662 | a folded integer does not evaluate to NULL |
| `Nullability.CoalesceAnswer` | crates/vauban-binder/src/call.rs:1500-1513 | a `COALESCE` announced not nullable has an argument that is not NULL |
| `Desugaring.NotBetweenNegates` | crates/vauban-binder/src/expr.rs:1452-1483 | `BETWEEN` is both its comparisons, and `NOT BETWEEN`, bound as two others under `OR`, its negation, whichever value is NULL |
| `Desugaring.CaseMeans` | crates/vauban-binder/src/expr.rs:1533-1592 | a simple `CASE` bound as a searched one takes the first arm whose comparison is true |
| `Desugaring.CaseNullability` | crates/vauban-binder/src/expr.rs:1565-1572 | the nullability read off the branches before their conversion is that of the branches converted |
| `Desugaring.CaseIsBuilt` | crates/vauban-binder/src/expr.rs:1533-1602 | so a `CASE` as it is built is announced by the rule the soundness theorem asks for |
| `StoredText.InAsChain` | crates/vauban-binder/src/stored_text.rs:361-373 | the loop builds the chain of `OR` from its end |
| `StoredText.LogicOperatorIs` | crates/vauban-binder/src/stored_text.rs:387-407 | the operator looked for through parentheses is that of the normal form |
| `StoredText.WriteIsText` | crates/vauban-binder/src/stored_text.rs:163-347 | in every slot, what is written depends on the normal form alone |
| `StoredReader.TextReads` | crates/vauban-parser/src/parser/expr.rs:179-254 | the text of a normal form, read under the operator precedences, comes back whole as its tree |
| `StoredRoundTrip.LiteralTextOnce` | crates/vauban-binder/src/stored_text.rs:640-690 | a number written is written the same again |
| `StoredRoundTrip.TreeNormal` | crates/vauban-binder/src/stored_text.rs:163-347 | what is read from the text of a normal form has that normal form |
| `StoredRoundTrip.StoredTextRoundTrips` | crates/vauban-binder/src/stored_text.rs:158-347 | every stored text reads back to an expression of the same normal form and the same text |
| `StoredValue.LiteralTextKeeps` | crates/vauban-binder/src/stored_text.rs:640-690 | a number as written has the value and the type, `int` or `numeric(p,s)`, it was written from |
| `StoredValue.SignedValue` | crates/vauban-binder/src/stored_text.rs:615-637 | signs folded into a number change neither its value nor its type |
| `StoredValue.ChainTruth` | crates/vauban-binder/src/stored_text.rs:361-373 | the chain an `IN` is written as has its three-valued truth |
| `StoredValue.NormalValue` | crates/vauban-binder/src/stored_text.rs:163-347 | the normal form has the value of the expression, its numbers typed |
| `StoredValue.StoredTextIsFaithful` | crates/vauban-binder/src/stored_text.rs:71-101 | what is read back has the same text and, under every meaning of the words and of the operators on typed numbers, the same three-valued value |
| `MoneyText.MoneyTextOf` | crates/vauban-binder/src/stored_text.rs:706-742 | a money literal is printed if and only if it is digits of at most 30 before the point, rounded half away from zero, with no negative zero and no number past 128 bits |
| `MoneyText.ScaledRounds` | crates/vauban-binder/src/stored_text.rs:706-742 | the amount is within half of 0.0001 of the written one, ties away from zero |
| `MoneyText.ScaledFits` | crates/vauban-binder/src/stored_text.rs:706-742 | the largest intermediate number fits 128 bits |
| `MoneyText.PrintingAgain` | crates/vauban-binder/src/stored_text.rs:706-742 | printing what is printed is the identity while its whole part has at most 30 digits |
| `Scopes.Lookup` | crates/vauban-binder/src/star.rs:295-312 | the fold over the sources counts the matches: one, none, several, or no source asked |
| `Scopes.BindColumn` | crates/vauban-binder/src/expr.rs:524-582 | the walk out along the queries stops at the innermost level that answers, and its depth is the number of queries crossed |
| `Scopes.OneLinkPerQuery` | crates/vauban-binder/src/expr.rs:212-217 | a nested query adds one level, the wrapper of a subquery none |
| `Scopes.ReadsTheColumn` | crates/vauban-binder/src/expr.rs:524-582 | the reference reads the column it was resolved to in every stack of rows if and only if that is at most 255 queries out, where its depth is its level |
| `Scopes.OneQueryDeeper` | crates/vauban-binder/src/query.rs:266-274 | read from one query deeper, a name reaches the same column one level further out |
| `Scopes.OneQueryDeeperFails` | crates/vauban-binder/src/query.rs:266-274 | and a name that reaches nothing still does |
| `Joins.BindFromWithin` | crates/vauban-binder/src/join.rs:132-159 | the loop over the references is the tree of cross joins from the left |
| `Joins.CheckExposedNames` | crates/vauban-binder/src/join.rs:319-346 | a clash is found if and only if two sources have one name, it is the first, and its kind follows the aliases |
| `Joins.ShiftedBy` | crates/vauban-binder/src/star.rs:270-275 | every column moved by the offset, nothing else changed |
| `Joins.MadeNullable` | crates/vauban-binder/src/star.rs:279-284 | every column made nullable, nothing else changed |
| `Joins.JoinedSources` | crates/vauban-binder/src/join.rs:247-280 | the sources of the left, then those of the right moved past it, each side nullable where it may be padded |
| `Joins.ReferenceConsistent` | crates/vauban-binder/src/join.rs:163-310 | for a `FROM` of any shape, sources take consecutive blocks of the row in written order, each column at a column of its name, type and nullability, and no two sources have one name |
| `Joins.ReferenceLaid` | crates/vauban-binder/src/join.rs:247-364 | each source is that of its table moved past the columns of those before it, nullable exactly when a join around it may pad it |
| `Joins.LookupReadsTheRow` | crates/vauban-binder/src/star.rs:295-312 | a name found among the sources indexes a column of the row of that name and type |
| `Joins.ReferenceRows` | crates/vauban-binder/src/join.rs:247-364 | every row gives each source a row of its table, or NULLs, and NULLs only where all its columns are nullable |
| `Joins.ReferenceReads` | crates/vauban-binder/src/join.rs:247-364 | a column read from a row is the cell of its table, or a NULL its type announces |
| `Counters.Binder.BindExpr` | crates/vauban-binder/src/expr.rs:234-238 | a level is entered and left around every node: the depth comes back as it was on every way out, and the answer is that of the depth and the tree |
| `Counters.DepthIsExact` | crates/vauban-binder/src/depth.rs:110-119 | an expression with no other error is refused if and only if it is higher than 830 less the current depth |
| `Counters.Binder.BindDeclare` | crates/vauban-binder/src/variables.rs:278-316 | the items in written order, 134 for a name in scope or declared before it |
| `Counters.Binder.Bind` | crates/vauban-binder/src/statement.rs:101-114 | both counters and the flag come back as they were on success and on every error, and the answer is the recursive one |
| `Counters.Binder.BindNested` | crates/vauban-binder/src/control.rs:178-191 | the same, a statement kept unbound when its error is one of the six it waits with |
| `Counters.Binder.BindEach` | crates/vauban-binder/src/control.rs:232-240 | the statements in order, each against what those before it declared |
| `Counters.Binder.BindDeferred` | crates/vauban-binder/src/statement.rs:156-161 | the flag raised while the statement binds, then put back |
| `Counters.DeclaredEarlier.DeclareHeldBy` | crates/vauban-binder/src/variables.rs:176-198 | the declarations a bound statement holds are entered in written order until one is there already |
| `Counters.JumpsAreExact` | crates/vauban-binder/src/control.rs:215-264 | what binds with jumps left to the program binds without, and to the same tree, if and only if each jump outside a deferred statement is under a `WHILE`; otherwise 135 or 136 is answered |
| `Counters.BoundJumpsAreEnclosed` | crates/vauban-binder/src/control.rs:215-264 | in a tree bound from zero with the flag down every jump outside a deferred statement is under a `WHILE` |
| `Counters.DeclarationsAreNew` | crates/vauban-binder/src/variables.rs:176-198 | the names a bound statement declares are new to its scope and differ from each other |
| `Counters.TakingInNeverFails` | crates/vauban-binder/src/control.rs:153-165 | so entering them after a nested statement never answers 134 |

## Left out

- Error texts, severities and lines, and most error numbers: an error is a refusal, or names the column refused; the numbers are kept in `counters`, where they decide what is deferred.
- What the rules that type an operator, look a function up or choose a conversion choose is not stated by the theorems on grouped queries, which hold for all of them.
- The quantified comparison, window functions and `VALUES` are not among the nodes extraction rewrites, and an expanded view or a derived table is a plan like another.
- In-place rewriting of nodes: `resolve_expr` and `resolve_plan` overwrite nodes of a tree the query owns; the model returns the new tree and keeps as mutable state only the table of aggregates, the aggregates handed over and the memory of their positions.
- Collations are opaque numbers compared for equality, and which collation a comparison takes is the first an operand carries; the resolution of conflicts between collations is not modelled.
- A sort, an aggregate and a join read their inputs whole before they hand out a row; where the server's joins hand out rows earlier, the model fails where the server may have stopped before.
- `GroupedMeaning.GroupedQueryMeans`: groups by equal keys, where a server groups strings that its collation holds equal.
- `TOP … PERCENT`, `WITH TIES`, `OFFSET` and functions that are not deterministic.
- `SetMeaning.TypeTreeMeans`: a `SELECT` under a set operator is a projection, perhaps under `TOP` or `DISTINCT`; the branches of `convert_projection` for a filter or a sort above a projection are not modelled.
- `StoredText.WriteIsText`: covers operators, predicates, integer and decimal literals and bare words; function calls, `CASE`, `CAST`, `COLLATE`, bracketed and dotted names, strings and float literals are not modelled, a text is a sequence of tokens, and the blanks between them are not.
- `StoredReader.TextReads`: the reader has no `IN` and no `BETWEEN`, which a stored text never holds, and no limit on nesting.
- `Nullability.InferenceIsSound`: the table that classes each built-in function is a parameter, with the law of each class as a hypothesis.
- `Nullability.FoldedIntegerNotNull`: integers do not wrap at 128 bits.
- `Scopes.BindColumn`: the names that are functions without parentheses are not tried.
- `Counters.Binder.Bind`: a statement outside control of flow is the expressions it binds and the answer it gives; a variable name stands for the key it is found under, and a condition that opens with a function without parentheses is not told apart.
- Counters and column positions do not overflow machine integers.
- Data definition, `INSERT`, `UPDATE`, `DELETE`, `EXECUTE`, transactions, hints and views: field copying and ordered checks that would only add easy members.

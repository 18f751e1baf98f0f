# A verified model of Tortoise ORM

Tortoise ORM turns Python expressions into SQL and runs them over a small concurrency protocol. This
project models the parts of it that decide something, in Dafny, and proves what they promise:

- **Filters** (`Kleene`, `Lookups`, `ModelGraph`, `Criteria`, `QTrees`, `QExpressions`,
  `RelationJoins`, `JointChains`, `FilterKeys`). A tree of `Q` objects is compiled into WHERE, HAVING and a list of LEFT JOINs. SQL
  conditions are read in three-valued logic, joins over sequences of rows.
- **Transactions and connections** (`RawStore`, `SharedConnection`, `TransactionContexts`,
  `TransactionOutcomes`, `Connections`). `SharedConnection` is a state machine for any number of asyncio tasks on one
  SQLite connection; `TransactionContexts` follows one of them through nested contexts, and
  `TransactionOutcomes` says what its blocks leave in the database; `Connections` follows the alias dict that transactions shadow.
- **`get_or_create`** (`GetOrCreate`): concurrent calls under a unique constraint, as a state machine.
- **Fetching and writing in bulk** (`SelectRelated`, `Prefetch`, `PrefetchPaths`, `BulkUpdate`,
  `UpdateSql`): each fast form is compared with the simple one it stands for.
- **Schema order** (`SchemaOrder`), **LIKE escaping** (`LikeEscape`), **many-to-many relations**
  (`ManyToMany`) and **schema recursion over cyclic models** (`PydanticRecursion`).

Code that changes state is modelled by methods and classes whose contracts tie the new state to a
specification function; code made of expressions is modelled by functions. What is promised is then
proved about those functions. Statements, columns and constraints are abstract syntax with a
semantics; rendering to SQL text appears only where text is the point (`LikeEscape`, and the cache key
of `UpdateSql`).

Where the code does less than its documentation or its name suggests, the model follows the code, a
lemma gives the exact condition under which the promise is kept, and another shows it failing on a
concrete input or run:

| promise | kept exactly when | condition | failing case |
|---|---|---|---|
| `~q` complements `q` | `q` is not negated already, or has no condition | `QTrees.InvertedComplements` | `QTrees.DoubleInversionStaysNegated` |
| `not_in` complements `in` | the list holds no NULL | `Lookups.NotInComplementsIn` | `Lookups.NotInWithNullIsUnknown` |
| a filter counts chains of related rows only | its lookup is not true on NULL | `RelationJoins.CountsChainsOnly` | `RelationJoins.MissingRowPassesIsNull` |
| a finished block leaves no open transaction | it is not left by TransactionManagementError while unfinalised; otherwise the next start commits the abandoned statements | `TransactionContexts.FinalisedOnce` | `TransactionContexts.RaisingLeaks`, `SharedConnection.LeakIsReachable` |
| nested contexts work alike on pooled backends | no nested context is entered inside a nested one; otherwise the coroutine waits for a lock it holds | `TransactionContexts.PooledNestingGetsStuck` | `TransactionContexts.ThirdLevelGetsStuck` |
| a left transaction is bound to no alias | its alias was not discarded between `in_transaction()` and entering | `Connections.WrapperLeftBehind` | `Connections.DiscardLeavesWrapper` |
| `select_related` rebuilds the related objects | every related row that is there has a truthy column | `SelectRelated.RebuildsExactlyTruthyRows` | `SelectRelated.FalsyRowIsLost` |
| prefetching a backward relation agrees with asking each object | the object's own key is not NULL, or there are no orphans | `Prefetch.BatchedEqualsPerObject` | `Prefetch.OrphansDiffer` |
| prefetching a forward relation leaves the key column alone | the key is NULL or the row it names comes back | `Prefetch.KeyKeptIff` | `Prefetch.FilteredReferenceLosesKey` |
| prefetching refuses names that are no relations | the level before the name has objects (the first name is always looked at) | `PrefetchPaths.Prefetch` | `PrefetchPaths.EmptyLevelHides` |
| `bulk_update` is safe for a list of fields | each of them is stored in the column of its own name | `BulkUpdate.SafeFieldsIff` | `BulkUpdate.RenamedFieldFails`, `BulkUpdate.CrossedFieldsOverwrite` |
| one `bulk_update` equals saving one by one | there is nothing to write, or no batch is empty, the listed names are as columns the columns of the listed fields, and for every key the first object of the last batch naming it holds under each such name what the last object naming it holds in the field stored there | `BulkUpdate.BulkEqualsSavesIff` | `BulkUpdate.RepeatedKeyDiffers`, `BulkUpdate.NothingToUpdate` |

## Model

| member | source | states |
|---|---|---|
| Common.PartitionRebuilds | tortoise/queryset.py:891 | Splitting a path at the first `__` loses nothing and splits at no earlier separator. |
| Lookups.InDecidesMembership | tortoise/filters.py:90-94 | `IN` is true exactly for members of the list and unknown exactly for NULL operands or, with a NULL in the list, for non-members. |
| Lookups.AcceptsNullIsExact | tortoise/filters.py:90-121 | Which lookups let through the NULLs that an outer join supplies. |
| Lookups.NotInComplementsIn | tortoise/filters.py:97-101 | `not_in` is the complement of `is_in` on every column value exactly when no NULL is listed. |
| Lookups.NotInWithNullIsUnknown | tortoise/filters.py:97-101 | `NOT IN (1, NULL)` is unknown for 2, which is not in the list. |
| Lookups.NotEqualComplementsEq | tortoise/filters.py:108-109 | `not_equal` is the complement of equality on every column value exactly when it is given a present value. |
| Criteria.JoinMeaning | tortoise/query_utils.py:116-136 | `&` and `\|` of two modifiers mean the Kleene AND and OR of their meanings, also where a WHERE part has to move to HAVING and where a side is empty. |
| Criteria.InvertMeaning | tortoise/query_utils.py:138-144 | `~` of a modifier means the complement of its meaning, with the empty modifier staying empty. |
| Criteria.JoinSplit | tortoise/query_utils.py:116-136 | Joining modifiers never moves an aggregate into WHERE and uses HAVING exactly when an operand does. |
| Criteria.InvertSplit | tortoise/query_utils.py:138-144 | The same for inversion. |
| QTrees.FilterIsLeaf | tortoise/expressions.py:210-322 | A filter through any depth of relations becomes one condition, in WHERE or in HAVING, with the joins of its path in order; it fails exactly when the path leads nowhere. |
| QTrees.MeaningPreserved | tortoise/expressions.py:324-370 | For every Q tree and every true/false/unknown reading of its conditions, WHERE and HAVING together have the value of the tree itself; empty nodes are neutral. |
| QTrees.ChildrenMeaning | tortoise/expressions.py:341-354 | The same for the children of a node under its connective. |
| QTrees.FiltersMeaning | tortoise/expressions.py:324-339 | The same for the keyword filters of a node. |
| QTrees.AggregatesStayInHaving | tortoise/expressions.py:225-245 | No aggregate condition of any tree reaches WHERE, nested relation filters included, and HAVING is empty exactly when the tree has no aggregate. |
| QTrees.FailsOnUnknownKey | tortoise/expressions.py:295-322 | Compiling a tree raises exactly when some filter in it has a key that leads nowhere. |
| QTrees.ConnectivesMean | tortoise/expressions.py:167-185 | `a & b` and `a \| b` mean the AND and the OR of the two trees. |
| QTrees.FlippedMeans | tortoise/expressions.py:204-208 | `negate()` complements the meaning and is its own inverse. |
| QTrees.InvertedComplements | tortoise/expressions.py:187-193 | `~q` complements `q` under every reading exactly when `q` carries no negation yet or has no condition. |
| QTrees.DoubleInversionStaysNegated | tortoise/expressions.py:187-193 | `~~Q(id=1)` compiles to `~Q(id=1)` and is false where `Q(id=1)` is true. |
| FilterKeys.NoneAsksForNull | tortoise/expressions.py:252-256 | `filter(key=None)` where `key__isnull` exists returns exactly the rows whose column is NULL, and `~Q(key=None)` exactly those whose column is not. |
| FilterKeys.ScalarAsks | tortoise/filters.py:108-121 | Which rows a filter by one value returns, plain and negated, in terms of the row's column and the value, for equality, `not`, `gt`, `isnull` and `not_isnull`. |
| FilterKeys.ListAsks | tortoise/filters.py:90-101 | The same for `in` and `not_in`: members only, or non-members and NULLs unless the list holds a NULL; an empty list keeps nothing, or everything. |
| FilterKeys.ComparisonDecides | tortoise/filters.py:108-109 | When an operator with one argument is true of a value, and when it is unknown, annotations included. |
| FilterKeys.NullTestDecides | tortoise/filters.py:112-121 | `isnull` and `not_isnull` are never unknown, and the truth of their argument decides which of the two is asked. |
| FilterKeys.ListDecides | tortoise/filters.py:90-101 | When `in` and `not_in` are true, and when they are unknown. |
| FilterKeys.ForeignKeyAsksItsColumn | tortoise/expressions.py:295-305 | A foreign key named in a filter asks its source column, and is never refused. |
| FilterKeys.RefusedIff | tortoise/expressions.py:295-322 | A key is refused exactly when its path of relations leads to neither a filter nor an annotation. |
| FilterKeys.PathArrives | tortoise/expressions.py:210-223 | A key behind relations arrives at the model its names lead to, by the hops of those relations, and asks there what that model keeps under the rest of the key. |
| FilterKeys.EndAsksForNull | tortoise/expressions.py:252-256 | At the end of a path `None` asks for NULL. |
| FilterKeys.EndAsksScalar | tortoise/filters.py:108-121 | Which rows at the end of a path satisfy a filter by one value, operator by operator. |
| FilterKeys.EndAsksList | tortoise/filters.py:90-101 | Which rows at the end of a path satisfy `in` and `not_in`. |
| FilterKeys.ConjunctionPasses | tortoise/expressions.py:167-175 | A row passes `a & b` when it passes both, and fails it when it fails one; two absent conditions stay absent. |
| FilterKeys.DisjunctionPasses | tortoise/expressions.py:177-185 | A row passes `a \| b` when one of them is true of it; an absent side does not make it pass unless both are absent. |
| FilterKeys.NegationPasses | tortoise/expressions.py:204-208 | A negated condition lets pass exactly what the condition fails; what is unknown passes neither. |
| ModelGraph.JoinedTablesDiffer | tortoise/query_utils.py:54-75 | Two forward relations of a model, or backward ones onto its own table, join tables under different references, none of them the model's own. |
| QExpressions.Q.constructor | tortoise/expressions.py:148-165 | Sub-queries and filters given together are pushed into two levels; given alone they are kept as they are. |
| QExpressions.Q.And | tortoise/expressions.py:167-175 | A fresh node for the conjunction of both operands' trees. |
| QExpressions.Q.Or | tortoise/expressions.py:177-185 | A fresh node for the disjunction of both operands' trees. |
| QExpressions.Q.Invert | tortoise/expressions.py:187-193 | A fresh node that is negated whatever the operand's own flag was. |
| QExpressions.Q.Negate | tortoise/expressions.py:204-208 | Flips the flag of this node and nothing else. |
| QExpressions.Q.ResolveKwargs | tortoise/expressions.py:324-339 | The accumulating loop over filters computes the recursive specification, errors included. |
| QExpressions.Q.ResolveChildNodes | tortoise/expressions.py:341-354 | Joining the children, each handed this node's annotations first, and inverting at the end computes the specification. |
| QExpressions.JoinNodes | tortoise/expressions.py:341-354 | The loop over nodes, under either connective, computes the recursive specification and touches nothing but the contexts it overwrites. |
| QExpressions.Q.Resolve | tortoise/expressions.py:356-370 | The result depends on the tree and on this node's own context only; contexts left in the nodes below by earlier uses never matter, and no tree changes. |
| QExpressions.NewJoinsCover | tortoise/queryset.py:145-148 | After de-duplication no table is joined twice and every table asked for is there. |
| QExpressions.QueryBuilder.AddJoins | tortoise/queryset.py:145-148 | The joining loop appends exactly the joins whose tables are new, in order. |
| QExpressions.QueryBuilder.ResolveFilters | tortoise/queryset.py:121-151 | Several Q objects resolve to the conjunction of their trees; WHERE, HAVING and joins of the query are set from it, or nothing is when it fails. |
| RelationJoins.LeafFollowsPath | tortoise/query_utils.py:23-75 | The joins compiled for a key realise its relation path hop by hop (foreign key, backward and many-to-many), and its condition sits on the last table. |
| RelationJoins.JoinCount | tortoise/query_utils.py:23-75 | How many combined rows of a chain of LEFT JOINs survive a test on its last table, from any starting row or from NULL. |
| RelationJoins.LinkedIff | tortoise/query_utils.py:60-75 | Two rows are linked exactly when both keys are present and equal. |
| RelationJoins.FilterCountsChains | tortoise/expressions.py:210-223 | A base row comes back once per chain of related rows ending in a satisfying row, plus once per chain that breaks off for lookups that accept NULL; on paths of any length with pairwise distinct tables. |
| RelationJoins.CountsChainsOnly | tortoise/expressions.py:210-223 | The second part vanishes, for all data, exactly when the lookup is not true on NULL. |
| RelationJoins.MissingRowPassesIsNull | tortoise/filters.py:112-115 | A filter for `isnull=True` behind a relation returns a base row that has no related row at all. |
| RelationJoins.ToOneNeverDuplicates | tortoise/queryset.py:145-148 | Along a path on which no row has two successors, the expected count is one or none, decided by the row that is reached. |
| RelationJoins.UniqueTargetIsToOne | tortoise/query_utils.py:60-75 | A hop onto a unique column finds at most one row, and none exactly when no row is linked. |
| RelationJoins.ToOneFilterReturnsOnce | tortoise/queryset.py:145-148 | If every hop of the path arrives at a unique column, the compiled query returns a base row at most once, and exactly when the row it reaches satisfies the lookup, or is missing and the lookup accepts NULL. |
| RelationJoins.TreeSelects | tortoise/queryset.py:138-151 | For a tree without aggregates WHERE keeps exactly the combined rows on which the tree is true or says nothing. |
| JointChains.JoinsAreJoint | tortoise/queryset.py:145-148 | A list of LEFT JOINs, each hanging on an earlier table, yields every consistent choice of one linked row (or none, where none is linked) per joined table, and yields it once; the order of the joins plays no part. |
| JointChains.ResolvedJoins | tortoise/query_utils.py:116-144 | The joins of a resolved tree are those of its leaves, in order, whatever the connectives and negations. |
| JointChains.NewJoinsWellJoined | tortoise/queryset.py:145-148 | De-duplicated by table, the joins of a tree still hang on earlier tables. |
| JointChains.TreeReturnsJointChains | tortoise/queryset.py:138-151 | For any Q tree without aggregates, however many of its filters share relations, the results for a base row are the joint chains of related rows for which the tree is true (or says nothing), each exactly once. |
| RawStore.SentIsAtomic | tortoise/backends/sqlite/client.py:189-206 | After BEGIN, whatever is sent, the connection is in a transaction until the first end, and the database then has the events taken atomically. |
| SharedConnection.StepKeepsInv | tortoise/backends/sqlite/client.py:117-207 | Every step of every task and wrapper keeps the invariant about lock, open transaction and record of holds. |
| SharedConnection.CommittedIsSerial | tortoise/backends/base/client.py:220-272 | For any number of tasks and every interleaving, the committed database is the replay, in lock-acquisition order, of whole transactions and single autocommit statements. |
| SharedConnection.OnlyTheHolderActs | tortoise/backends/sqlite/client.py:168-207 | Everything sent during a hold comes from its holder; no transaction is open when the lock is free; an open transaction sees what came before plus its own statements; BEGIN never fails. |
| SharedConnection.StepExtendsHistory | tortoise/backends/base/client.py:234-241 | The record of holds grows by one exactly when the lock is acquired, for the one who got it, and only its last entry ever changes. |
| SharedConnection.RunFreezesHistory | tortoise/backends/base/client.py:234-241 | Earlier holds are final over any run. |
| SharedConnection.ExitCloses | tortoise/backends/base/client.py:263-272 | Leaving a block, except by TransactionManagementError while unfinalised, frees the lock with no transaction open. |
| SharedConnection.BlockStarts | tortoise/backends/sqlite/client.py:189-195 | Entering a block takes the lock and begins on what is committed. |
| SharedConnection.UseFromStartToEnd | tortoise/backends/sqlite/client.py:143-152 | A statement through a wrapper changes what its transaction sees and nothing committed; once the transaction is over it takes effect at once. |
| SharedConnection.EndFromStartToEnd | tortoise/backends/sqlite/client.py:196-207 | An explicit commit makes what the transaction saw the database, a rollback drops it, and a second end changes nothing. |
| SharedConnection.EndDecides | tortoise/backends/sqlite/client.py:196-207 | The same, said by the record: the earlier holds, with or without the statements of this one. |
| SharedConnection.ExitDecides | tortoise/backends/base/client.py:263-272 | Leaving an unfinalised block normally makes the database the earlier holds with the block's statements; leaving it by an exception makes it the earlier holds alone. |
| SharedConnection.ExitAfterEnd | tortoise/backends/base/client.py:264 | Leaving a finalised block sends nothing. |
| SharedConnection.BatchDecides | tortoise/backends/sqlite/client.py:130-141 | A batch leaves all of its rows when it succeeds and none when it fails. |
| SharedConnection.BatchFromStartToEnd | tortoise/backends/sqlite/client.py:130-141 | Run from start to end, a batch changes the database by all of its rows or not at all, and frees the lock. |
| SharedConnection.SingleFromStartToEnd | tortoise/backends/sqlite/client.py:123-127 | An autocommit statement takes effect at once and frees the lock. |
| SharedConnection.OthersLeaveItAlone | tortoise/backends/base/client.py:234-241 | No step of another task changes what a task is in the middle of. |
| SharedConnection.OneStatementAtATime | tortoise/backends/sqlite/client.py:168-177 | In every interleaving at most one task executes a statement through a wrapper. |
| SharedConnection.LeakyExitLeavesOpen | tortoise/backends/base/client.py:263-272 | In the excepted case the lock is freed while the transaction is open. |
| SharedConnection.LeakIsCommittedByNextStart | tortoise/backends/sqlite/client.py:189-195 | The next transaction's start then commits the abandoned statements. |
| SharedConnection.LeakIsReachable | tortoise/backends/base/client.py:263-272 | A run from the start reaches such a leak: one statement in one transaction, the block left by TransactionManagementError, and the statement committed by the start of the next transaction. |
| TransactionContexts.TransactionWrapper.Start | tortoise/backends/sqlite/client.py:189-195 | SQLite commits what was left open on its one connection and begins; a pooled backend begins on the fresh connection it was handed. |
| TransactionContexts.TransactionWrapper.End | tortoise/backends/sqlite/client.py:196-207 | Commit or rollback ends the transaction and marks it finalised, or raises without sending anything when it is finalised already. |
| TransactionContexts.TransactionWrapper.RunNested | tortoise/backends/base/client.py:302-325 | The nested contexts around any body send exactly what the value-level reading says, and give their lock back. |
| TransactionContexts.TransactionWrapper.RunBlock | tortoise/backends/base/client.py:256-272 | The same for a whole outer block, on SQLite from any state of its connection, on a pooled backend from a connection outside a transaction. |
| TransactionContexts.FinalisedOnce | tortoise/backends/base/client.py:263-325 | A transaction is finalised at most once, and not at all exactly when it leaks or its body never ends unfinalised. |
| TransactionContexts.AllOrNothing | tortoise/backends/base/client.py:263-325 | The statements before the one finalising event survive all together, exactly when it is a commit. |
| TransactionOutcomes.QuietOutcome | tortoise/backends/base/client.py:263-325 | A block without explicit commit or rollback (nested contexts and caught exceptions included): if its body ends normally, the database has all its statements; if an exception leaves it, none; if that is TransactionManagementError, the transaction stays open with them. |
| TransactionOutcomes.ExplicitEnd | tortoise/backends/sqlite/client.py:196-207 | An explicit commit or rollback in a body decides about the statements before it; those after it take effect one by one, however the block is left. |
| TransactionOutcomes.CaughtNestedFailure | tortoise/backends/base/client.py:306-311 | A nested context left by an exception that the body catches has rolled back the statements before it too, and later ones take effect one by one. |
| TransactionContexts.LeakStaysOpen | tortoise/backends/base/client.py:263-272 | A leaked transaction changes nothing that is committed and stays open. |
| TransactionContexts.RaisingLeaks | tortoise/backends/base/client.py:263-272 | A block that executes a statement and raises TransactionManagementError leaves the transaction open with it. |
| TransactionContexts.NestedNeverCommits | tortoise/backends/base/client.py:306-325 | A body without an explicit commit commits nothing, however many nested contexts it enters and leaves. |
| TransactionContexts.PooledNestingGetsStuck | tortoise/backends/base/client.py:314-325 | A pooled nested context waits for itself exactly when it is inside another one; otherwise pooled and plain contexts do the same. |
| TransactionContexts.ThirdLevelGetsStuck | tortoise/backends/base/client.py:314-325 | Three contexts inside one another commit on SQLite and stand still on a pooled backend. |
| Connections.ConnectionHandler.GetConnection | tortoise/connection.py:102-120 | The bound connection, or a new one bound in the current dict when the alias is configured. |
| Connections.ConnectionHandler.Set | tortoise/connection.py:122-137 | Installs a copy of the dict with the alias rebound; the token is the old dict, untouched. |
| Connections.ConnectionHandler.DiscardConnection | tortoise/connection.py:139-149 | Removes one alias from the current dict. |
| Connections.ConnectionHandler.Reset | tortoise/connection.py:151-169 | The token's dict is current again, with the aliases only the inner dict knew added to it. |
| Connections.CopyMissing | tortoise/connection.py:160-169 | The copying loop keeps every old binding and adds exactly the new aliases. |
| Connections.LookupTwice | tortoise/connection.py:102-120 | A lookup raises exactly for an alias neither bound nor configured; otherwise it gives the bound connection, or a client no alias was bound to, and the next lookup gives the same. |
| Connections.InsideSeesWrapper | tortoise/backends/base/client.py:256-261 | Inside a block that opens a transaction, as far as its code does not discard the alias, every lookup of it, however deep, is given the wrapper made on entering, which is a new one. |
| Connections.InsideSeesOthers | tortoise/connection.py:135-137 | Other aliases give inside what they gave outside, unless the code discards them or opens transactions on them. |
| Connections.InnerTransactionRunsItsCode | tortoise/backends/base/client.py:302-304 | `in_transaction` on an alias bound to a wrapper makes no further wrapper: it runs its code and nothing else. |
| Connections.BlockRaisesAsItsBody | tortoise/backends/base/client.py:263-272 | A block raises exactly when its body does. |
| Connections.RaisesAtTheFirst | tortoise/backends/base/client.py:263-272 | Code that raises nothing and uses configured aliases runs to its end, whatever it nests; code ends at its first exception with the state and the lookups it had made. |
| Connections.ConnectionHandler.RunOps | tortoise/transactions.py:14-39 | Any nesting of transactions, lookups, discards and exceptions ends with the same dict current as before, with the contents of the value-level reading; its lookups are given the connections of that reading. |
| Connections.LeavingRestores | tortoise/backends/base/client.py:256-272 | Leaving a block restores every alias bound before it and keeps exactly the connections first created inside. |
| Connections.WrapperLeftBehind | tortoise/transactions.py:29-39 | The exited wrapper stays bound exactly when its alias was discarded before the block was entered and not inside. |
| Connections.DiscardLeavesWrapper | tortoise/transactions.py:29-39 | Discarding the alias between making and entering the context leaves the wrapper bound to it. |
| Connections.NoWrapperLeftBehind | tortoise/transactions.py:29-39 | With `async with in_transaction()` in one piece no alias stays bound to the wrapper. |
| Connections.RunsEndOutside | tortoise/backends/base/client.py:256-272 | Over any run of such nested transactions no wrapper is bound at the end that was not bound at the start. |
| Connections.OutsideBindingsStay | tortoise/backends/base/client.py:256-272 | Over any run of such code started outside a transaction, whatever its blocks discard, raise or open, an alias bound at the start is bound to the same connection at the end unless the code discards it outside the blocks. |
| GetOrCreate.CreatedRowSatisfiesLookup | tortoise/models.py:1066-1073 | The row to be created satisfies the lookup exactly when no default contradicts it. |
| GetOrCreate.CreatedRowHolds | tortoise/models.py:1066-1073 | Over every interleaving: the row of a call that answered it created one holds every default and every lookup value, the model's own value in every other field, and no further field. |
| GetOrCreate.PresentRowIsReturned | tortoise/models.py:1057-1058 | A row that is there from the start is what every call with its lookup answers, as found, even with contradictory defaults; it stays as it is. |
| GetOrCreate.ConstraintsHold | tortoise/models.py:1071-1079 | In every interleaving no two rows agree on the lookup fields or on a further unique constraint, and no row breaks a constraint of its own. |
| GetOrCreate.RunKeepsInv | tortoise/models.py:1036-1079 | Every interleaving of any number of calls keeps the protocol's invariant. |
| GetOrCreate.SameRowCreatedOnce | tortoise/models.py:1036-1079 | Calls with the same lookup return the same row, which satisfies it, and at most one reports having created it. |
| GetOrCreate.ErrorsAreTheCallersOwn | tortoise/models.py:1063-1079 | A call raises ParamsError only for contradictory defaults, IntegrityError only when its row breaks a constraint other than that on the lookup fields (a further unique constraint included), and never finds several rows. |
| GetOrCreate.ExactlyOneCreates | tortoise/models.py:1036-1079 | If the row was absent and only these calls insert it, exactly one call created it as soon as one has returned it. |
| GetOrCreate.NeverStuck | tortoise/models.py:1036-1079 | While a call is unfinished, some call can go on. |
| GetOrCreate.FiveStepsEach | tortoise/models.py:1036-1079 | In every interleaving each call is over after at most five steps of its own. |
| GetOrCreate.StopsOnlyWhenOver | tortoise/models.py:1036-1079 | A run that only other writers could continue has finished every call. |
| SelectRelated.Query.Join | tortoise/queryset.py:937-977 | The recursive join of one path records each entry once and selects its columns every time, outermost first; it fails exactly when the path is not one of relations. |
| SelectRelated.Query.AddAll | tortoise/queryset.py:1031-1040 | The same for all requested paths in turn. |
| SelectRelated.EntriesTileRow | tortoise/queryset.py:953-965 | With duplicate column names dropped, the selected columns are exactly the blocks that the recorded entries count, shared prefixes included. |
| SelectRelated.TilesWholeRow | tortoise/queryset.py:999-1040 | For every schema and every set of paths, the row of the whole query is tiled by its entries, whose paths are distinct and parent-first. |
| SelectRelated.ParentsComeFirst | tortoise/queryset.py:966-976 | Each parent entry precedes its children, and an entry's path determines its column count. |
| SelectRelated.EntriesCoverPaths | tortoise/queryset.py:1031-1040 | The recorded entries stand for the model itself and every non-empty prefix of a requested path, and for nothing else. |
| SelectRelated.Attach | tortoise/backends/base/executor.py:142-150 | One turn of the slicing loop makes an instance only for a slice with a truthy value and links it, or None, to its parent's instance if there is one. |
| SelectRelated.BuildInstance | tortoise/backends/base/executor.py:133-151 | Slicing a row gives one instance per visible related row with that row's columns, each linked from its parent's instance and nowhere else. |
| SelectRelated.Execute | tortoise/queryset.py:1031-1040 | A whole query for related objects: the instances and links above for the requested paths, or failure when a path does not resolve. |
| SelectRelated.FollowFinds | tortoise/backends/base/executor.py:146-150 | Following attributes from the row's instance finds an object exactly when every object on the way was made. |
| SelectRelated.RebuildsExactlyTruthyRows | tortoise/backends/base/executor.py:142-150 | The rebuilt object tree is the original one, null branches included, exactly when every related row that is there has a truthy column. |
| SelectRelated.FalsyRowIsLost | tortoise/backends/base/executor.py:142-145 | A related row with nothing truthy in it comes back as None. |
| Prefetch.FileByKey | tortoise/backends/base/executor.py:338-344 | The grouping loop files every row under its key, in result order. |
| Prefetch.PrefetchReverse | tortoise/backends/base/executor.py:309-352 | Each instance receives exactly the rows that a query for its own key returns, in the same order. |
| Prefetch.FiledIsOwn | tortoise/backends/base/executor.py:334-344 | What one `__in` query files under a wanted key is the result of the query for that key alone. |
| Prefetch.SelectedRows | tortoise/backends/base/executor.py:334-336 | A row is among the results exactly when it is in the table, passes the custom conditions and its key makes the lookup true. |
| Prefetch.SelectPositions | tortoise/backends/base/executor.py:335-345 | A query goes through the table once: each row that meets its condition comes once per place it has there, in the table's order. |
| Prefetch.OwnKeyPositions | tortoise/backends/base/executor.py:339-351 | An instance is given the kept rows that hold its key, each as often as the table has it, in the table's order; none for a NULL key. |
| Prefetch.BatchedEqualsPerObject | tortoise/fields/relational.py:70-78 | The batch agrees with the separate query on an object exactly when the object's key is not NULL or no kept row is an orphan. |
| Prefetch.OrphansDiffer | tortoise/expressions.py:252-254 | An object without a key gets nothing from the batch but an orphan from its own query. |
| Prefetch.FileByOwner | tortoise/backends/base/executor.py:463-479 | Looking related rows up again by primary key and grouping them by owner keeps each owner's rows, in order and with repetitions. |
| Prefetch.PrefetchManyToMany | tortoise/backends/base/executor.py:397-483 | Each instance receives the rows that the join for this instance alone gives, in the same order. |
| Prefetch.OwnRows | tortoise/backends/base/executor.py:412-435 | A row is among an owner's rows exactly when it passes the custom conditions and the through table links it to the owner. |
| Prefetch.OwnCount | tortoise/backends/base/executor.py:413-432 | How often an owner is given a row: as often as the table has it times the number of links between the two, and never when the row is not kept or a key is NULL. |
| Prefetch.OwnPositions | tortoise/backends/base/executor.py:474-481 | An owner's rows come in the table's order, each place of the table as often as links lead from it to the owner. |
| Prefetch.PrefetchDirect | tortoise/backends/base/executor.py:485-528 | Each instance receives the row its key names, and its key column becomes NULL when that row does not come back; whether one or several keys are asked for. |
| Prefetch.ReferencedIff | tortoise/backends/base/executor.py:508-525 | The row a key names is the kept row of the table that holds the key; a NULL key names none. |
| Prefetch.Instance.SetRelation | tortoise/models.py:98-106 | Setting a related object rewrites the key column from it, or to NULL. |
| Prefetch.KeyKeptIff | tortoise/models.py:98-106 | Prefetching leaves the key column unchanged exactly when it is NULL or the row it names is among the kept rows; doing it twice changes nothing more. |
| Prefetch.FilteredReferenceLosesKey | tortoise/models.py:98-106 | A custom queryset that leaves out the referenced row makes the prefetch erase the key. |
| PrefetchPaths.SegmentsOfWritten | tortoise/queryset.py:891 | For segments without `__` that do not end in `_`, repeated partitioning finds the segments a path was written from. |
| PrefetchPaths.PrefetchMap | tortoise/queryset.py:877-904 | First relations with what is named behind them; refused exactly when a first name is no relation. |
| PrefetchPaths.RequestedBehind | tortoise/backends/base/executor.py:530-542 | A path is requested exactly when its head is named first and its rest is among what is forwarded. |
| PrefetchPaths.MakeQueries | tortoise/backends/base/executor.py:530-542 | All names forwarded to the next level are looked at before anything of it is loaded. |
| PrefetchPaths.LoadRelations | tortoise/backends/base/executor.py:560-571 | One level loads its relations and everything behind them for which there are objects, whatever the order of the map. |
| PrefetchPaths.Prefetch | tortoise/backends/base/executor.py:530-591 | For any set of paths and any data: terminates, loads exactly the non-empty prefixes up to which there are objects, each once and behind the prefix it goes on from, and raises exactly when a name that is looked at is no relation. |
| PrefetchPaths.EverywhereObjects | tortoise/queryset.py:877-904 | With objects at every level every requested prefix is loaded, and every name that is no relation is noticed. |
| PrefetchPaths.EmptyLevelHides | tortoise/backends/base/executor.py:560-563 | Behind a relation without objects a name that is no relation goes unnoticed. |
| BulkUpdate.Batched | tortoise/utils.py:11-14 | Batches concatenate to the input, and all but the last are full. |
| BulkUpdate.FlattenAround | tortoise/utils.py:11-14 | Put together again, each batch stands as it is behind those before it. |
| BulkUpdate.Chunk | tortoise/utils.py:46-54 | The same for an optional batch size; without one there is a single batch, also for no objects. |
| BulkUpdate.MakeQuery | tortoise/queryset.py:1806-1831 | One CASE and one IN condition per field, in order, set under the field's own name. |
| BulkUpdate.Database.Save | tortoise/backends/base/executor.py:280-300 | Saving one object writes each listed field but the key into the column it is stored in, in the object's own row, if there is one. |
| BulkUpdate.LastSavedIsStored | tortoise/backends/base/executor.py:280-300 | Of the objects with one key the one saved last is in the row: each listed field's column holds that object's value, every other column what the table had. |
| BulkUpdate.UnnamedRowsStay | tortoise/backends/base/executor.py:280-300 | Rows that no object names stay as they are. |
| BulkUpdate.Database.BulkUpdate | tortoise/queryset.py:780-808 | Refused exactly when an object has no primary key or, with objects, a field is unknown; fails when a listed name is no column, or without objects and batch size; for distinct keys and fields stored under their own names the table is left as by saving one by one, for every batch size; otherwise it ends as the queries of its batches do. |
| BulkUpdate.BatchOutcome | tortoise/queryset.py:1806-1831 | After one batch that runs, each row named has, under the listed names, the values of the first object with its key. |
| BulkUpdate.BulkEqualsSaves | tortoise/queryset.py:1785-1837 | For objects with distinct keys and fields stored under their own names the batched CASE updates leave the table exactly as saving one object at a time, however they are cut. |
| BulkUpdate.BulkEqualsSavesIff | tortoise/queryset.py:1785-1837 | On every table of the model a bulk update does what saving one by one does, without an error, exactly when there is nothing to write, or no batch is empty, the listed names are the columns of the listed fields, and the objects that decide hold under those names what the objects saved last hold in the fields stored there. |
| BulkUpdate.OwnNamesFitIff | tortoise/queryset.py:1785-1837 | For fields stored under their own names the condition is that, for each key, the first object of the last batch naming it agrees with the last object naming it. |
| BulkUpdate.SafeFieldsIff | tortoise/queryset.py:1829 | A list of fields is safe for every object and table exactly when each field is stored in the column of its own name. |
| BulkUpdate.RenamedFieldFails | tortoise/queryset.py:1829 | Updating `chars` of a model that stores it in `some_chars_table` sets a column that does not exist. |
| BulkUpdate.CrossedFieldsOverwrite | tortoise/queryset.py:1829 | With two fields stored under each other's names the update overwrites the other field's column, where saving writes the right one. |
| BulkUpdate.RepeatedKeyDiffers | tortoise/queryset.py:1806-1831 | A key given twice in one batch with different values is enough for a difference. |
| BulkUpdate.NothingToUpdate | tortoise/utils.py:46-54 | Without objects a bulk update fails on a CASE without branches, or does nothing when a batch size is given. |
| BulkUpdate.TouchesNothingElse | tortoise/queryset.py:1785-1837 | Rows without an object, and columns not named, stay as they are, also when a later query fails. |
| UpdateSql.JoinedIsInjective | tortoise/backends/base/executor.py:255 | Joining comma-free names with commas loses nothing. |
| UpdateSql.KeyDeterminesFields | tortoise/backends/base/executor.py:255-257 | Equal cache keys mean equal field lists. |
| UpdateSql.Executor.GetUpdateSql | tortoise/backends/base/executor.py:246-278 | With the cache in any state reachable by earlier calls, the SQL returned is that of a fresh build. |
| UpdateSql.Executor.ExecuteUpdate | tortoise/backends/base/executor.py:280-300 | What is sent is what an uncached executor would send; an unknown field raises before anything is sent. |
| UpdateSql.Executor.History | tortoise/backends/base/executor.py:246-300 | The same over every history of updates through one cache. |
| UpdateSql.BoundValuesAlign | tortoise/backends/base/executor.py:260-300 | The k-th bound value, the k-th parameterised column and the k-th plain field belong together; the last value is left for the key test. |
| UpdateSql.UpdateWritesInstance | tortoise/backends/base/executor.py:246-300 | Executed, the statement writes every listed non-key field, plain or computed, into the instance's own row, and nothing else anywhere. |
| UpdateSql.WritesWhatIsNamed | tortoise/backends/base/executor.py:246-300 | The row gets the plain value or the expression's value of every field named, or of every field of the model when none is named; other columns and the key stay. |
| SchemaOrder.CreateSchema | tortoise/backends/base/schema_generator.py:442-473 | The loop that removes ready tables emits the order of the specification with many-to-many tables last, or raises when there is none. |
| SchemaOrder.StatementsOf | tortoise/backends/base/schema_generator.py:468-473 | Each table's statement stands at the table's place, and its many-to-many tables behind those of the tables before it. |
| SchemaOrder.EmitsSortedPermutation | tortoise/backends/base/schema_generator.py:451-471 | Every table is emitted once, after all tables it references other than itself. |
| SchemaOrder.SucceedsIffAcyclic | tortoise/backends/base/schema_generator.py:458-467 | Ordering succeeds exactly when names are distinct, every reference leads to a created table and no references close a cycle through two or more tables. |
| SchemaOrder.StuckMeansCycle | tortoise/backends/base/schema_generator.py:466-467 | When no table is ready although no reference dangles, a cycle is found. |
| SchemaOrder.KeepsDeclarationOrder | tortoise/backends/base/schema_generator.py:458-465 | A declaration order that is already valid is kept. |
| LikeEscape.EscapeIsPerChar | tortoise/filters.py:50-51 | The three chained replacements equal one map on characters. |
| LikeEscape.EscapedIsLiteral | tortoise/filters.py:30-51 | An escaped value matches itself and nothing else, whatever follows in the pattern. |
| LikeEscape.ContainsIsSubstring | tortoise/filters.py:124-125 | `contains` holds exactly when the value occurs literally in the text. |
| LikeEscape.StartsWithIsPrefix | tortoise/filters.py:140-141 | `startswith` holds exactly when the value is literally a prefix. |
| LikeEscape.EndsWithIsSuffix | tortoise/filters.py:144-145 | `endswith` holds exactly when the value is literally a suffix. |
| LikeEscape.MysqlEscapeIsPerChar | tortoise/backends/mysql/executor.py:45-46 | The MySQL replacements equal one map on characters. |
| LikeEscape.MysqlDenotesSamePattern | tortoise/backends/mysql/executor.py:34-64 | The literal ends where it should whatever the value, and MySQL reads from it the very pattern of the standard operators. |
| LikeEscape.StandardPatterns | tortoise/filters.py:124-145 | The patterns of the three standard operators are an escaped value between percent signs, the form in which the MySQL literals are compared with them. |
| ManyToMany.GeneratedKeyIsDistinct | tortoise/__init__.py:239-244 | The generated backward key never equals the forward key, also for self relations; it is the table's `_id` unless that is taken, and a key given by the model is kept. |
| ManyToMany.PairsAreRows | tortoise/fields/relational.py:156-197 | A pair is related exactly when a row names the owner in the backward column and the related object in the forward column. |
| ManyToMany.MirrorReads | tortoise/__init__.py:267-278 | The mirrored field reads the through table as the converse relation, and mirroring twice gives the field back. |
| ManyToMany.ThroughTable.Add | tortoise/fields/relational.py:156-197 | Adds exactly the missing pairs; refused without change when an object is unsaved. |
| ManyToMany.ThroughTable.RemoveOrClear | tortoise/fields/relational.py:217-240 | Deletes the owner's pairs, all or those of the given objects, and no others. |
| ManyToMany.ThroughTable.Remove | tortoise/fields/relational.py:205-215 | Removing nothing is refused; otherwise exactly the named pairs go. |
| ManyToMany.ThroughTable.Run | tortoise/fields/relational.py:156-240 | Over every run of calls from either side the table stays free of duplicates and equals the set model. |
| ManyToMany.ThroughTable.Fetch | tortoise/fields/relational.py:146-155 | A container returns each related key once, and exactly the related ones. |
| ManyToMany.SetModelIsPerOwner | tortoise/fields/relational.py:156-240 | From whichever side the call is made, it changes its owner's related objects by exactly those named and no other object's on that side, and on the other side exactly the objects named gain or lose the owner. |
| ManyToMany.SidesAgree | tortoise/__init__.py:267-278 | In every state of the through table the two fields read converse relations. |
| ManyToMany.RemoveUndoesAdd | tortoise/fields/relational.py:156-240 | Objects that one side adds, and that then each remove the owner from their side, leave nothing behind. |
| PydanticRecursion.Protector | tortoise/contrib/pydantic/creator.py:74-117 | The guard admits a model exactly when no frame inside the stack has reached its own limit and, without cycles, the model does not occur above its direct parent; the first frame's limit is never looked at. |
| PydanticRecursion.CreateModel | tortoise/contrib/pydantic/creator.py:250-345 | Generation terminates on every model graph, cyclic or not, with the schema of the specification: the relation fields that `include` and `exclude` leave, the call's and the model's own, each forwarded below its dot; `allow_cycles` is decided by the outermost model. |
| PydanticRecursion.PropertiesInOrder | tortoise/contrib/pydantic/creator.py:250-345 | A schema's properties are those of the relation fields that are taken and admitted, each once, in the model's order. |
| PydanticRecursion.PropertyNamesDistinct | tortoise/contrib/pydantic/creator.py:250-345 | No schema has two properties of one name. |
| PydanticRecursion.SchemaHasLegalChains | tortoise/contrib/pydantic/creator.py:74-117 | The schema nests exactly along the relation paths whose fields are all taken, whose inner models have limits above their depth and which, without cycles, repeat no model except directly; each nested schema is that of the model its path leads to. |
| PydanticRecursion.TakenEverywhere | tortoise/contrib/pydantic/creator.py:250-340 | Forwarding entries level by level comes to this: a field at any depth is taken when no exclude entry in force there names it, and some include entry in force names it if any is in force; an entry is in force when the call, or a model on the way, has it behind the names that lead on from there. |
| PydanticRecursion.DepthIsBounded | tortoise/contrib/pydantic/creator.py:91-104 | Nesting never exceeds max(1, largest `max_recursion`), and the first level is there for every field taken. |
| PydanticRecursion.ReappearsOnlyBehindItself | tortoise/contrib/pydantic/creator.py:88-89 | With cycles disallowed a model comes up again on a chain only immediately after itself. |

## Left out

- Drivers, pools, sockets, logging, and SQL text apart from LIKE patterns: statements are functions on an abstract database.
- Failing commit, rollback or start, cancellation, and tasks that go on using a wrapper after its block; the state machine lets a block be left by any exception but not be interrupted between its own steps.
- SharedConnection models the SQLite client, where all tasks share one connection. Pooled backends appear in TransactionContexts and Connections only, where a pool hands out connections outside any transaction; what becomes of a leaked transaction when its connection returns to the pool is the pool's affair.
- JointChains.TreeReturnsJointChains and RelationJoins.FilterCountsChains: assume that a table reference stands for one relation, because two relations onto the same unaliased table are joined only once and the code promises nothing there.
- Grouping and the values of aggregates: an aggregate condition is an opaque atom whose clause matters, not its result; conditions on annotations read as unknown where rows are counted.
- GetOrCreate: lookups are plain equalities on exactly the unique fields, calls run outside other transactions, rows are not deleted or re-keyed, and a reader sees committed rows only.
- SelectRelated: no `only()` and no annotations; column aliases are taken to be distinct for distinct paths and column positions, which a `.` in a name, or one unaliased table on two paths, would break.
- Prefetch: objects of one model class; `to_attr`, limits and offsets of custom querysets and backward one-to-one relations are not modelled.
- BulkUpdate.Database.BulkUpdate: an unfiltered queryset whose `objects` can be traversed repeatedly; a relation's own name counts as an unknown field; a field listed twice counts as listed once; a query that would write another value into the key column ends the run with an error, so what follows the re-keying of a row is not described.
- UpdateSql: field names without commas, as Python identifiers are; assignments read the old row, as standard SQL says (MySQL evaluates them left to right).
- LikeEscape: case-insensitive operators, full-text search and regular expressions; MySQL is read without NO_BACKSLASH_ESCAPES. The equivalence of characters is a parameter.
- ManyToMany: calls run one after the other; concurrent `add` calls race between their SELECT and INSERT.
- SchemaOrder: the text of the statements, and where the set of references comes from.
- PydanticRecursion: names, hashes, computed and raw fields; each model's relation fields, backward ones included or not, are given.
- Signals, validators, JSON, dates and decimals, full model metadata and framework integrations.

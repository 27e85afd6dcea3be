# Family finance: the domain-integrity layer in Dafny

This project models the service layer of a household-finance backend and proves properties of it. The layer holds the rules the database schema does not enforce for families, members, hierarchical income/expense categories, tags and transactions:

- validation;
- scoped, case-insensitive name uniqueness;
- soft-delete visibility;
- membership and type consistency between a transaction, its member and its category;
- the materialized category path and the cycle check on re-parenting;
- the tag protocol on transactions;
- grouped sums over a time window.

The database is one object, `Store.Store`. It holds:

- one map per table, from id to row (families, members, categories, tags, transactions);
- one auto-increment counter per table;
- the `transaction_tags` join table as a multiset of (transaction id, tag id) pairs.

The methods of `Store.Store` are the data-access functions. Each states exactly what it writes and that nothing else changes:

- a lookup of a missing row is an error, not nil;
- GORM `Save` writes the whole record;
- the family and member updates write only the selected columns;
- deletes flip a flag, except for families, which are removed outright.

`Store.Store.Valid()` is what the services keep true:

- every row is stored under its own id, without attached associations;
- every category parent link is 0 or names a stored row, and the live parent links hold no cycle (a walk up the parents ends at a root or at a deleted row);
- every member belongs to a stored family;
- every join row names a stored transaction and a stored tag, and no pair is linked twice.

Every write method of the services requires and ensures it.

Each service operation is a module-level method over the store, in the same shape for every write:

- a ghost function (`CreateOutcome`, `UpdateOutcome`, `DeleteOutcome`, …) gives the result the operation must have: the row it writes, or the first guard that fails, in the source's order;
- a read-only method performs the checks (`PrepareCategory`, `CheckCreate`, `CheckUpdate`, …);
- the write method returns that outcome, leaves the store unchanged on an error, and changes only its own table otherwise;
- lemmas about the outcome function carry the promised properties.

Loops stay loops: the uniqueness scans, the active-only list filters, the filter-map merge, the summary scan, the upward walk of the cycle check, the breadcrumb loop and the two passes of `buildCategoryTree` (over an `array`, updated in place).

Modules: `Wrappers`, `Domain` (the records and enums of model/model.go, and error kinds), `Text` (Go's `len`, `TrimSpace`, `EqualFold`, `Split`, `Join`, `ParseUint`, `%d`), `Seqs` (filter and search loops), `Store`, `Hierarchy` (the upward walk and acyclicity), `CategoryPaths`, `CategoryTree`, `Categories`, `Aggregation` (the two summary queries), `Listing` (the paged and time-range listings), `Transactions`, `TransactionQueries`, `Tags`, `Members`, `Families`.

Modelling choices:

- **Money.** Amounts are integer cents.
- **Time.** A `DateTime` is (year, month, day, second-of-day), ordered lexicographically. The clock reading `now` is a parameter of the transaction validator.
- **Category level.** `Category.Level` is an `int8`, so a stored level wraps (`Domain.Int8`).
- **String length.** Go's `len` is the UTF-8 byte length of the string (`Text.ByteLen`).
- **Row order.** A query without ORDER BY returns rows by ascending id (`Store.Rows`).
- **Category paths.** CreateCategory stores a path built as the code builds it: a root gets "//id", and a child gets its parent's path, then the parent's id, then its own id (see Findings). The path UpdateCategory computes, "/id" or the parent's path then the category's own id, is proved separately as the intended one.
- **Parent checks.** UpdateCategory checks the new parent's deleted flag before its type, while CreateCategory checks the type first. Each is modelled in its own order.

## Model

| member | source | states |
|---|---|---|
| Domain.Int8 | service/category.go:71 | a stored level lies in -128..127, equals the computed level when that fits, and differs from it by a multiple of 256 |
| Text.ByteLenBounds | service/category.go:379 | Go's `len` counts at least one and at most four bytes per character |
| Text.TrimSpace | service/category.go:375 | `strings.TrimSpace`: the result is no longer than the input, and it neither starts nor ends with white space |
| Text.BlankIffAllSpace | service/category.go:375 | `strings.TrimSpace(s) == ""` holds exactly when every character of s is Unicode white space |
| Text.EqualFold | service/category.go:402 | `strings.EqualFold` with ASCII case folding: equal strings are fold-equal, and fold-equal strings have the same length |
| Text.EqualFoldEquivalence | service/category.go:402 | case-insensitive equality is reflexive, symmetric and transitive |
| Text.Decimal | service/category.go:88 | `%d` renders a non-empty digit string with no leading zero whose value is the number |
| Text.ParseUint32 | service/category.go:354 | `strconv.ParseUint(_, 10, 32)`: a parsed value is at most 2^32 - 1 |
| Text.ParseDecimal | service/category.go:354 | `strconv.ParseUint(_, 10, 32)` inverts the decimal rendering of every 32-bit value |
| Text.ParseRejects | service/category.go:354 | parsing fails on the empty string and on any string holding a non-digit |
| Seqs.Keep | service/tag.go:168-174 | the append loop returns exactly the rows passing the test, in their order |
| Seqs.Any | service/category.go:398-412 | the search loop with early return is true exactly when some row passes the test |
| Seqs.FilterIdempotent | service/category.go:130-135 | filtering rows again by the test that produced them removes nothing |
| Store.Store.FamilyById | model/family.go:35-42 | a missing family is a store error; a found one carries all its member rows |
| Store.Store.CreateFamily | model/family.go:26-32 | the family is stored under the next id and no other table changes |
| Store.Store.UpdateFamily | model/family.go:55-61 | only the name column of an existing family is written; validity is kept |
| Store.Store.DeleteFamily | model/family.go:64-70 | the family row is removed (hard delete) and nothing else changes |
| Store.Store.MemberById | model/member.go:35-42 | a missing member is a store error; a found one is returned whatever its status |
| Store.Store.CreateMember | model/member.go:26-32 | the member is stored under the next id; validity is kept when its family is stored |
| Store.Store.UpdateMember | model/member.go:55-61 | only name, phone and email of an existing member are written; validity is kept |
| Store.Store.DeleteMember | model/member.go:64-70 | only the status of an existing member becomes 0 |
| Store.Store.UpdateMemberRole | model/member.go:91-97 | only the role of an existing member is written |
| Store.Store.CategoryById | model/category.go:35-42 | a missing category is a store error; a found one carries all its child rows |
| Store.Store.CreateCategory | model/category.go:26-32 | the category is stored under the next id, without children |
| Store.Store.SaveCategory | model/category.go:67-73 | every column of the record is written to its row |
| Store.Store.DeleteCategory | model/category.go:76-82 | only is_deleted of an existing category is set |
| Store.Store.TagById | model/tag.go:35-42 | a missing tag is a store error; a found one is returned active or not |
| Store.Store.CreateTag | model/tag.go:26-32 | the tag is stored under the next id; validity is kept |
| Store.Store.SaveTag | model/tag.go:65-71 | every column of the record is written, is_active and family_id included |
| Store.Store.DeleteTag | model/tag.go:74-80 | only is_active of an existing tag is cleared |
| Store.Store.TransactionById | model/transaction.go:36-44 | a missing transaction is a store error; a found one is returned whatever its status |
| Store.Store.CreateTransaction | model/transaction.go:27-33 | the transaction is stored under the next id; the join table is untouched |
| Store.Store.SaveTransaction | model/transaction.go:102-108 | every column of the record is written, status included |
| Store.Store.DeleteTransaction | model/transaction.go:111-117 | only the status of an existing transaction becomes "deleted" |
| Store.Store.AddLink | model/transaction.go:120-130 | exactly one join row for the pair is added |
| Store.Store.RemoveLinks | model/transaction.go:133-140 | every join row of the pair is removed and all other rows are kept |
| Hierarchy.WalkEnds | service/category.go:463-483 | in an acyclic table the upward walk from any id ends |
| Hierarchy.Walk | service/category.go:462-485 | the walk can only succeed, report a cycle, or fail on a row it cannot read |
| Hierarchy.WalkFuel | service/category.go:462-485 | the walk's outcome does not depend on the step bound used to define it |
| Hierarchy.CircularCheckIsWalk | service/category.go:455-486 | for distinct ids, checkCircularDependency returns the outcome of the walk from the parent |
| Hierarchy.WalkCycleIffReaches | service/category.go:463-483 | the walk reports a cycle exactly when it climbs from the parent to the live category itself |
| Hierarchy.AcyclicAfterInsert | service/category.go:83 | inserting a row under a stored parent at an unused id keeps the links acyclic |
| Hierarchy.AcyclicAfterReparent | service/category.go:250-264 | re-parenting a live category once the cycle check passed keeps the links acyclic |
| Hierarchy.AcyclicAfterStop | service/category.go:306 | soft-deleting a category, or making it a root, keeps the links acyclic |
| CategoryPaths.Extend | service/category.go:88 | `fmt.Sprintf("%s/%d", p, id)` starts with p followed by a slash |
| CategoryPaths.CreatedPathAgreesWithUpdate | service/category.go:255-260 | the intended behaviour, not what CreateCategory stores: with the corrected prefix a new category would get the same path that update assigns for that parent |
| CategoryPaths.PiecesAreSegments | service/category.go:345 | trimming the outer slashes and splitting yields the path's segments plus empty pieces only |
| CategoryPaths.SegmentsExtend | service/category.go:256 | extending a path by an id appends exactly that id's decimal as one segment |
| CategoryPaths.SegmentsRoot | service/category.go:260 | the path "/id" of a root has the single segment id |
| CategoryPaths.PathNamesConcat | service/category.go:349-367 | the breadcrumb loop over two runs of pieces gives the first error, or the names of both in order |
| CategoryPaths.PathNamesNonEmpty | service/category.go:350-351 | empty pieces make no difference to the breadcrumb loop |
| CategoryPaths.FullPathBySegments | service/category.go:345-369 | the breadcrumb of a live category depends only on the segments of its stored path |
| CategoryPaths.PathNamesOne | service/category.go:354-366 | one segment naming a stored row adds its name when live and nothing when deleted |
| CategoryPaths.BreadcrumbExtends | service/category.go:349-367 | extending a path by a stored id appends that row's name if it is live |
| CategoryPaths.RootPathAsWritten | service/category.go:76-88 | as written, a root's path is "//id", whose only segment is the root's id |
| CategoryPaths.ChildPathAsWritten | service/category.go:72-88 | as written, a child's path is the parent's path, then the parent's id, then its own id, and its segments are the parent's followed by those two ids |
| CategoryPaths.CreatedChildListsParentTwice | service/category.go:72-88 | as written, a category created under a root has a breadcrumb naming the root twice |
| CategoryPaths.CreatedChildListsParentOnce | service/category.go:72-88 | the intended behaviour: with the corrected prefix the same breadcrumb would name the root once, then the child |
| CategoryTree.IndexHoldsLiveIds | service/category.go:428-433 | the first pass maps exactly the ids of the non-deleted entries |
| CategoryTree.IndexSound | service/category.go:428-433 | each mapped id points at a live position holding that id |
| CategoryTree.BuildCategoryTree | service/category.go:426-452 | the array and the returned roots are those of the two passes, stated as functions of the input slice |
| CategoryTree.StateRow | service/category.go:436-450 | the loop changes only Children: each entry keeps its fields and gets the ids appended to it in slice order after the children it came with |
| CategoryTree.RootsAreLiveRoots | service/category.go:442-444 | the result is exactly the live entries with a nil or 0 parent, in input order, each a copy taken when it was reached |
| CategoryTree.AppendedIff | service/category.go:445-447 | an entry is appended under position p exactly when it is live, not a root, and p is where the first pass mapped its parent id |
| CategoryTree.OrphanDropped | service/category.go:445 | an entry whose parent id names no live entry is attached nowhere |
| CategoryTree.RootNotAppended | service/category.go:442-447 | a root is never appended under another entry |
| CategoryTree.AppendedMembers | service/category.go:444-447 | the children appended under p are the owned entries before the current step, so a root copied earlier misses later appends |
| Categories.ValidateCategory | service/category.go:373-389 | passes exactly for a non-blank name of at most 100 bytes and type income or expense; every failure reported in that order |
| Categories.CategoryNameExists | service/category.go:392-413 | true exactly when a live row with another id, the same type, an equal-up-to-case name and the same parent (nil only matches nil) exists |
| Categories.ClashIgnoresCase | service/category.go:402 | names equal up to case clash with the same rows |
| Categories.CategoryExists | service/category.go:314-325 | true exactly for a stored live row; id 0 is false; a missing row is the store error |
| Categories.GetCategoryByID | service/category.go:97-114 | a live category with all its children; id 0, missing and deleted rows give three distinct errors |
| Categories.GetCategoriesByType | service/category.go:117-138 | an invalid type is refused; otherwise the live rows of that type, the second filter removing nothing |
| Categories.CategoriesOfTypeRows | model/category.go:45-54 | every listed row is a live row of the type with its live children, and every such row is listed |
| Categories.GetCategoryTreeByType | service/category.go:141-155 | an invalid type is refused; otherwise the roots buildCategoryTree makes of the live rows of that type |
| Categories.GetCategoriesByParentID | service/category.go:158-185 | a missing or deleted parent is refused; otherwise the live rows whose parent_id is that id |
| Categories.NilParentsNotChildrenOfZero | model/category.go:57-64 | listing the children of 0 returns only rows whose parent_id is 0, not the roots stored with a nil parent |
| Categories.GetAllCategories | service/category.go:188-204 | the listed categories are the DAO rows that are not deleted |
| Categories.AllCategoriesLive | service/category.go:196-203 | each listed row is a stored live row, and every stored live row is listed |
| Categories.CheckCircularDependency | service/category.go:455-486 | the loop returns what the upward walk from the parent gives |
| Categories.GetFullCategoryPath | service/category.go:328-370 | the loop returns the breadcrumb of live names along the stored path, joined by " > ", or the first parse or lookup error |
| Categories.SoundAfterInsert | service/category.go:83 | inserting a childless row under the next id with an absent, 0 or stored parent keeps the category table sound |
| Categories.SoundAfterOverwrite | service/category.go:264 | overwriting a row keeps the table sound when the links stay acyclic |
| Categories.LookupParent | service/category.go:55-68 | a named parent that is missing, of another type, or deleted gives an error, in that order |
| Categories.PrepareUnderParent | service/category.go:55-76 | the parent checks give CreateCategory's error, or the row with the level and the path prefix it stores: "/" for a root, the parent's path and the parent's id for a child |
| Categories.PreparedOutcome | service/category.go:55-80 | once the checks pass, the created row takes level parent+1 (or 1) and the path prefix built from the parent row's path and id, completed by the new id |
| Categories.PrepareCategory | service/category.go:41-80 | the checks before the writes give CreateCategory's outcome exactly |
| Categories.InsertCategory | service/category.go:83-91 | the two writes store the row under the next id with its path completed by that id |
| Categories.CreateCategory | service/category.go:39-94 | the result is the create outcome, with the path as the code builds it; on error nothing changes, on success only the new row is added |
| Categories.CreateSucceedsIff | service/category.go:39-94 | create succeeds exactly for a valid input with a free name whose named parent is stored, live and of the same type |
| Categories.CreatedRow | service/category.go:71-80 | the created row is live, has the next id and the given fields, and sits one level below its parent with a path naming the parent's segments, the parent's id and its own id; or it is a root at level 1 with path "//id" |
| Categories.CreatedBreadcrumb | service/category.go:71-91 | a root's breadcrumb is its name alone; a child's is its parent's breadcrumb, then the parent's name again, then its own name |
| Categories.ReparentRow | service/category.go:237-260 | the parent checks and the cycle check of update give its outcome; a written parent is 0 or stored and the links stay acyclic |
| Categories.PrepareUpdate | service/category.go:209-260 | the checks before the write give UpdateCategory's outcome exactly, and the row it writes keeps the table acyclic |
| Categories.UpdateCategory | service/category.go:207-269 | the result is the update outcome; on error nothing changes, on success only row c.id is rewritten |
| Categories.UpdateRefusesCycles | service/category.go:250-252 | an update that would make a category its own parent or ancestor fails |
| Categories.UpdatedRow | service/category.go:237-264 | a successful update keeps the row's name, parent and deleted flag as passed; it places the row under a live parent of its type that passed the cycle check, one level below it, with the parent's path segments followed by its own id, or makes it a root at level 1 whose path names only its own id |
| Categories.UpdateToRoot | service/category.go:257-260 | an update passing the checks without a parent makes the row a root at level 1 with path "/id" |
| Categories.UpdateCanOrphanChildren | service/category.go:237-264 | an update may set IsDeleted on a category with live children, which DeleteCategory refuses |
| Categories.DeleteCategory | service/category.go:272-311 | the result is the delete outcome: id 0, missing, deleted or with live children refused, otherwise only is_deleted set |
| Categories.DeleteKeepsLiveParents | service/category.go:288-304 | because live children block the delete, every live category keeps a live parent |
| Categories.CreateKeepsLiveParents | service/category.go:55-68 | because a named parent must be live, creation keeps every live category's parent live |
| Categories.UpdateKeepsLiveParents | service/category.go:237-247 | an update leaving the row live keeps every live category's parent live |
| Aggregation.Groups | model/transaction.go:146-152 | GROUP BY with SUM: at most one row per transaction, and at least one row when there is a transaction |
| Aggregation.GroupsMeaning | model/transaction.go:146-152 | GROUP BY with SUM gives one row per key that occurs, each holding the sum of that key's amounts |
| Aggregation.ScanRows | model/transaction.go:160-168 | the scan loop sets each non-NULL key to its row's total and skips rows that fail to scan |
| Aggregation.Summarize | model/transaction.go:160-168 | the map the scan loop builds from the grouped rows: no more keys than rows |
| Aggregation.SummarizeMeaning | model/transaction.go:160-168 | for rows with distinct keys the summary holds exactly the non-NULL keys, each with its row's total |
| Aggregation.SummaryOfGroups | model/transaction.go:146-170 | the summary holds exactly the non-NULL keys of some transaction, each with its summed amount |
| Aggregation.SummaryByCategory | model/transaction.go:142-171 | the keys are the names of the categories of the family's valid transactions of that type in [start, end]; each total sums them, and categories whose names are equal as strings share one key |
| Aggregation.TimeFormat | model/transaction.go:178-188 | any grouping other than day or year gets the month format |
| Aggregation.DateFormat | model/transaction.go:192 | MySQL's DATE_FORMAT: a format without "%" is copied unchanged |
| Aggregation.YearKey | model/transaction.go:185 | "%Y" renders the four-digit year |
| Aggregation.MonthKey | model/transaction.go:183 | "%Y-%m" renders year and two-digit month |
| Aggregation.DayKey | model/transaction.go:181 | "%Y-%m-%d" renders year, month and day |
| Aggregation.SamePeriodIff | model/transaction.go:178-195 | two times share a period exactly when they agree on the year, and on month and day as far as the grouping goes |
| Aggregation.SummaryByTime | model/transaction.go:174-215 | with the intended format the keys are the periods of the family's valid transactions in [start, end], both types summed together |
| Aggregation.Sprintf | model/transaction.go:192 | `fmt.Sprintf` with %s verbs: a format without verbs prints its literal text, and the literal text is always printed |
| Aggregation.SprintfOneVerb | model/transaction.go:192 | Sprintf with one %s and no operand prints "%!s(MISSING)" in its place |
| Aggregation.TimeSelectAsWrittenIgnoresGroupBy | model/transaction.go:192 | as written the SELECT text is the same for every grouping and holds no date format |
| Aggregation.MissingFormatOnePeriod | model/transaction.go:192 | if the statement runs as built, DATE_FORMAT with the format as written puts every transaction into the one period "!s(MISSING)" |
| Aggregation.TimeSelectCarriesFormat | model/transaction.go:192 | with the operand supplied the SELECT text carries the grouping's format, and different formats give different queries |
| Listing.Column | model/transaction.go:54-56 | a filter key has a value exactly when it names a column |
| Listing.SortSpec | model/transaction.go:67 | ORDER BY transaction_time DESC orders newest first and keeps every row |
| Listing.Page | model/transaction.go:65-68 | for page >= 1 and a non-negative size the page is the slice starting (page-1)*pageSize rows in |
| Listing.PagesTile | model/transaction.go:65-68 | pages 1..k side by side are the first k*pageSize rows: none skipped or repeated |
| Listing.QueriesFailIff | model/transaction.go:54-56 | both listings fail exactly when a filter names no column |
| Listing.ListingMeaning | model/transaction.go:46-75 | the listing holds each matching row as often as the table does, newest first |
| Listing.FamilyPageMeaning | model/transaction.go:58-74 | the count is the number of matching rows and the rows are the page's slice of the ordered listing |
| Listing.TimeRangeMeaning | model/transaction.go:78-99 | the time-range listing holds each matching row in [start, end], newest first |
| TransactionQueries.MergeFilters | service/transaction.go:129-137 | the copy loop yields the seed map overridden by the caller's filters |
| TransactionQueries.MatchesSeed | service/transaction.go:129-137 | the seed adds no condition: a row matches the merged map exactly when it matches the filters alone |
| TransactionQueries.SeedChangesNothing | service/transaction.go:129-140 | merging the seed changes neither the rows selected nor whether the query fails |
| TransactionQueries.GetTransactionsByFamilyID | service/transaction.go:113-146 | id 0 and a missing family are refused; otherwise the page and count of the family listing |
| TransactionQueries.GetTransactionsByTimeRange | service/transaction.go:149-182 | the same guards; otherwise the family's valid matching rows in [start, end], newest first |
| TransactionQueries.GetTransactionSummaryByCategory | service/transaction.go:346-368 | succeeds exactly for a stored family; the keys and totals are those of the category summary |
| TransactionQueries.GetTransactionSummaryByTime | service/transaction.go:371-398 | succeeds exactly for a stored family and a grouping of day, month or year; keys and totals per period |
| Transactions.ValidateTransaction | service/transaction.go:401-433 | passes exactly for a positive amount, a known type, a set time not after now, a note of at most 1000 and a payment method of at most 50 bytes; each failure is reported when every earlier check passes |
| Transactions.ValidLater | service/transaction.go:418 | a transaction valid at one moment stays valid at any later one |
| Transactions.MemberExistsInFamily | service/transaction.go:450-461 | true exactly for non-zero ids and a stored member of that family with status 1 |
| Transactions.ExpectedCategoryType | service/transaction.go:479-484 | an income transaction needs an income category, anything else an expense one |
| Transactions.CategoryExistsAndMatchesType | service/transaction.go:464-487 | true exactly for a stored live category of the expected type |
| Transactions.ReferencesIff | service/transaction.go:53-77 | the family, member and category checks pass exactly when the references are sound; a failure names its table |
| Transactions.Visible | service/transaction.go:249-255 | a row counts as existing exactly when it is stored and its status is not "deleted" |
| Transactions.GetTransactionByID | service/transaction.go:93-110 | a stored transaction that is not deleted; a pending one included |
| Transactions.CreateTransaction | service/transaction.go:46-90 | the result is the create outcome; on error nothing changes, on success only the new row is added |
| Transactions.CreateSucceedsIff | service/transaction.go:46-90 | creation succeeds exactly when the transaction is valid and its references are sound |
| Transactions.CreatedRow | service/transaction.go:80-85 | the stored row is the input under the next id with status "valid", its member in its family and its category of its type |
| Transactions.UpdateTransaction | service/transaction.go:185-239 | the result is the update outcome; on error nothing changes, on success row t.id becomes t |
| Transactions.UpdateSucceedsIff | service/transaction.go:185-239 | update succeeds exactly for a set id of a visible row with valid values and sound references |
| Transactions.UpdateCanDelete | service/transaction.go:233-236 | an update passing status "deleted" succeeds and hides the row as a delete would |
| Transactions.DeleteTransaction | service/transaction.go:242-263 | the result is the delete outcome; only the status column of the row changes |
| Transactions.DeleteHides | model/transaction.go:111-117 | a delete changes only the row's status; the row is then invisible and a second delete fails |
| Transactions.DeleteSucceedsIff | service/transaction.go:244-255 | delete succeeds exactly on a non-zero id of a visible row |
| Transactions.AddTagToTransaction | service/transaction.go:266-310 | the result is the add outcome; on success exactly one join row is added |
| Transactions.AddTagSucceedsIff | service/transaction.go:266-302 | adding succeeds exactly for non-zero ids, a visible transaction, an active tag of its family and an unlinked pair |
| Transactions.AddTagTwiceFails | service/transaction.go:296-302 | after an add the pair is linked once and repeating the add is refused |
| Transactions.RemoveTagFromTransaction | service/transaction.go:313-343 | the result is the remove outcome; on success the pair's rows are removed |
| Transactions.RemoveTagSucceedsIff | service/transaction.go:313-335 | removing succeeds exactly for non-zero ids, a visible transaction and a linked pair, whatever the tag's state |
| Transactions.RemoveTagClears | model/transaction.go:133-140 | after a remove the pair is unlinked, other rows are kept and a second remove fails |
| Transactions.AddThenRemove | model/transaction.go:120-140 | removing a pair just added restores the join table |
| Transactions.AddTagKeepsFamilies | service/transaction.go:291-293 | adding keeps every join row within one family |
| Transactions.DeletedRefusesTags | service/transaction.go:253-325 | a deleted transaction refuses add-tag, remove-tag and delete as not found |
| Tags.ValidateTag | service/tag.go:264-291 | passes exactly for a non-blank name of at most 100 bytes, a non-blank type of at most 50, and an empty color or "#" plus six bytes; each failure is reported when every earlier check passes |
| Tags.ColorDigitsUnchecked | service/tag.go:284-288 | "#zzzzzz" is accepted: the digits are not checked |
| Tags.TagExists | service/tag.go:250-261 | true exactly for a stored active tag; id 0 is false; a missing row is the store error |
| Tags.GetTagByID | service/tag.go:74-91 | an active tag; an inactive one is reported absent |
| Tags.ActiveAgain | service/tag.go:116-122 | filtering the DAO's active rows for activity again removes nothing |
| Tags.GetTagsByFamilyID | service/tag.go:94-124 | id 0 and a missing family are refused; otherwise the family's active tags |
| Tags.GetTagsByType | service/tag.go:127-157 | the same, for the family's active tags of one type |
| Tags.GetAllTags | service/tag.go:160-176 | exactly the active tags, in id order |
| Tags.TagNameExists | service/tag.go:294-310 | true exactly when an active tag with another id in the family has the name up to case |
| Tags.CheckCreate | service/tag.go:40-61 | the checks give CreateTag's outcome: an active row under the next id, or the first failure |
| Tags.CreateTag | service/tag.go:38-71 | the result is the create outcome; on error nothing changes, on success only the new row is added |
| Tags.CreateKeepsNamesDistinct | service/tag.go:54-61 | creation keeps the active names of each family distinct up to case |
| Tags.CheckUpdate | service/tag.go:181-206 | the checks give UpdateTag's outcome: the whole record saved, or the first failure |
| Tags.UpdateTag | service/tag.go:179-214 | the result is the update outcome; on success row t.id becomes t |
| Tags.UpdateKeepsNamesDistinct | service/tag.go:200-206 | an update keeps the active names of each family distinct up to case |
| Tags.UpdateCanDeactivateUsedTag | service/tag.go:209-211 | an update can clear is_active on a tag still linked, which DeleteTag refuses |
| Tags.DeleteTag | service/tag.go:217-247 | the result is the delete outcome: id 0, inactive or linked refused, otherwise only is_active cleared |
| Tags.DeletedTransactionStillBlocks | model/tag.go:92-101 | a join row from a deleted transaction still blocks the delete |
| Tags.DeleteTwiceFails | service/tag.go:224-246 | a delete only clears is_active, and deleting again fails as not found |
| Members.ValidateMember | service/member.go:289-323 | passes exactly for a non-blank name of at most 50 bytes, a given email with "@" of at most 100, a given phone of at most 20, and a known role; each failure is reported when every earlier check passes |
| Members.MemberExists | service/member.go:275-286 | true exactly for a stored member, removed or not |
| Members.GetMemberByID | service/member.go:90-107 | any stored member, removed ones included; id 0 and a missing row are errors |
| Members.GetMembersByFamilyID | service/member.go:110-132 | id 0 and a missing family are refused; otherwise the family's members with status 1 |
| Members.ActiveMembersListed | model/member.go:45-52 | the listing holds exactly the family's member rows with status 1 |
| Members.EmailExists | service/member.go:326-339 | true exactly when a row with another id, removed ones included, has the email (case-sensitive) |
| Members.PhoneExists | service/member.go:342-355 | the same for the phone |
| Members.CheckCreate | service/member.go:43-79 | the checks give CreateMember's outcome: the row under the next id with status 1, or the first failure |
| Members.CreateMember | service/member.go:41-87 | the result is the create outcome; on error nothing changes, on success only the new row is added |
| Members.RemovedMemberKeepsEmail | service/member.go:57-66 | a removed member's email still blocks a new member's |
| Members.CreateKeepsContactsDistinct | service/member.go:57-76 | creation keeps non-empty emails and phones distinct |
| Members.CheckUpdate | service/member.go:148-186 | the checks give UpdateMember's outcome: name, phone and email written, or the first failure |
| Members.UpdateMember | service/member.go:146-194 | the result is the update outcome; on error nothing changes |
| Members.UpdateKeepsRoleFamilyStatus | model/member.go:55-61 | an update keeps the row's id, family, role and status whatever the record says |
| Members.UpdateKeepsContactsDistinct | service/member.go:167-186 | an update keeps non-empty emails and phones distinct |
| Members.DeleteMember | service/member.go:197-218 | the result is the delete outcome: status 0 on any stored member |
| Members.DeleteTwice | service/member.go:204-213 | deleting a removed member succeeds again and changes nothing more |
| Members.ChangeMemberRole | service/member.go:221-247 | id 0, an invalid role and a missing member are refused in that order; otherwise only the role changes |
| Members.DeleteAndRoleKeepContacts | model/member.go:64-97 | deleting and changing a role keep emails and phones distinct |
| Families.ValidateFamilyName | service/family.go:197-209 | passes exactly for a non-blank name of at most 100 bytes, blank reported first |
| Families.FamilyExists | service/family.go:183-194 | true exactly for a stored family; id 0 is false; a missing row is the store error |
| Families.GetFamilyByID | service/family.go:59-76 | a stored family with its member rows attached; id 0 and a missing row are errors |
| Families.MembersAttached | model/family.go:35-42 | the attached members are exactly the family's member rows, removed ones included |
| Families.FamilyNameExists | service/family.go:212-225 | true exactly when some family has the name up to case |
| Families.OtherFamilyHasSameName | service/family.go:228-241 | the same, skipping the family itself |
| Families.NameInUseIgnoresCase | service/family.go:219 | names equal up to case are in use together |
| Families.CreateFamily | service/family.go:35-56 | the result is the create outcome; on error nothing changes, on success only the new row is added |
| Families.CreateSucceedsIff | service/family.go:35-56 | creation succeeds exactly for a valid name no family has up to case |
| Families.CreateKeepsNamesDistinct | service/family.go:42-48 | creation keeps the family names distinct up to case |
| Families.CheckUpdate | service/family.go:92-117 | the checks give UpdateFamily's outcome: only the name written, or the first failure |
| Families.UpdateFamily | service/family.go:90-125 | the result is the update outcome; on error nothing changes |
| Families.UpdateRenamesOnly | service/family.go:111-120 | a family may keep its name or change its case, and only the name changes |
| Families.UpdateKeepsNamesDistinct | service/family.go:111-117 | renaming keeps the family names distinct up to case |
| Families.DeleteFamily | service/family.go:128-160 | the result is the delete outcome; on success the family row is removed |
| Families.RemovedMemberBlocksDelete | service/family.go:144-152 | a removed member still blocks the delete of its family |
| Families.DeleteSucceedsIff | service/family.go:128-160 | delete succeeds exactly for a stored family that no member row names, and removes only it |

## Left out

- Text.EqualFold: case folding covers ASCII letters only. Go's `strings.EqualFold` also folds non-ASCII letters; names are assumed to have no cased non-ASCII letters.
- Amounts: `float64` sums become exact integer cents. Rounding of the DECIMAL(12,2) column and of float addition is not modelled.
- Time: `time.Now()` is a parameter, and timestamps (`CreatedAt`, `UpdatedAt`) are not stored. DATE_FORMAT specifiers other than %Y, %m and %d render the character after `%`.
- Sprintf verbs other than `%s` are not modelled in the SELECT template.
- Ids: creates ignore a caller-supplied id and take the next counter value. Ids are unbounded; only path segments are checked against 32 bits.
- Database failures other than a missing row (connection or constraint errors) are not modelled.
- The GORM association upserts that `Create` and `Save` perform on preloaded associations are not modelled. Preloads other than Children and Members (Parent, Family, Member, Category, Labels) are not modelled either.
- Listings: GORM's treatment of page <= 0 or a negative page size is modelled only as "no offset / no limit". The order of rows with the same time is stable by id, where the database leaves it unspecified. A filter value matches only a value of the column's own kind, with no SQL coercion.
- Concurrency: check-then-write races and the non-atomic two-step category write are out of scope; every operation is sequential.
- Transport: HTTP handlers, their defaults (time window, default type and grouping, page clamping), JSON shaping, configuration, logging and process setup are out of scope.
- Error messages: the Chinese messages become error kinds (`Validation`, `NotFound`, `Conflict`, `StoreError`), with the table or rule involved.
- Families.FamilyExists also stands for the identical private `familyExists` helpers of the transaction and tag services.
- Families.GetFamilyByID also stands for `GetFamilyWithMembers`, whose code is the same.
- Members.GetMembersByFamilyID also stands for `GetActiveMembersByFamilyID`, whose DAO query is the same.
- `GetAllFamilies` and `GetAllMembers` in the services only forward the DAO listing (`Store.Store.AllFamilies`, `Store.Store.AllMembers`). No service method is written for them.
- Pointer aliasing in buildCategoryTree is covered by updating an array in place: a root copied before a later append does not see that append.
- Aggregation.SummaryByTime / TransactionQueries.GetTransactionSummaryByTime: group by the intended period; the SQL as written is `TimeSelectAsWritten`, which holds no date format (see Findings). How GORM passes the extra Select argument to the database is not modelled.
- Listing.Matches / Tags.GetTagsByType / Aggregation.SummaryByCategory: SQL string comparisons and GROUP BY keys are modelled as exact string equality, as under a binary, case- and accent-sensitive collation. The source sets no collation (the connection string at commen/config/config.go:107 gives only the character set), so MySQL's default utf8mb4 collation applies, and it ignores case and accents. This matters where the compared text is free: `type = ?` on tags (model/tag.go:57), the column filters (model/transaction.go:55 and :87) and `GROUP BY categories.name` (model/transaction.go:151). There, "Food" and "food" form one group of the category summary, and a filter for "cash" also lists "Cash". Category and transaction types are validated to exact lower-case constants before they are stored, so their comparisons are unaffected.
- Aggregation.Sprintf: operands beyond the verbs are ignored, where Go appends "%!(EXTRA …)"; the one Sprintf the model renders this way (model/transaction.go:192) has no operands.

## Findings

| source | as written | input that shows it | evidently intended | confidence | as-written member | corrected member |
|---|---|---|---|---|---|---|
| service/category.go:72 | a new category's provisional path is the parent's path plus the parent's own id, and a root's is "/"; the id is appended at line 88, so a root gets "//id" and a child repeats its parent's id | root 1 created with path "//1"; a child 2 created under it gets "//1/1/2", whose breadcrumb names the root twice | the parent's path plus the new id ("/1/2"), as UpdateCategory computes it and as the breadcrumb expects | not executed | CategoryPaths.CreatedPathAsWritten, CategoryPaths.CreatedChildListsParentTwice | CategoryPaths.CreatedPath, CategoryPaths.CreatedChildListsParentOnce |
| model/transaction.go:192 | the SELECT template's `%s` gets no operand, because the format is passed to Select instead of to Sprintf; the SQL text never contains the date format, and reads DATE_FORMAT(transaction_time, '%!s(MISSING)') | any groupBy, e.g. "day" and "year": both give the same SELECT text. If the statement runs as built, every transaction falls into the single period "!s(MISSING)"; the database's handling of the extra Select argument is not modelled, and it may fail the query instead | the format for the grouping inside DATE_FORMAT, so the keys are days, months or years | not executed | Aggregation.TimeSelectAsWritten, Aggregation.MissingFormatOnePeriod | Aggregation.TimeSelect, Aggregation.TimeSelectCarriesFormat |

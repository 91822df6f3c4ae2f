# Paging engine of BasicRepository, modelled in Dafny

This project models the paging engine of the generic repository library:

- the `PagerQuery` object that carries the paging and sorting settings of one request, and the `PagerList` it comes back in;
- the `OrderByExtensions` helpers:
  - direction-aware `OrderBy`/`ThenBy`;
  - the `OrderBy` that takes a dotted column name and builds a member access at run time;
  - the `OrderBy` that takes a list of `SortDescription`s;
- the paging pipeline of `PagerBaseRepository`. It builds the search filter, counts the rows, corrects the page index, orders the rows, takes the skip/take window and projects the rows.

Element types and elements are values:

- A `Schema` is a record of named properties, each a flag, a number, a text or a nested record.
- A `Value` conforms to a schema.
- A property path is resolved one segment at a time, as `MemberExpression.Property` does.
- LINQ's `OrderBy`/`ThenBy` are given their documented meaning: a stable sort under a lexicographic comparison of the keys, each key with its own direction.

The sort is defined once, as a stable insertion sort. Its result is proved to be a permutation of the source, sorted, and stable: the elements that compare equal keep their source order.

`PagerQuery` is a class whose fields the pipeline updates in place. `AdjustPageNumber` and `GetPagerWithWhere` modify the caller's own query object (its `currentIndex` and `totalItemsCount`) and hand back that same object. The loops of the source are methods with loop invariants, each proved equal to a specification function:

- the walk over the segments of a dotted column;
- the `thenBy`-flag loop over the sort descriptions;
- the `ThenBy` fold over the repository's tie-break keys.

Exceptions the source throws become `Failure` values:

- `DivideByZero` when the page correction divides by an `ItemsPerPage` of 0;
- `OrderingFailed(UnknownProperty)` for a column or property the element type does not have;
- `OrderingFailed(NotComparable)` for a key that is a nested record;
- `OrderingFailed(NullDescriptions)` for a null description list;
- `NullOrdering` when the composite `OrderBy` returns null for an empty list.

The data source is an in-memory sequence. The projection (`Adapt`) is an arbitrary function passed in.

Points where the code does not do what its names suggest. The model follows the code, and each point is stated as a lemma:

- **Soft delete is not applied.** `GetPager` passes `a => !a.Deleted` as an include path, not as a filter, so a deleted row whose Name matches passes the filter and is counted (`PagerRepository.SoftDeletedRowsAreCounted`). The filter depends on Name alone (`PagerRepository.FilterIgnoresAllButName`).
- **The correction and the skip use different bases.** The page correction reasons with 1-based page numbers, while `SkipValue` is `CurrentIndex * ItemsPerPage`, which is 0-based. After a correction with rows left, the page starts past the last row and comes back empty (`PagerRepository.CorrectedPageIsEmpty`, `PagerRepository.ClampExample`).
- **A page size of 0 or less is not rejected.** `Take` of 0 or less yields nothing. A correction with `ItemsPerPage == 0` throws a division by zero. With mathematical integers, a negative `ItemsPerPage` never reaches the correction (`PagerRepository.CorrectionDivisor`); with the source's 32-bit wrap-around it can (see Left out).
- **The query's direction plays no part in the default ordering.** Without a sorting condition the ordering is the repository's `GetOrderBy` key (Name ascending by default) and its own direction (`PagerRepository.DefaultOrderingIsNameAscending`). A fresh `PagerQuery` says `Descending`, but it is a default sort, so it has no sorting condition.

## Model

| member | source | states |
|---|---|---|
| Keys.CompareText | Basic.Generic.Repositories/Helpers/OrderByExtensions.cs:18-21 | comparing two string keys yields -1, 0 or 1 |
| Keys.CompareTextAntisymmetric | Basic.Generic.Repositories/Helpers/OrderByExtensions.cs:18-21 | swapping two string keys negates their comparison |
| Keys.CompareTextZero | Basic.Generic.Repositories/Helpers/OrderByExtensions.cs:18-21 | two string keys compare equal exactly when they are the same string |
| Keys.CompareTextTransitive | Basic.Generic.Repositories/Helpers/OrderByExtensions.cs:18-21 | the string order is transitive |
| Keys.CompareKeys | Basic.Generic.Repositories/Helpers/OrderByExtensions.cs:18-21 | comparing two keys yields -1, 0 or 1; keys of different kinds are ordered by kind |
| Keys.CompareKeysAntisymmetric | Basic.Generic.Repositories/Helpers/OrderByExtensions.cs:18-21 | swapping two keys negates their comparison |
| Keys.CompareKeysZero | Basic.Generic.Repositories/Helpers/OrderByExtensions.cs:18-21 | two keys compare equal exactly when they are equal |
| Keys.CompareKeysTransitive | Basic.Generic.Repositories/Helpers/OrderByExtensions.cs:18-21 | the key order is transitive, so it is a total order OrderBy can sort by |
| Values.ResolveAppend | Basic.Generic.Repositories/Helpers/OrderByExtensions.cs:46-48 | resolving a path segment by segment equals resolving its prefix and then the rest from the prefix's type |
| Values.LookupWellTyped | Basic.Generic.Repositories/Helpers/OrderByExtensions.cs:46-50 | on an element of the type, a path that resolves in the type reaches a value of the resolved type |
| Values.KeyAtWellTyped | Basic.Generic.Repositories/Helpers/OrderByExtensions.cs:46-50 | on an element of the type, the sort key of a non-record path is the value stored at that path |
| Values.Split | Basic.Generic.Repositories/Helpers/OrderByExtensions.cs:46 | splitting a column on '.' yields at least one segment, and no segment contains '.' |
| Values.JoinSplit | Basic.Generic.Repositories/Helpers/OrderByExtensions.cs:46 | joining the segments of a column with '.' gives the column back |
| Values.SplitJoin | Basic.Generic.Repositories/Helpers/OrderByExtensions.cs:46 | splitting a join of separator-free segments gives the segments back |
| Values.SplitNoSeparator | Basic.Generic.Repositories/Helpers/OrderByExtensions.cs:46 | a column without '.' is a single property name |
| OrderByExtensions.CompareBy | Basic.Generic.Repositories/Helpers/OrderByExtensions.cs:14-32 | comparing two elements under one key in its direction yields -1, 0 or 1 |
| OrderByExtensions.CompareByZero | Basic.Generic.Repositories/Helpers/OrderByExtensions.cs:14-32 | two elements tie under a key exactly when their key values are equal, whatever the direction |
| OrderByExtensions.CompareByAntisymmetric | Basic.Generic.Repositories/Helpers/OrderByExtensions.cs:14-32 | swapping two elements negates their comparison under a key |
| OrderByExtensions.CompareByTransitive | Basic.Generic.Repositories/Helpers/OrderByExtensions.cs:14-32 | the order under one key is transitive in either direction |
| OrderByExtensions.CompareLex | Basic.Generic.Repositories/Helpers/OrderByExtensions.cs:14-32 | comparing two elements under an OrderBy followed by ThenBy keys yields -1, 0 or 1 |
| OrderByExtensions.CompareLexAntisymmetric | Basic.Generic.Repositories/Helpers/OrderByExtensions.cs:14-32 | swapping two elements negates their comparison under OrderBy/ThenBy keys |
| OrderByExtensions.CompareLexTransitive | Basic.Generic.Repositories/Helpers/OrderByExtensions.cs:14-32 | the order under OrderBy/ThenBy keys is transitive |
| OrderByExtensions.CompareLexEquivalent | Basic.Generic.Repositories/Helpers/OrderByExtensions.cs:14-32 | ties under OrderBy/ThenBy keys are transitive |
| OrderByExtensions.CompareLexAppend | Basic.Generic.Repositories/Helpers/OrderByExtensions.cs:24-32 | adding ThenBy keys only decides between elements that tie under the earlier keys |
| OrderByExtensions.CompareLexAt | Basic.Generic.Repositories/Helpers/OrderByExtensions.cs:24-32 | if two elements are in order and tie on the first m keys, they are in order under key m |
| OrderByExtensions.InsertPermutation | Basic.Generic.Repositories/Helpers/OrderByExtensions.cs:18-21 | inserting an element into a sorted run adds exactly that element |
| OrderByExtensions.InsertSorted | Basic.Generic.Repositories/Helpers/OrderByExtensions.cs:18-21 | inserting into a sorted run keeps it sorted |
| OrderByExtensions.InsertEquivalents | Basic.Generic.Repositories/Helpers/OrderByExtensions.cs:18-21 | an inserted element goes before the elements it ties with |
| OrderByExtensions.StableSortSorted | Basic.Generic.Repositories/Helpers/OrderByExtensions.cs:18-21 | the ordered sequence is a permutation of the source and sorted under the keys |
| OrderByExtensions.StableSortStable | Basic.Generic.Repositories/Helpers/OrderByExtensions.cs:18-21 | elements that tie keep their source order (LINQ's OrderBy is stable) |
| OrderByExtensions.OrderBySorts | Basic.Generic.Repositories/Helpers/OrderByExtensions.cs:14-22 | OrderBy yields a permutation of the source, non-decreasing in the key for Ascending and non-increasing otherwise |
| OrderByExtensions.ThenByBreaksTies | Basic.Generic.Repositories/Helpers/OrderByExtensions.cs:24-32 | ThenBy keeps the order under the earlier keys and orders each run of ties by the new key in its direction, as a permutation |
| OrderByExtensions.OrderByColumn | Basic.Generic.Repositories/Helpers/OrderByExtensions.cs:38-60 | the loop over the '.' segments builds exactly the string-path ordering: unknown property, non-comparable member, or OrderBy on the resolved path in the given direction |
| OrderByExtensions.OrderByPathOrders | Basic.Generic.Repositories/Helpers/OrderByExtensions.cs:38-60 | the string-path OrderBy fails with an unknown property exactly when the path does not resolve; on success the rows are a permutation sorted by the value at the path in the given direction |
| OrderByExtensions.DescriptionKeysAt | Basic.Generic.Repositories/Helpers/OrderByExtensions.cs:75-117 | description i becomes sort key i, on its property and in its direction |
| OrderByExtensions.OrderByDescriptions | Basic.Generic.Repositories/Helpers/OrderByExtensions.cs:62-120 | the thenBy-flag loop yields exactly the composite ordering: a failure for a null list or an unknown or non-comparable property, null for an empty list, otherwise OrderBy on the first description and ThenBy on each later one |
| OrderByExtensions.CompositeIsLexicographic | Basic.Generic.Repositories/Helpers/OrderByExtensions.cs:62-120 | a successful composite ordering is null exactly for an empty list; otherwise it is a permutation where each description orders the rows that tie on all earlier ones, in its own direction |
| Pager.PagerQuery.constructor | Basic.Generic.Common/Pager/PagerQuery.cs:12-21 | the default query: 25 per page, index 0, no rows, Name descending, empty search key, default sort; so no sorting or paging condition and a zero skip |
| Pager.PagerQuery.FromQuery | Basic.Generic.Common/Pager/PagerQuery.cs:23-31 | the copy keeps the paging fields, column and direction, leaves the search key null, and is an explicit sort: it has a sorting condition exactly when the column is non-empty |
| Pager.PagerQuery.WithSortColumn | Basic.Generic.Common/Pager/PagerQuery.cs:33-36 | the default query with the given column; it remains a default sort, so it has no sorting condition |
| Pager.PagerQuery.SkipValue | Basic.Generic.Common/Pager/PagerQuery.cs:44-52 | the skip is CurrentIndex * ItemsPerPage, clamped to 0 when negative; it is never negative |
| Pager.SortingConditionNamesColumn | Basic.Generic.Common/Pager/PagerQuery.cs:58 | a query with a sorting condition has a non-empty sort column |
| Pager.PagingConditionSkipsAPage | Basic.Generic.Common/Pager/PagerQuery.cs:44-60 | a query with a paging condition skips at least one page of more than 25 rows |
| PagerRepository.ContainsAt | Basic.Generic.Repositories/Base/PagerBaseRepository.cs:77 | a Name contains the key exactly when the key occurs in it at some position |
| PagerRepository.GetSearchFilter | Basic.Generic.Repositories/Base/PagerBaseRepository.cs:73-80 | with a null or empty key every element passes; otherwise exactly those whose Name contains the key |
| PagerRepository.WhereSelects | Basic.Generic.Repositories/Base/PagerBaseRepository.cs:184 | the filtered rows are exactly the source rows that pass the filter, each as many times as it occurs in the source, and there are no more of them than source rows |
| PagerRepository.CountFindBySearchKey | Basic.Generic.Repositories/Base/PagerBaseRepository.cs:160-164 | the count equals the number of rows the filtered query fetches, whatever the include paths, and is at most the number of source rows |
| PagerRepository.QueryableOrderBy | Basic.Generic.Repositories/Base/PagerBaseRepository.cs:136-158 | the ordering built is the sort column's OrderBy, or the composite OrderBy when the column is empty, given a sorting condition; otherwise the repository's key followed by each ThenBy key in order |
| PagerRepository.SortingConditionUsesColumn | Basic.Generic.Repositories/Base/PagerBaseRepository.cs:139-142 | for a PagerQuery with a sorting condition, the string-path OrderBy on its column and direction decides the ordering |
| PagerRepository.DefaultOrderingIsNameAscending | Basic.Generic.Repositories/Base/PagerBaseRepository.cs:89-98 | without a sorting condition and without overrides, the rows are ordered by Name ascending, as a permutation, whatever the query's direction |
| PagerRepository.CeilDiv | Basic.Generic.Repositories/Base/PagerBaseRepository.cs:192 | for a positive ItemsPerPage, the corrected index c is the ceiling of count / ItemsPerPage: (c-1)*ItemsPerPage < count <= c*ItemsPerPage, and c is at most the count |
| PagerRepository.CorrectionDivisor | Basic.Generic.Repositories/Base/PagerBaseRepository.cs:189-192 | with mathematical integers, whenever a correction is due, ItemsPerPage is not negative |
| PagerRepository.AdjustPageNumber | Basic.Generic.Repositories/Base/PagerBaseRepository.cs:187-197 | sets TotalItemsCount to the count and CurrentIndex to the corrected index, changes nothing else and returns the same query; on a division by zero nothing changes |
| PagerRepository.CorrectionFailsOnlyOnZeroPageSize | Basic.Generic.Repositories/Base/PagerBaseRepository.cs:189-192 | the correction throws exactly when ItemsPerPage is 0, there are no rows and the index is past the first page |
| PagerRepository.CorrectionLowersIndex | Basic.Generic.Repositories/Base/PagerBaseRepository.cs:189-193 | a correction strictly lowers the index, never below 0, and reaches 0 exactly when there are no rows |
| PagerRepository.CorrectedIndexIsStable | Basic.Generic.Repositories/Base/PagerBaseRepository.cs:187-197 | correcting a corrected index for the same count changes nothing |
| PagerRepository.WindowAt | Basic.Generic.Repositories/Base/PagerBaseRepository.cs:117-119 | the page is the rows at positions skip to skip+take that exist; it is full when enough rows remain |
| PagerRepository.PageIsBounded | Basic.Generic.Repositories/Base/PagerBaseRepository.cs:117-119 | a page of an ordering of the counted rows holds at most ItemsPerPage rows and at most the rows left after the skip |
| PagerRepository.PageRowsPassFilter | Basic.Generic.Repositories/Base/PagerBaseRepository.cs:104-119 | every row on a page is a source row that passes the search filter |
| PagerRepository.CorrectedPageIsEmpty | Basic.Generic.Repositories/Base/PagerBaseRepository.cs:108-119 | after a correction with rows left, the skip reaches past the last row and the page is empty |
| PagerRepository.ClampExample | Basic.Generic.Repositories/Base/PagerBaseRepository.cs:187-197 | with 5 rows, 25 per page and index 1000, the index becomes 1, the skip 25, and the page is empty |
| PagerRepository.GetPagerWithWhere | Basic.Generic.Repositories/Base/PagerBaseRepository.cs:100-129 | on the caller's own query: the count of the filtered rows and the corrected index are recorded, and the result is the projected window of the ordered filtered rows; a division by zero changes nothing, and an ordering failure comes after the correction |
| PagerRepository.GetPager | Basic.Generic.Repositories/Base/PagerBaseRepository.cs:68-71 | exactly GetPagerWithWhere's behaviour: the count and the corrected index recorded on the caller's query, a division by zero changing nothing, an ordering failure returned after the correction, otherwise the projected window of the ordered filtered rows |
| PagerRepository.SoftDeletedRowsAreCounted | Basic.Generic.Repositories/Base/PagerBaseRepository.cs:68-71 | a row flagged Deleted whose Name matches passes the filter, with an empty search key or a matching one |
| PagerRepository.FilterIgnoresAllButName | Basic.Generic.Repositories/Base/PagerBaseRepository.cs:73-80 | two rows with the same Name are both kept or both dropped, whatever their Deleted flag |

## Left out

- Pager.PagerQuery.SkipValue: does not model the 32-bit wrap-around of `CurrentIndex * ItemsPerPage`. Integers are mathematical, so a product that overflows `int` in the source is exact here.
- PagerRepository.AdjustPageNumber: does not model the 32-bit wrap-around of `(CurrentIndex - 1) * ItemsPerPage + 1`. With wrap-around, a correction can divide by a negative `ItemsPerPage`: with `CurrentIndex` 1073741826, `ItemsPerPage` -2 and 5 rows, the product wraps to 2147483646, the first index is 2147483647, and the correction sets `CurrentIndex` to `Math.Ceiling(5m / -2)` = -2, giving a `SkipValue` of 4. The model, with mathematical integers, never corrects with a negative `ItemsPerPage` (`PagerRepository.CorrectionDivisor`). The `(int)` cast of the ceiling cannot overflow in either case: whenever the absolute value of `ItemsPerPage` is at least 1, the absolute value of the ceiling is at most the count.
- PagerRepository.CeilDiv: the decimal division and `Math.Ceiling` are modelled as the exact integer ceiling. The decimal rounding of a quotient of two 32-bit integers is not modelled.
- Keys.CompareText: strings are compared ordinally, character by character. The culture-sensitive default string comparer, and database collations, are not modelled.
- PagerRepository.ContainsAt: the filter is an exact substring match. The case-insensitive LIKE a database collation may apply is not modelled.
- OrderByExtensions.OrderByColumn: property names match exactly; the case-insensitive lookup of `Expression.Property` is not modelled. Scalar members (strings, numbers, dates) have no properties here, so a path through one, such as `Name.Length`, is `UnknownProperty`, while the source resolves it and orders by that value. A key whose type is a record is reported as `NotComparable` when the ordering is built; in the source the comparer throws only when the query is enumerated, which is later.
- OrderByExtensions.OrderByDescriptions: models the ordering the composite OrderBy is meant to build, not what the code as written does. At OrderByExtensions.cs:103 the lambda is declared to return `IOrderedQueryable<T>` but its body is `Enumerable.OrderBy`, of type `IOrderedEnumerable<T>`, and `Expression.Lambda` rejects that; so the source throws for every non-empty list whose first property exists. The ThenBy branch has the same mismatch. A key whose type is a record is reported as `NotComparable` when the ordering is built, not when the query is enumerated.
- OrderByExtensions.OrderByColumn: the trailing `.OrderBy(x => 0)` of the string-path OrderBy is left out. As a stable ordering on a constant key, it does not change the order of the rows. It does make the constant the primary key of the returned ordering, so a `ThenBy` on that result would order by its own key first and keep the column order only among ties. `QueryableOrderBy` returns the result directly, so no caller here applies a `ThenBy` to it.
- The reflection plumbing is not modelled: `MethodOf`, the cached `MethodInfo`s, `MakeGenericMethod`, and the compiled lambdas. Only the ordering each one is meant to build is modelled.
- Entity Framework is not modelled: `Include(path).Load()`, `AsNoTracking` and the `DbContext`. The include paths are handed to Entity Framework, and the model gives them no effect on the rows.
- PagerRepository.GetPager: passes the soft-delete lambda as an include path and gives it no effect. Whatever Entity Framework does with that lambda in `Include`, including rejecting it, is not modelled.
- The Mapster projection (`GetSelect`/`Adapt`) is an arbitrary function `select` passed in. `QueryableSelect` is the same projection and is not modelled separately.
- The search filter, `GetOrderBy` and `GetThenBy` are virtual. The ordering overrides are modelled as the `OrderingHooks` parameter, which holds the base defaults in `BaseHooks`. An override of the search filter is not modelled; the base filter is used.
- The two derived `PagerBaseRepository` classes are not modelled separately. Their `GetPager` differs only in the element type it reads, which a schema parameter covers.
- A null `Name` on an element is treated as the empty string. A database `LIKE` on NULL is false, and so is `Contains("", key)` for a non-empty key. The empty key never reaches the filter, because it selects `MatchAll`.
- `RelativeId` is a `nat` standing for a `Guid`, with 0 for `Guid.Empty`. Nothing in the engine reads it.
- BaseRepository's create, read, update and delete operations are not modelled. Neither is `EntityWithId`, whose timestamps come from the clock.
- The second copy of `PagerList` (Basic.Generic.Pager/Pager/PagerList.cs) is not modelled separately. Its constructor only assigns the same two properties.
- `PagerQuery` does not declare the `SortDescription` list that `ISorting` requires. It is modelled as a field that no constructor assigns, so it starts null.
- No parser from a sort string to a list of `SortDescription`s exists in the source, so none is modelled.

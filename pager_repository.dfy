/** The paging pipeline of the repository base class
    (Basic.Generic.Repositories/Base/PagerBaseRepository.cs): search filter,
    count, page correction, ordering, skip/take and projection, over an
    in-memory source of elements. */
module PagerRepository {
  import opened Wrappers
  import opened Keys
  import opened Values
  import opened SortEnums
  import opened OrderByExtensions
  import opened Pager

  /** Why a paging call throws. */
  datatype PagerError =
    | DivideByZero                     // the page correction divides by ItemsPerPage == 0
    | OrderingFailed(cause: OrderError) // the requested ordering cannot be built or run
    | NullOrdering                     // the composite ordering returned null

  // ---------------------------------------------------------------- filter

  /** The predicate GetSearchFilter builds: everything, or the elements
      whose Name contains the key. */
  datatype SearchFilter = MatchAll | NameContains(key: string)

  /** The Name of an element (ISortable/IFilterable.Name). */
  function NameOf(e: Value): string
  {
    match Lookup(e, [NameColumn])
    case Some(Leaf(Text(s))) => s
    case _ => ""
  }

  /** String.Contains: `key` occurs in `s` at some position. */
  predicate Contains(s: string, key: string)
    decreases |s|
  {
    key <= s || (s != [] && Contains(s[1..], key))
  }

  /** `key` occurs in `s` starting at position i. */
  predicate OccursAt(s: string, key: string, i: int)
  {
    0 <= i <= |s| - |key| && s[i..i + |key|] == key
  }

  /** Contains means: there is a position where the key occurs. */
  lemma {:induction false} ContainsAt(s: string, key: string)
    ensures Contains(s, key) <==> exists i :: OccursAt(s, key, i)
    decreases |s|
  {
    if key <= s {
      assert OccursAt(s, key, 0);
    } else if s == [] {
    } else {
      ContainsAt(s[1..], key);
      if exists i :: OccursAt(s, key, i) {
        var i :| OccursAt(s, key, i);
        assert i != 0;
        assert s[1..][i - 1..i - 1 + |key|] == s[i..i + |key|];
        assert OccursAt(s[1..], key, i - 1);
      }
      if Contains(s[1..], key) {
        var i :| OccursAt(s[1..], key, i);
        assert s[i + 1..i + 1 + |key|] == s[1..][i..i + |key|];
        assert OccursAt(s, key, i + 1);
      }
    }
  }

  predicate Accepts(f: SearchFilter, e: Value)
  {
    match f
    case MatchAll => true
    case NameContains(key) => Contains(NameOf(e), key)
  }

  /** GetSearchFilter (lines 73-80): without a key every element passes,
      otherwise exactly those whose Name contains the key. Nothing here looks
      at the Deleted flag. */
  function GetSearchFilter(searchKey: Option<string>): (f: SearchFilter)
    ensures forall e :: Accepts(f, e) <==> IsNullOrEmpty(searchKey) || Contains(NameOf(e), searchKey.value)
  {
    if !IsNullOrEmpty(searchKey) then NameContains(searchKey.value) else MatchAll
  }

  /** The rows of the source that pass the filter, in source order. */
  function Where(source: seq<Value>, f: SearchFilter): seq<Value>
  {
    if source == [] then []
    else (if Accepts(f, source[0]) then [source[0]] else []) + Where(source[1..], f)
  }

  lemma {:induction false} WhereSelects(source: seq<Value>, f: SearchFilter)
    ensures |Where(source, f)| <= |source|
    ensures forall x :: x in Where(source, f) <==> x in source && Accepts(f, x)
    ensures forall x :: multiset(Where(source, f))[x] == if Accepts(f, x) then multiset(source)[x] else 0
  {
    if source != [] {
      WhereSelects(source[1..], f);
      assert source == [source[0]] + source[1..];
    }
  }

  /** The include paths handed to GetPagerWithWhere; the only one the
      repositories pass is the soft-delete lambda `a => !a.Deleted`. */
  datatype IncludePath = NotDeleted

  /** QueryableFindBySearchKey (lines 166-185): the include paths are
      handed to Entity Framework (Include(path).Load()), which is not part of
      this model; here they have no effect, and the rows come from the
      filter alone. */
  function QueryableFindBySearchKey(source: seq<Value>, where: SearchFilter, includes: seq<IncludePath>): seq<Value>
  {
    Where(source, where)
  }

  /** CountFindBySearchKey (lines 160-164): counts the same query the page
      is fetched from. */
  function CountFindBySearchKey(source: seq<Value>, where: SearchFilter): (n: nat)
    ensures n <= |source|
    ensures forall includes :: n == |QueryableFindBySearchKey(source, where, includes)|
  {
    WhereSelects(source, where);
    |QueryableFindBySearchKey(source, where, [])|
  }

  // ---------------------------------------------------------- ordering

  /** The overridable GetOrderBy/GetThenBy pair of a repository. */
  datatype OrderingHooks = OrderingHooks(orderBy: SortKey, thenBy: Option<seq<SortKey>>)

  /** GetOrderBy's default (lines 89-93): Name ascending. */
  function GetOrderBy(): SortKey
  {
    SortKey([NameColumn], Ascending)
  }

  /** GetThenBy's default (lines 95-98): null, no tie-breaks. */
  function GetThenBy(): Option<seq<SortKey>>
  {
    None
  }

  /** The hooks of a repository that overrides neither. */
  function BaseHooks(): OrderingHooks
  {
    OrderingHooks(GetOrderBy(), GetThenBy())
  }

  function TieBreaks(thenBy: Option<seq<SortKey>>): seq<SortKey>
  {
    match thenBy
    case None => []
    case Some(keys) => keys
  }

  /** The ordering QueryableOrderBy builds (lines 136-158) from the
      ISorting view of its query. With a sorting condition: the string-path
      OrderBy on the sort column in the query's direction, or, when the
      column is empty, the composite OrderBy on the SortDescription list.
      Without one: the repository's primary key in its own direction, then
      each tie-break in order; the query's SortDirection plays no part. */
  function QueryOrdering(q: seq<Value>, elementType: Schema, sorting: Sorting, hooks: OrderingHooks)
    : Result<Ordered, PagerError>
  {
    if sorting.hasSortingCondition then
      if !IsNullOrEmpty(sorting.sortColumnName) then
        match OrderByPath(q, elementType, sorting.sortColumnName.value, sorting.sortDirection)
        case Failure(e) => Failure(OrderingFailed(e))
        case Success(o) => Success(o)
      else
        match CompositeOrdering(q, elementType, sorting.sortDescription)
        case Failure(e) => Failure(OrderingFailed(e))
        case Success(None) => Failure(NullOrdering)
        case Success(Some(o)) => Success(o)
    else
      Success(Ordered(q, [hooks.orderBy] + TieBreaks(hooks.thenBy)))
  }

  /** QueryableOrderBy as the source runs it: the sorting-condition branches,
      or an OrderBy on the primary key folded with ThenBy over the tie-breaks. */
  method QueryableOrderBy(q: seq<Value>, elementType: Schema, sorting: Sorting, hooks: OrderingHooks)
    returns (r: Result<Ordered, PagerError>)
    ensures r == QueryOrdering(q, elementType, sorting, hooks)
  {
    if sorting.hasSortingCondition {
      if !IsNullOrEmpty(sorting.sortColumnName) {
        var o := OrderByColumn(q, elementType, sorting.sortColumnName.value, sorting.sortDirection);
        r := if o.Failure? then Failure(OrderingFailed(o.error)) else Success(o.value);
      } else {
        var c := OrderByDescriptions(q, elementType, sorting.sortDescription);
        r := match c
          case Failure(e) => Failure(OrderingFailed(e))
          case Success(None) => Failure(NullOrdering)
          case Success(Some(o)) => Success(o);
      }
      return;
    }
    var primary := hooks.orderBy;
    var ord := OrderBy(q, primary.path, primary.direction);
    assert ord == Ordered(q, [primary]);
    if hooks.thenBy.Some? {
      var thenBy := hooks.thenBy.value;
      var i := 0;
      while i < |thenBy|
        invariant 0 <= i <= |thenBy|
        invariant ord == Ordered(q, [primary] + thenBy[..i])
      {
        var k := thenBy[i];
        ord := ThenBy(ord, k.path, k.direction);
        assert thenBy[..i + 1] == thenBy[..i] + [k];
        i := i + 1;
      }
      assert thenBy[..i] == thenBy;
    } else {
      assert [primary] + TieBreaks(hooks.thenBy) == [primary];
    }
    r := Success(ord);
  }

  /** For a PagerQuery a sorting condition always names a column, so the
      single-column OrderBy decides the ordering and the composite branch
      never runs. */
  lemma SortingConditionUsesColumn(q: seq<Value>, elementType: Schema, query: PagerQuery, hooks: OrderingHooks)
    requires query.HasSortingCondition()
    ensures QueryOrdering(q, elementType, query.SortingView(), hooks) ==
      match OrderByPath(q, elementType, query.sortColumnName.value, query.sortDirection)
      case Failure(e) => Failure(OrderingFailed(e))
      case Success(o) => Success(o)
  {
  }

  /** Without a sorting condition a repository with the default hooks orders
      by Name ascending, whatever the query's SortDirection says: the result
      is a permutation of the rows, non-decreasing in Name. */
  lemma DefaultOrderingIsNameAscending(q: seq<Value>, elementType: Schema, sorting: Sorting)
    requires !sorting.hasSortingCondition
    ensures QueryOrdering(q, elementType, sorting, BaseHooks()) == Success(OrderBy(q, [NameColumn], Ascending))
    ensures var r := Items(QueryOrdering(q, elementType, sorting, BaseHooks()).value);
      && multiset(r) == multiset(q)
      && forall i, j :: 0 <= i < j < |r| ==> CompareKeys(KeyAt(r[i], [NameColumn]), KeyAt(r[j], [NameColumn])) <= 0
  {
    assert [GetOrderBy()] + TieBreaks(GetThenBy()) == [SortKey([NameColumn], Ascending)];
    OrderBySorts(q, [NameColumn], Ascending);
  }

  // ------------------------------------------------------ page correction

  /** The first row of the requested page, counted from 1, lies beyond the
      rows, and the page is not the first (lines 189-190). */
  predicate NeedsCorrection(currentIndex: int, itemsPerPage: int, resultCount: nat)
  {
    (currentIndex - 1) * itemsPerPage + 1 > resultCount && currentIndex > 1
  }

  /** Math.Ceiling((decimal)n / d) for d > 0: the decimal quotient of two
      32-bit integers is exact enough that this is the integer ceiling. */
  function CeilDiv(n: nat, d: int): (c: nat)
    requires d > 0
    ensures (c - 1) * d < n <= c * d
    ensures c <= n
  {
    var c := (n + d - 1) / d;
    assert c * d <= n + d - 1 < (c + 1) * d;
    c
  }

  lemma MulNegative(a: int, b: int)
    requires a >= 1
    ensures b < 0 ==> a * b < 0
  {
    if b < 0 {
      assert a * b == (a - 1) * b + b;
    }
  }

  lemma MulMonotonic(x: int, y: int, d: int)
    requires d > 0
    ensures x >= y ==> x * d >= y * d
  {
    if x >= y {
      assert x * d - y * d == (x - y) * d;
    }
  }

  /** A correction never meets a negative ItemsPerPage. */
  lemma CorrectionDivisor(currentIndex: int, itemsPerPage: int, resultCount: nat)
    requires NeedsCorrection(currentIndex, itemsPerPage, resultCount)
    ensures itemsPerPage >= 0
  {
    MulNegative(currentIndex - 1, itemsPerPage);
  }

  /** The CurrentIndex AdjustPageNumber leaves (lines 189-193), or the
      exception the division throws when ItemsPerPage is 0. */
  function CorrectedIndex(currentIndex: int, itemsPerPage: int, resultCount: nat): Result<int, PagerError>
  {
    if NeedsCorrection(currentIndex, itemsPerPage, resultCount) then
      if itemsPerPage == 0 then Failure(DivideByZero)
      else
        CorrectionDivisor(currentIndex, itemsPerPage, resultCount);
        Success(CeilDiv(resultCount, itemsPerPage))
    else Success(currentIndex)
  }

  /** AdjustPageNumber (lines 187-197): sets TotalItemsCount to the count,
      corrects CurrentIndex when the page lies beyond the rows, changes
      nothing else and returns the same object; when the division throws,
      nothing has been assigned. */
  method AdjustPageNumber(query: PagerQuery, resultCount: nat) returns (r: Result<PagerQuery, PagerError>)
    modifies query`currentIndex, query`totalItemsCount
    ensures var c := CorrectedIndex(old(query.currentIndex), query.itemsPerPage, resultCount);
      && (c.Failure? ==> r == Failure(DivideByZero) && unchanged(query))
      && (c.Success? ==> r == Success(query) && query.currentIndex == c.value && query.totalItemsCount == resultCount)
  {
    var firstItemIndexInPage := (query.currentIndex - 1) * query.itemsPerPage + 1;
    if firstItemIndexInPage > resultCount && query.currentIndex > 1 {
      if query.itemsPerPage == 0 {
        return Failure(DivideByZero);
      }
      CorrectionDivisor(query.currentIndex, query.itemsPerPage, resultCount);
      query.currentIndex := CeilDiv(resultCount, query.itemsPerPage);
    }
    query.totalItemsCount := resultCount;
    r := Success(query);
  }

  /** The division throws exactly when ItemsPerPage is 0, there are no rows
      and the index is past the first page. */
  lemma CorrectionFailsOnlyOnZeroPageSize(currentIndex: int, itemsPerPage: int, resultCount: nat)
    ensures CorrectedIndex(currentIndex, itemsPerPage, resultCount).Failure? <==>
      itemsPerPage == 0 && resultCount == 0 && currentIndex > 1
  {
  }

  /** A correction lowers the index, to ceil(resultCount / ItemsPerPage),
      which is 0 exactly when there are no rows. */
  lemma CorrectionLowersIndex(currentIndex: int, itemsPerPage: int, resultCount: nat)
    requires NeedsCorrection(currentIndex, itemsPerPage, resultCount) && itemsPerPage != 0
    ensures itemsPerPage > 0
    ensures var c := CorrectedIndex(currentIndex, itemsPerPage, resultCount);
      c.Success? && 0 <= c.value < currentIndex && (c.value == 0 <==> resultCount == 0)
  {
    CorrectionDivisor(currentIndex, itemsPerPage, resultCount);
    var c: int := CeilDiv(resultCount, itemsPerPage);
    assert (currentIndex - 1) * itemsPerPage >= resultCount;
    MulMonotonic(c - 1, currentIndex - 1, itemsPerPage);
  }

  /** Correcting is idempotent: the corrected index needs no further
      correction for the same count, so a query handed back unchanged is
      stable. */
  lemma CorrectedIndexIsStable(currentIndex: int, itemsPerPage: int, resultCount: nat)
    requires CorrectedIndex(currentIndex, itemsPerPage, resultCount).Success?
    ensures var c := CorrectedIndex(currentIndex, itemsPerPage, resultCount).value;
      CorrectedIndex(c, itemsPerPage, resultCount) == Success(c)
  {
    if NeedsCorrection(currentIndex, itemsPerPage, resultCount) {
      var c := CeilDiv(resultCount, itemsPerPage);
      assert (c - 1) * itemsPerPage + 1 <= resultCount;
    }
  }

  // ---------------------------------------------------------- the window

  /** Queryable.Skip: a count of zero or less skips nothing. */
  function Skip(s: seq<Value>, n: int): seq<Value>
  {
    if n <= 0 then s else if n >= |s| then [] else s[n..]
  }

  /** Queryable.Take: a count of zero or less takes nothing. */
  function Take(s: seq<Value>, n: int): seq<Value>
  {
    if n <= 0 then [] else if n >= |s| then s else s[..n]
  }

  /** The page: `take` rows from position `skip` on. */
  function Window(s: seq<Value>, skip: int, take: int): seq<Value>
  {
    Take(Skip(s, skip), take)
  }

  /** The page holds the rows at positions [skip, skip + take) that exist,
      and no others. */
  lemma WindowAt(s: seq<Value>, skip: nat, take: int)
    ensures var w := Window(s, skip, take);
      && |w| <= (if take < 0 then 0 else take)
      && |w| <= (if |s| < skip then 0 else |s| - skip)
      && (take > 0 && skip + take <= |s| ==> |w| == take)
      && forall i :: 0 <= i < |w| ==> skip + i < |s| && w[i] == s[skip + i]
  {
  }

  /** A page of an ordering of the counted rows holds at most ItemsPerPage
      rows and at most the rows left after the skip. */
  lemma PageIsBounded(rows: seq<Value>, o: Ordered, skip: nat, take: int)
    requires o.source == rows
    ensures var w := Window(Items(o), skip, take);
      && |w| <= (if take < 0 then 0 else take)
      && |w| <= (if |rows| < skip then 0 else |rows| - skip)
  {
    StableSortSorted(o.keys, o.source);
    assert |multiset(Items(o))| == |multiset(rows)|;
    WindowAt(Items(o), skip, take);
  }

  /** Every row of a page of an ordering of the filtered rows is a row of
      the source that passes the filter. */
  lemma PageRowsPassFilter(source: seq<Value>, f: SearchFilter, o: Ordered, skip: nat, take: int)
    requires o.source == Where(source, f)
    ensures forall x :: x in Window(Items(o), skip, take) ==> x in source && Accepts(f, x)
  {
    StableSortSorted(o.keys, o.source);
    WhereSelects(source, f);
    forall x | x in Window(Items(o), skip, take) ensures x in source && Accepts(f, x) {
      WindowAt(Items(o), skip, take);
      var i :| 0 <= i < |Window(Items(o), skip, take)| && Window(Items(o), skip, take)[i] == x;
      assert x in multiset(Items(o));
    }
  }

  /** After a correction with rows left, the page starts at or past the
      last row: CurrentIndex is corrected with 1-based arithmetic while
      SkipValue is 0-based, so the page comes back empty. */
  lemma CorrectedPageIsEmpty(rows: seq<Value>, currentIndex: int, itemsPerPage: int)
    requires NeedsCorrection(currentIndex, itemsPerPage, |rows|) && itemsPerPage != 0 && |rows| > 0
    ensures var c := CorrectedIndex(currentIndex, itemsPerPage, |rows|).value;
      c * itemsPerPage >= |rows| && Window(rows, c * itemsPerPage, itemsPerPage) == []
  {
    CorrectionLowersIndex(currentIndex, itemsPerPage, |rows|);
  }

  /** 5 rows, 25 per page, index 1000: the index becomes 1, the skip 25,
      and the page is empty. */
  lemma ClampExample(rows: seq<Value>)
    requires |rows| == 5
    ensures CorrectedIndex(1000, 25, |rows|) == Success(1)
    ensures Window(rows, 1 * 25, 25) == []
  {
    assert NeedsCorrection(1000, 25, 5);
  }

  /** Projection element by element (the Mapster Adapt call is opaque). */
  function Project<TResult>(select: Value -> TResult, s: seq<Value>): (r: seq<TResult>)
  {
    seq(|s|, i requires 0 <= i < |s| => select(s[i]))
  }

  // ------------------------------------------------------------ pipeline

  /** GetPagerWithWhere (lines 100-129): filter, count, correct the page on
      the caller's query object, order, skip/take, project. Count and fetch
      use the same filter; the include paths do not filter. When the
      correction throws nothing is changed; when the ordering throws the
      correction has already been applied. */
  method GetPagerWithWhere<TResult>(source: seq<Value>, elementType: Schema, hooks: OrderingHooks,
                                    select: Value -> TResult, query: PagerQuery, includes: seq<IncludePath>)
    returns (r: Result<PagerList<TResult>, PagerError>)
    modifies query`currentIndex, query`totalItemsCount
    ensures var rows := Where(source, GetSearchFilter(query.searchKey));
      var c := CorrectedIndex(old(query.currentIndex), query.itemsPerPage, |rows|);
      && (c.Failure? ==> r == Failure(DivideByZero) && unchanged(query))
      && (c.Success? ==>
           && query.currentIndex == c.value
           && query.totalItemsCount == |rows|
           && var ord := QueryOrdering(rows, elementType, query.SortingView(), hooks);
           && (ord.Failure? ==> r == Failure(ord.error))
           && (ord.Success? ==>
                && r.Success? && r.value.pagerQuery == query
                && r.value.list == Project(select, Window(Items(ord.value), query.SkipValue(), query.itemsPerPage))))
  {
    var filter := GetSearchFilter(query.searchKey);

    // COUNT
    var resultCount := CountFindBySearchKey(source, filter);
    var adjusted := AdjustPageNumber(query, resultCount);
    if adjusted.Failure? {
      return Failure(adjusted.error);
    }

    // WHERE
    var q := QueryableFindBySearchKey(source, filter, includes);

    // ORDER BY
    var orderedQuery := QueryableOrderBy(q, elementType, query.SortingView(), hooks);
    if orderedQuery.Failure? {
      return Failure(orderedQuery.error);
    }

    // TAKE / SKIP
    var page := Window(Items(orderedQuery.value), query.SkipValue(), query.itemsPerPage);

    // SELECT
    var model := Project(select, page);
    r := Success(PagerList(model, query));
  }

  /** GetPager (lines 68-71): the paging call of every repository; it hands
      the soft-delete lambda to GetPagerWithWhere as an include path. */
  method GetPager<TResult>(source: seq<Value>, elementType: Schema, hooks: OrderingHooks,
                           select: Value -> TResult, query: PagerQuery)
    returns (r: Result<PagerList<TResult>, PagerError>)
    modifies query`currentIndex, query`totalItemsCount
    ensures var rows := Where(source, GetSearchFilter(query.searchKey));
      var c := CorrectedIndex(old(query.currentIndex), query.itemsPerPage, |rows|);
      && (c.Failure? ==> r == Failure(DivideByZero) && unchanged(query))
      && (c.Success? ==>
           && query.currentIndex == c.value
           && query.totalItemsCount == |rows|
           && var ord := QueryOrdering(rows, elementType, query.SortingView(), hooks);
           && (ord.Failure? ==> r == Failure(ord.error))
           && (ord.Success? ==>
                && r.Success? && r.value.pagerQuery == query
                && r.value.list == Project(select, Window(Items(ord.value), query.SkipValue(), query.itemsPerPage))))
  {
    r := GetPagerWithWhere(source, elementType, hooks, select, query, [NotDeleted]);
  }

  /** An element flagged Deleted. */
  predicate IsDeleted(e: Value)
  {
    Lookup(e, ["Deleted"]) == Some(Leaf(Flag(true)))
  }

  /** The soft-delete lambda only reaches the include paths, so a deleted
      row whose Name matches passes the filter and is counted: here the only
      row of the source is deleted and still counts. */
  lemma SoftDeletedRowsAreCounted()
    ensures var row := Node(map[NameColumn := Leaf(Text("a")), "Deleted" := Leaf(Flag(true))]);
      && IsDeleted(row)
      && Where([row], GetSearchFilter(Some(""))) == [row]
      && Where([row], GetSearchFilter(Some("a"))) == [row]
  {
    var row := Node(map[NameColumn := Leaf(Text("a")), "Deleted" := Leaf(Flag(true))]);
    assert Lookup(row, [NameColumn]) == Some(Leaf(Text("a")));
    assert Contains("a", "a");
    assert [row][1..] == [];
  }

  /** The filter depends on Name only: two elements with the same Name are
      both kept or both dropped, whatever else (Deleted included) differs. */
  lemma FilterIgnoresAllButName(source: seq<Value>, searchKey: Option<string>, x: Value, y: Value)
    requires x in source && y in source && NameOf(x) == NameOf(y)
    ensures x in Where(source, GetSearchFilter(searchKey)) <==> y in Where(source, GetSearchFilter(searchKey))
  {
    WhereSelects(source, GetSearchFilter(searchKey));
  }
}

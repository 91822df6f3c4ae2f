/** The paging and sorting settings of one request (PagerQuery,
    Basic.Generic.Common/Pager/PagerQuery.cs) and the paged result that
    carries them back (PagerList, Basic.Generic.Common/Pager/PagerList.cs). */
module Pager {
  import opened Wrappers
  import opened SortEnums

  const DefaultItemsPage := 25
  const DefaultCurrentIndex := 0
  /** nameof(ISortable.Name): the column a fresh query names. */
  const NameColumn := "Name"

  /** String.IsNullOrEmpty on a string that may be null. */
  predicate IsNullOrEmpty(s: Option<string>)
  {
    s == None || s == Some("")
  }

  /** The ISorting view of a query: what the ordering step reads. */
  datatype Sorting = Sorting(
    hasSortingCondition: bool,
    sortColumnName: Option<string>,
    sortDirection: SortDirection,
    sortDescription: Option<seq<SortDescription>>)

  /** A mutable query object; every property has a public setter except
      defaultSort, whose setter is protected and which only the constructors
      assign. Integers are mathematical; relativeId stands for a Guid, 0 for
      Guid.Empty. sortDescription is the ISorting.SortDescription list the
      composite ordering reads; no constructor assigns it, so it starts null. */
  class PagerQuery {
    var itemsPerPage: int
    var totalItemsCount: int
    var currentIndex: int
    var sortColumnName: Option<string>
    var sortDirection: SortDirection
    var searchKey: Option<string>
    var relativeId: nat
    var sortDescription: Option<seq<SortDescription>>
    var defaultSort: bool

    /** The default query: 25 per page, index 0, ordered by Name descending,
        empty search key, default sort. */
    constructor ()
      ensures itemsPerPage == DefaultItemsPage && currentIndex == DefaultCurrentIndex && totalItemsCount == 0
      ensures sortColumnName == Some(NameColumn) && sortDirection == Descending
      ensures searchKey == Some("") && relativeId == 0 && sortDescription == None
      ensures defaultSort
      ensures !HasSortingCondition() && !HasPagingCondition() && SkipValue() == 0
    {
      itemsPerPage := DefaultItemsPage;
      currentIndex := DefaultCurrentIndex;
      totalItemsCount := 0;
      sortColumnName := Some(NameColumn);
      sortDirection := Descending;
      searchKey := Some("");
      relativeId := 0;
      sortDescription := None;
      defaultSort := true;
    }

    /** The copy constructor: copies the paging fields, the sort column and
        the direction, and marks the copy as an explicit sort. SearchKey is
        not copied (left null), nor is RelativeId. */
    constructor FromQuery(query: PagerQuery)
      ensures itemsPerPage == query.itemsPerPage && currentIndex == query.currentIndex
      ensures totalItemsCount == query.totalItemsCount
      ensures sortColumnName == query.sortColumnName && sortDirection == query.sortDirection
      ensures searchKey == None && relativeId == 0 && sortDescription == None
      ensures !defaultSort
      ensures HasSortingCondition() <==> !IsNullOrEmpty(query.sortColumnName)
      ensures SkipValue() == query.SkipValue() && HasPagingCondition() == query.HasPagingCondition()
    {
      itemsPerPage := query.itemsPerPage;
      currentIndex := query.currentIndex;
      totalItemsCount := query.totalItemsCount;
      sortColumnName := query.sortColumnName;
      sortDirection := query.sortDirection;
      searchKey := None;
      relativeId := 0;
      sortDescription := None;
      defaultSort := false;
    }

    /** PagerQuery(string): the default query with another sort column; it
        stays a default sort, so it has no sorting condition. */
    constructor WithSortColumn(sortColumnName: Option<string>)
      ensures itemsPerPage == DefaultItemsPage && currentIndex == DefaultCurrentIndex && totalItemsCount == 0
      ensures this.sortColumnName == sortColumnName && sortDirection == Descending
      ensures searchKey == Some("") && relativeId == 0 && this.sortDescription == None
      ensures defaultSort
      ensures !HasSortingCondition()
    {
      itemsPerPage := DefaultItemsPage;
      currentIndex := DefaultCurrentIndex;
      totalItemsCount := 0;
      this.sortColumnName := Some(NameColumn);
      sortDirection := Descending;
      searchKey := Some("");
      relativeId := 0;
      this.sortDescription := None;
      defaultSort := true;
      this.sortColumnName := sortColumnName;
    }

    /** The number of rows before the page: CurrentIndex * ItemsPerPage,
        clamped at zero because the data source rejects negative offsets. */
    function SkipValue(): (skip: int)
      reads this
      ensures skip >= 0
      ensures currentIndex * itemsPerPage >= 0 ==> skip == currentIndex * itemsPerPage
      ensures currentIndex * itemsPerPage < 0 ==> skip == 0
    {
      var skp := currentIndex * itemsPerPage;
      if skp < 0 then 0 else skp
    }

    /** An explicit sort was requested on a named column. */
    predicate HasSortingCondition()
      reads this
    {
      !IsNullOrEmpty(sortColumnName) && !defaultSort
    }

    /** The sorting settings as the ordering step sees them. */
    function SortingView(): (s: Sorting)
      reads this
    {
      Sorting(HasSortingCondition(), sortColumnName, sortDirection, sortDescription)
    }

    /** Past the first page with more than the default page size. */
    predicate HasPagingCondition()
      reads this
    {
      currentIndex > DefaultCurrentIndex && itemsPerPage > DefaultItemsPage
    }
  }

  /** A sorting condition always names a column: the single-column branch
      of the ordering is the one that runs. */
  lemma SortingConditionNamesColumn(query: PagerQuery)
    requires query.HasSortingCondition()
    ensures query.sortColumnName.Some? && |query.sortColumnName.value| > 0
  {
  }

  /** With a paging condition, at least one full page (more than the default
      size) is skipped. */
  lemma PagingConditionSkipsAPage(query: PagerQuery)
    requires query.HasPagingCondition()
    ensures query.SkipValue() >= query.itemsPerPage > DefaultItemsPage
  {
    var ci, ipp := query.currentIndex, query.itemsPerPage;
    assert ci * ipp == (ci - 1) * ipp + ipp;
    assert (ci - 1) * ipp >= 0;
  }

  /** The result of a paging call: the page and the query object used,
      which is the caller's own object after correction. */
  datatype PagerList<T> = PagerList(list: seq<T>, pagerQuery: PagerQuery)
}

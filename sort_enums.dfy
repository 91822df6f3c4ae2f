/** The sort direction enumeration and the SortDescription record
    (Basic.Generic.Enum/Pager). */
module SortEnums {

  datatype SortDirection = Ascending | Descending

  /** One key of a composite ordering: a property name of the element type
      and the direction in which to order by it. */
  datatype SortDescription = SortDescription(propertyName: string, direction: SortDirection)
}

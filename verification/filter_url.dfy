/**
  The `filter` query parameter that makes a filtered view linkable: the
  filter-button click writes it (through history.replaceState) and
  checkUrlFilter reads it back on page load. Identical in both versions of
  the script. Only the parameter's value is modelled, not the rest of the
  URL.
 */
module FilterUrl {
  import opened Optional
  import opened Cards

  /**
    The parameter after a filter-button click: removed for `all`, set to
    the filter otherwise, whatever it held before.
   */
  function UpdatedParam(filter: string): (param: Option<string>)
    ensures param.None? <==> filter == All
    ensures param.Some? ==> param.value == filter
  {
    if filter == All then None else Some(filter)
  }

  /**
    checkUrlFilter's guard: the parameter is applied only when it is
    present and non-empty (a truthy string) and some element of the page
    carries it as its `data-filter`; `filters` lists those values.
   */
  function UrlFilter(param: Option<string>, filters: seq<string>): (applied: Option<string>)
    ensures applied.Some? <==> param.Some? && param.value != "" && param.value in filters
    ensures applied.Some? ==> applied == param
  {
    match param
    case None => None
    case Some(value) => if value != "" && value in filters then Some(value) else None
  }

  /**
    Writing the parameter for a button's filter and reading it back on the
    next load selects that filter again, except for `all`, which leaves no
    parameter and so keeps the page's default.
   */
  lemma RoundTrip(filter: string, filters: seq<string>)
    requires filter in filters && filter != ""
    ensures UrlFilter(UpdatedParam(filter), filters)
         == if filter == All then None else Some(filter)
  {
  }

  /**
    A button whose filter is the empty string does not round-trip: its
    click writes an empty parameter, which the reload treats as absent.
   */
  lemma EmptyFilterNotRestored(filters: seq<string>)
    ensures UpdatedParam("") == Some("")
    ensures UrlFilter(UpdatedParam(""), filters) == None
  {
  }
}

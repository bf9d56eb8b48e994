/**
  The state of the blog page that the filter and pagination code touches,
  shared by both versions of the script, and checkUrlFilter, which is the
  same in both.
 */
module PageState {
  import opened Optional
  import opened Cards
  import opened FilterUrl

  /**
    `button` is the load-more button's visibility, `None` when the page
    has none; `active` is the `data-filter` of the filter button carrying
    class `active`; `param` is the URL's `filter` parameter.
   */
  datatype Page = Page(cards: seq<Card>, button: Option<bool>, active: Option<string>, param: Option<string>)

  /**
    checkUrlFilter: when the URL names a filter some element carries, that
    filter's button becomes the active one and the cards are filtered by
    it; pagination is left alone, and otherwise nothing changes.
   */
  function CheckUrlFilter(page: Page, filters: seq<string>): (next: Page)
    ensures UrlFilter(page.param, filters).None? ==> next == page
    ensures UrlFilter(page.param, filters).Some? ==>
      && next.active == page.param
      && next.button == page.button
      && next.param == page.param
      && |next.cards| == |page.cards|
      && (forall i :: 0 <= i < |next.cards| ==>
            (next.cards[i].shown <==> Matches(page.param.value, page.cards[i])))
      && (forall i :: 0 <= i < |next.cards| ==> next.cards[i].hidden == page.cards[i].hidden)
  {
    match UrlFilter(page.param, filters)
    case None => page
    case Some(filter) => page.(cards := FilterPosts(filter, page.cards), active := Some(filter))
  }
}

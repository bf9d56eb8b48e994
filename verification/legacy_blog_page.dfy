/**
  The blog page's event handlers as wired up by the older script
  (blogs/script.js), where each listener is registered once.
 */
module LegacyBlogPage {
  import opened Optional
  import opened Cards
  import opened FilterUrl
  import opened PageState
  import LegacyLoadMore
  import Theme

  /**
    A click on a filter button: the cards are filtered, cards beyond the
    ninth still on screen are held back (held-back cards stay held back),
    the button becomes the active one and the URL parameter is rewritten.
   */
  function FilterClick(page: Page, filter: string): (next: Page)
    ensures |next.cards| == |page.cards|
    ensures forall i :: 0 <= i < |next.cards| ==>
      next.cards[i].category == page.cards[i].category
      && (next.cards[i].shown <==> Matches(filter, page.cards[i]))
      && (page.cards[i].hidden ==> next.cards[i].hidden)
    ensures Count(OnScreen, next.cards) <= PageSize
    ensures next.button.Some? <==> page.button.Some?
    ensures next.button.Some? ==>
      (next.button.value <==> exists i :: 0 <= i < |next.cards| && next.cards[i].shown && next.cards[i].hidden)
    ensures next.active == Some(filter)
    ensures next.param.None? <==> filter == All
    ensures next.param.Some? ==> next.param.value == filter
  {
    var filtered := FilterPosts(filter, page.cards);
    var cards := LegacyLoadMore.Reset(filtered);
    LegacyLoadMore.ResetCounts(filtered);
    Page(cards,
         if page.button.Some? then Some(AnyPending(cards)) else None,
         Some(filter),
         UpdatedParam(filter))
  }

  /**
    A click on the load-more button: the first three hidden cards are
    revealed, filter or no filter, and the button is taken away once no
    card is hidden.
   */
  function LoadMoreClick(page: Page): (next: Page)
    ensures |next.cards| == |page.cards|
    ensures Count(Hidden, next.cards) == Count(Hidden, page.cards) - Min(BatchSize, Count(Hidden, page.cards))
    ensures next.button.Some? <==> page.button.Some?
    ensures page.button.Some? && Count(Hidden, page.cards) <= BatchSize ==> next.button == Some(false)
    ensures Count(Hidden, page.cards) > BatchSize ==> next.button == page.button
    ensures next.active == page.active && next.param == page.param
  {
    LegacyLoadMore.ClickCounts(page.cards);
    page.(cards := LegacyLoadMore.Click(page.cards),
          button := LegacyLoadMore.ClickButton(page.cards, page.button))
  }

  /**
    Page load: initLoadMore only registers its listener, so only
    checkUrlFilter acts. The cards are filtered by the URL's filter when it
    applies, no card's pagination class changes, and the button keeps the
    visibility the markup gave it.
   */
  function PageLoad(page: Page, filters: seq<string>): (next: Page)
    ensures |next.cards| == |page.cards|
    ensures forall i :: 0 <= i < |next.cards| ==>
      next.cards[i].category == page.cards[i].category
      && next.cards[i].hidden == page.cards[i].hidden
      && (next.cards[i].shown <==>
            match UrlFilter(page.param, filters)
            case None => page.cards[i].shown
            case Some(filter) => Matches(filter, page.cards[i]))
    ensures next.button == page.button
    ensures next.param == page.param
  {
    CheckUrlFilter(page, filters)
  }

  /** A click on the theme toggle: its single listener flips the theme. */
  function ThemeClick(theme: string): (next: string)
    ensures next != theme
    ensures theme == Theme.Dark || theme == Theme.Light ==> Theme.Toggle(next) == theme
  {
    Theme.ToggleTwice(theme);
    Theme.Toggle(theme)
  }

  /**
    The click reveals cards the filter excludes: with three excluded hidden
    cards ahead of an allowed one, the click puts nothing on screen and the
    allowed card stays held back.
   */
  lemma ClickRevealsExcludedCards()
    ensures var excluded := Card("reviews", false, true);
      var allowed := Card("news", true, true);
      var cards := [excluded, excluded, excluded, allowed];
      && Count(Pending, cards) == 1
      && Count(OnScreen, LoadMoreClick(Page(cards, Some(true), Some("news"), Some("news"))).cards) == 0
  {
    var excluded := Card("reviews", false, true);
    var allowed := Card("news", true, true);
    var cards := [excluded, excluded, excluded, allowed];
    var after := LegacyLoadMore.Click(cards);
    assert cards[..3] == [excluded, excluded, excluded];
    CountEvery(Hidden, cards[..3]);
    assert after == [excluded.(hidden := false), excluded.(hidden := false), excluded.(hidden := false), allowed];
    assert cards == cards[..3] + [allowed];
    CountNone(Pending, cards[..3]);
    CountAppend(Pending, cards[..3], [allowed]);
    CountNone(OnScreen, after);
  }

  /**
    A card held back under one filter stays held back under the next, even
    when it is the only card that filter allows. Ten on-screen cards under
    `all`, nine `reviews` cards and then a `news` card: the `all` click
    holds the tenth back, and a `news` click then leaves nothing on screen.
   */
  lemma FilterStrandsHeldBackCard(served: seq<Card>)
    requires |served| == 10
    requires forall i :: 0 <= i < 9 ==> served[i] == Card("reviews", true, false)
    requires served[9] == Card("news", true, false)
    ensures var after := FilterClick(FilterClick(Page(served, Some(false), Some(All), None), All), "news");
      && Count(Shown, after.cards) == 1
      && Count(OnScreen, after.cards) == 0
  {
    var first := FilterClick(Page(served, Some(false), Some(All), None), All);
    TenthHeldBack(served);
    assert forall i :: 0 <= i < 9 ==> first.cards[i].category == "reviews";
    NewsFilterStrands(first);
  }

  /** Under `all`, the old reset holds back the tenth of ten on-screen cards. */
  lemma TenthHeldBack(served: seq<Card>)
    requires |served| == 10
    requires forall i :: 0 <= i < 10 ==> served[i].shown && !served[i].hidden
    ensures FilterClick(Page(served, Some(false), Some(All), None), All).cards[9].hidden
  {
    var filtered := FilterPosts(All, served);
    assert filtered[..9] == served[..9];
    CountEvery(OnScreen, served[..9]);
  }

  /**
    When the only `news` card is the last of ten and it is hidden, a `news`
    click shows one card and puts none on screen.
   */
  lemma NewsFilterStrands(page: Page)
    requires |page.cards| == 10
    requires forall i :: 0 <= i < 9 ==> page.cards[i].category == "reviews"
    requires page.cards[9].category == "news" && page.cards[9].hidden
    ensures var after := FilterClick(page, "news").cards;
      && Count(Shown, after) == 1
      && Count(OnScreen, after) == 0
  {
    var after := FilterClick(page, "news").cards;
    assert after == after[..9] + [after[9]];
    CountNone(Shown, after[..9]);
    CountAppend(Shown, after[..9], [after[9]]);
    CountNone(OnScreen, after);
  }
}

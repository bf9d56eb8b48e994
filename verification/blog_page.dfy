/**
  The blog page's event handlers as wired up by the newer script (script.js).

  That script registers its DOMContentLoaded listener twice (once at the top
  of the file and once further down), and both copies call initThemeToggle,
  initBlogFilters and initLoadMore. Every filter button, the load-more button
  and the theme toggle therefore carry two identical click listeners, and a
  click runs the listener twice. The `...Listener` functions are one run;
  the `...Click` functions are what a click does as written.
 */
module BlogPage {
  import opened Optional
  import opened Cards
  import opened FilterUrl
  import opened PageState
  import LoadMore
  import Theme

  /**
    One run of a filter button's click listener: the cards are filtered,
    pagination starts over at the first page, the button becomes the active
    one and the URL parameter is rewritten.
   */
  function FilterListener(page: Page, filter: string): (next: Page)
    ensures |next.cards| == |page.cards|
    ensures forall i :: 0 <= i < |next.cards| ==>
      next.cards[i].category == page.cards[i].category
      && (next.cards[i].shown <==> Matches(filter, page.cards[i]))
    ensures Count(OnScreen, next.cards) == Min(PageSize, Count(Shown, next.cards))
    ensures next.button.Some? <==> page.button.Some?
    ensures next.button.Some? ==> (next.button.value <==> Count(Shown, next.cards) > PageSize)
    ensures next.active == Some(filter)
    ensures next.param.None? <==> filter == All
    ensures next.param.Some? ==> next.param.value == filter
  {
    var filtered := FilterPosts(filter, page.cards);
    var cards := LoadMore.Reset(filtered);
    LoadMore.ResetCounts(filtered);
    LoadMore.ResetButton(filtered);
    SameShownSameCount(cards, filtered);
    Page(cards,
         if page.button.Some? then Some(AnyPending(cards)) else None,
         Some(filter),
         UpdatedParam(filter))
  }

  /** A click on a filter button: its two listeners run one after the other. */
  function FilterClick(page: Page, filter: string): Page {
    FilterListener(FilterListener(page, filter), filter)
  }

  /** Cards whose display flags already agree with the filter are left as they are by it. */
  lemma {:induction false} FilterFixed(filter: string, cards: seq<Card>)
    requires forall i :: 0 <= i < |cards| ==> (cards[i].shown <==> Matches(filter, cards[i]))
    ensures FilterPosts(filter, cards) == cards
  {
    var r := FilterPosts(filter, cards);
    assert forall i :: 0 <= i < |r| ==> r[i] == cards[i];
  }

  /**
    The listener is idempotent, so the doubled registration is harmless for
    filter buttons: a click does what one run of the listener does, and
    clicking the same filter again changes nothing.
   */
  lemma FilterClickIsOneListener(page: Page, filter: string)
    ensures FilterClick(page, filter) == FilterListener(page, filter)
    ensures FilterListener(FilterListener(page, filter), filter) == FilterListener(page, filter)
  {
    var once := FilterListener(page, filter);
    FilterFixed(filter, once.cards);
    LoadMore.ResetIdempotent(FilterPosts(filter, page.cards));
  }

  /**
    When no more than nine cards pass the filter, they are all on screen
    after the click, the button is gone, and load-more has nothing to do.
   */
  lemma FirstPageHoldsAll(page: Page, filter: string)
    requires Count(Shown, FilterPosts(filter, page.cards)) <= PageSize
    ensures var next := FilterListener(page, filter);
      && Count(Pending, next.cards) == 0
      && Count(OnScreen, next.cards) == Count(Shown, next.cards)
      && (next.button.Some? ==> next.button == Some(false))
      && LoadMoreListener(next).cards == next.cards
  {
    var filtered := FilterPosts(filter, page.cards);
    var next := FilterListener(page, filter);
    LoadMore.ResetCounts(filtered);
    ShownSplits(next.cards);
    CountPositive(Pending, next.cards);
    LoadMore.ClickExhausted(next.cards);
  }

  /**
    One run of the load-more click listener, once its 500 ms timer has
    fired: the next three held-back cards the filter allows are revealed
    and the button stays only while more are held back.
   */
  function LoadMoreListener(page: Page): (next: Page)
    ensures |next.cards| == |page.cards|
    ensures Count(Pending, next.cards)
         == Count(Pending, page.cards) - Min(BatchSize, Count(Pending, page.cards))
    ensures Count(OnScreen, next.cards)
         == Count(OnScreen, page.cards) + Min(BatchSize, Count(Pending, page.cards))
    ensures next.button.Some? <==> page.button.Some?
    ensures next.button.Some? ==> (next.button.value <==> Count(Pending, page.cards) > BatchSize)
    ensures next.active == page.active && next.param == page.param
  {
    var cards := LoadMore.Click(page.cards);
    LoadMore.ClickCounts(page.cards);
    LoadMore.ClickButton(page.cards);
    page.(cards := cards,
          button := if page.button.Some? then Some(AnyPending(cards)) else None)
  }

  /** A click on the load-more button as written: both of its listeners run. */
  function LoadMoreClick(page: Page): Page {
    LoadMoreListener(LoadMoreListener(page))
  }

  /**
    As written, one click on load-more reveals up to six cards instead of
    three: `min(6, r)` of the `r` held-back cards the filter allows.
   */
  lemma LoadMoreClickRevealsSix(page: Page)
    ensures Count(Pending, LoadMoreClick(page).cards)
         == Count(Pending, page.cards) - Min(2 * BatchSize, Count(Pending, page.cards))
  {
  }

  /** Concretely: with six cards held back, one click as written leaves none. */
  lemma LoadMoreClickSixCards()
    ensures var held := Card("news", true, true);
      Count(Pending, LoadMoreClick(Page([held, held, held, held, held, held], Some(true), None, None)).cards) == 0
  {
    var held := Card("news", true, true);
    var cards := [held, held, held, held, held, held];
    CountEvery(Pending, cards);
    LoadMoreClickRevealsSix(Page(cards, Some(true), None, None));
  }

  /** `n` clicks on the load-more button as written. */
  function LoadMoreClicks(n: nat, page: Page): Page {
    if n == 0 then page else LoadMoreClicks(n - 1, LoadMoreClick(page))
  }

  /** `n` clicks as written are `2n` runs of one listener. */
  lemma {:induction false} LoadMoreClicksAreRuns(n: nat, page: Page)
    ensures LoadMoreClicks(n, page).cards == LoadMore.Clicks(2 * n, page.cards)
  {
    if n > 0 {
      var next := LoadMoreClick(page);
      assert next.cards == LoadMore.Click(LoadMore.Click(page.cards));
      LoadMoreClicksAreRuns(n - 1, next);
      assert LoadMore.Clicks(2 * n, page.cards)
          == LoadMore.Clicks(2 * (n - 1), LoadMore.Click(LoadMore.Click(page.cards)));
    }
  }

  /** As written, `n` clicks leave `max(0, r - 6n)` of the `r` held-back cards. */
  lemma LoadMoreClicksDrain(n: nat, page: Page)
    ensures Count(Pending, LoadMoreClicks(n, page).cards)
         == if Count(Pending, page.cards) <= 2 * BatchSize * n then 0
            else Count(Pending, page.cards) - 2 * BatchSize * n
  {
    LoadMoreClicksAreRuns(n, page);
    LoadMore.ClicksDrain(2 * n, page.cards);
    assert BatchSize * (2 * n) == 2 * BatchSize * n;
  }

  /** A click on the theme toggle as written: both listeners flip the theme. */
  function ThemeClick(theme: string): string {
    Theme.Toggle(Theme.Toggle(theme))
  }

  /** As written, a click on the theme toggle never changes a `dark` or `light` page. */
  lemma ThemeClickIsNoOp(theme: string)
    requires theme == Theme.Dark || theme == Theme.Light
    ensures ThemeClick(theme) == theme
  {
    Theme.ToggleTwice(theme);
  }

  /**
    The blog part of one DOMContentLoaded listener: initLoadMore sets the
    button's initial visibility, then checkUrlFilter applies the URL's filter.
   */
  function Boot(page: Page, filters: seq<string>): Page {
    var withButton :=
      page.(button := if page.button.Some? then Some(AnyPending(page.cards)) else None);
    CheckUrlFilter(withButton, filters)
  }

  /**
    Page load as written: the listener runs twice. The second initLoadMore
    sees the cards the first checkUrlFilter filtered, so the button ends up
    displayed exactly when a held-back card passes the URL's filter. The
    cards are filtered by the URL's filter when it applies, that filter's
    button becomes active, and a card's pagination class is never touched.
   */
  function PageLoad(page: Page, filters: seq<string>): (next: Page)
    ensures |next.cards| == |page.cards|
    ensures forall i :: 0 <= i < |next.cards| ==>
      next.cards[i].category == page.cards[i].category
      && next.cards[i].hidden == page.cards[i].hidden
    ensures next.button.Some? <==> page.button.Some?
    ensures next.button.Some? ==>
      (next.button.value <==> exists i :: 0 <= i < |next.cards| && next.cards[i].shown && next.cards[i].hidden)
    ensures forall i :: 0 <= i < |next.cards| ==>
      (next.cards[i].shown <==>
         match UrlFilter(page.param, filters)
         case None => page.cards[i].shown
         case Some(filter) => Matches(filter, page.cards[i]))
    ensures UrlFilter(page.param, filters).Some? ==> next.active == page.param
    ensures next.param == page.param
  {
    var first := Boot(page, filters);
    match UrlFilter(page.param, filters)
    case None => Boot(first, filters)
    case Some(filter) =>
      FilterIdempotent(filter, page.cards);
      Boot(first, filters)
  }

  /**
    Reloading the page with the parameter a filter click left behind shows
    the same cards as the click did (for `all` there is no parameter, and
    the cards are left as the page was served).
   */
  lemma ReloadShowsSameCards(page: Page, filter: string, filters: seq<string>, served: seq<Card>)
    requires filter in filters && filter != ""
    requires |served| == |page.cards|
    requires forall i :: 0 <= i < |served| ==> served[i].category == page.cards[i].category
    ensures var clicked := FilterClick(page, filter);
      var reloaded := PageLoad(Page(served, page.button, None, clicked.param), filters);
      && (filter != All ==>
            forall i :: 0 <= i < |served| ==> reloaded.cards[i].shown == clicked.cards[i].shown)
      && (filter == All ==> reloaded.cards == served)
  {
    FilterClickIsOneListener(page, filter);
    RoundTrip(filter, filters);
  }
}

# Blog post filter and "load more" pagination

A model of the blog page of the Hardware Decoded site: the category filter
buttons, the "load more" button that pages through the post cards, the
`filter` URL parameter that makes a filtered view linkable, and the theme
toggle. The repository holds two successive versions of the page script,
`blogs/script.js` (older) and `script.js` (newer), and they behave
differently, so both are modelled.

Each `.post-card` element is a `Card` record holding its `data-category`, whether
its inline display is not `none` (`shown`, written by the filter) and whether
it has class `hidden` (`hidden`, written by pagination). The page is the
sequence of cards in document order, plus the load-more button's visibility,
the active filter button and the URL parameter (`PageState.Page`). Every
handler is a pure function on that state. "The first N cards in document
order" is stated per card: a card is among them exactly when fewer than N
cards of the same kind come before it (`Count(p, cards[..i]) < N`).

Modules:

- `Cards` (`cards.dfy`): the card record, `filterPosts` (the same in both
  versions), the counting function, the load-more button's condition
  (`AnyPending`), and `RevealFirst`, the reveal step that both load-more
  listeners share.
- `LoadMore` (`load_more.dfy`): the newer `resetLoadMore` and load-more
  listener.
- `LegacyLoadMore` (`legacy_load_more.dfy`): the older `resetLoadMore` and
  load-more listener.
- `FilterUrl` (`filter_url.dfy`): writing the `filter` parameter and
  `checkUrlFilter`'s guard. `PageState` (`page_state.dfy`): the page record
  and `checkUrlFilter`.
- `Theme` (`theme.dfy`): the theme toggle.
- `BlogPage` (`blog_page.dfy`) and `LegacyBlogPage` (`legacy_blog_page.dfy`):
  what a click or a page load does, for each version.

The newer script adds its `DOMContentLoaded` listener twice, at script.js:4
and again at script.js:301. Both copies call `initThemeToggle`,
`initBlogFilters` and `initLoadMore`, so every button carries two identical
click listeners. `BlogPage` models one run of a listener (`...Listener`) and
what a click does as written (`...Click`, the listener run twice). For filter
buttons this changes nothing, because the listener is idempotent. For
load-more and the theme toggle it does; see Findings. Page load also runs
twice. That second run is why the newer page's initial button visibility
ends up right after a URL filter: the second `initLoadMore` runs after the
first `checkUrlFilter` has filtered the cards.

On page load the URL filter only runs `filterPosts`; pagination is not
reset. No card's `hidden` class changes on load. Cards the URL filter
excludes leave the screen, and matching cards keep the pagination state the
markup gave them.

Only the newer script leaves `min(9, m)` matching cards on screen after a
filter change. The older one only adds `hidden`, so it can leave fewer.

## Model

| member | source | states |
|---|---|---|
| Cards.FilterPosts | script.js:135-145 | a card is shown after filtering iff the filter is `all` or equals its category; category and pagination class are unchanged |
| Cards.FilterIdempotent | script.js:135-145 | filtering twice by the same value is the same as filtering once |
| Cards.FilterAllShowsEverything | script.js:139-140 | the `all` filter shows every card, so the shown count is the number of cards |
| Cards.FilterCount | blogs/script.js:138-144 | the number of cards shown after filtering equals the number of cards matching the filter |
| Cards.AnyPending | script.js:197-199 | the button's condition: true iff some card is both hidden and filter-shown; the older script computes the same condition at blogs/script.js:221 |
| Cards.RevealFirst | script.js:202-203 | the first `budget` cards of the selected kind, in document order, lose `hidden`, and every other card is unchanged |
| Cards.RevealFirstCount | script.js:202-203 | if revealing a card takes it out of the selected kind, `n - min(budget, n)` selected cards remain |
| Cards.RevealFirstHiddenCount | blogs/script.js:175-178 | if only hidden cards are selected, exactly `min(budget, n)` cards lose `hidden` |
| Cards.RevealKeepsShown | script.js:181-182 | revealing never changes any card's display flag, so the number of filter-shown cards is unchanged |
| Cards.RevealNothing | script.js:177-179 | with no card of the selected kind, the reveal changes nothing |
| LoadMore.ResetFrom | script.js:240-246 | walking the filter-shown cards with index `idx`: a shown card is hidden iff its index among shown cards is at least 9; cards the filter excludes keep their class |
| LoadMore.Reset | script.js:232-246 | the first nine filter-shown cards lose `hidden`, later shown cards gain it, and cards the filter excludes keep their class |
| LoadMore.ResetCounts | script.js:237-246 | after the reset exactly `min(9, m)` cards are on screen and `m - min(9, m)` are held back, where `m` is the number of filter-shown cards |
| LoadMore.ResetButton | script.js:248-252 | after the reset the button is visible iff more than nine cards pass the filter |
| LoadMore.ResetIdempotent | script.js:232-253 | resetting twice is the same as resetting once |
| LoadMore.Click | script.js:201-203 | the first three cards that are hidden and filter-shown lose `hidden`, and every other card is unchanged |
| LoadMore.ClickCounts | script.js:201-203 | one click clears `hidden` on exactly `min(3, r)` cards; the held-back count drops by that much and the on-screen count rises by that much |
| LoadMore.ClickButton | script.js:197-199 | after the click settles, the button is visible iff more than three held-back filter-shown cards existed before it |
| LoadMore.ClickExhausted | script.js:177-179 | with the button's condition false, a click is a no-op |
| LoadMore.ClicksDrain | script.js:201-203 | after `n` runs of one load-more listener, `max(0, r - 3n)` held-back cards remain |
| LegacyLoadMore.ResetFrom | blogs/script.js:209-217 | walking the cards not yet hidden: an on-screen card with nine or more on-screen cards before it gains `hidden`; no other card changes |
| LegacyLoadMore.Reset | blogs/script.js:204-217 | every on-screen card after the ninth in document order gains `hidden`; nothing else changes |
| LegacyLoadMore.ResetMonotone | blogs/script.js:205-217 | the old reset never removes `hidden` |
| LegacyLoadMore.ResetOnlyHidesShown | blogs/script.js:211-215 | cards the filter excludes are left unchanged |
| LegacyLoadMore.ResetCounts | blogs/script.js:209-216 | after the old reset, exactly `min(9, k)` cards are on screen, and so at most nine, where `k` is the number on screen before |
| LegacyLoadMore.Click | blogs/script.js:174-178 | the first three hidden cards lose `hidden`, whatever the filter says, and every other card is unchanged |
| LegacyLoadMore.ClickButton | blogs/script.js:186-189 | the button is hidden when no hidden card remains, and is otherwise left as it was |
| LegacyLoadMore.ClickCounts | blogs/script.js:174-178 | the old click clears `hidden` on exactly `min(3, h)` cards, where `h` counts hidden cards regardless of the filter |
| LegacyLoadMore.ClickHidesButton | blogs/script.js:186-189 | a visible button is taken away iff at most three hidden cards remained |
| FilterUrl.UpdatedParam | script.js:123-128 | the parameter is removed for `all` and set to the filter value otherwise |
| FilterUrl.UrlFilter | script.js:149-154 | a URL filter is applied iff the parameter is present, non-empty and carried by some element's `data-filter` |
| FilterUrl.RoundTrip | blogs/script.js:123-154 | a parameter written for a button's non-empty filter is read back as that filter, except `all`, which leaves none |
| FilterUrl.EmptyFilterNotRestored | script.js:123-152 | a button whose filter is the empty string writes an empty parameter, which the next load ignores |
| PageState.CheckUrlFilter | script.js:148-167 | with no applicable parameter nothing changes; otherwise that filter's button becomes active and the cards are filtered by it, with pagination untouched |
| Theme.Toggle | blogs/script.js:36-37 | the result is always `dark` or `light` and always differs from the current theme; it is `light` iff the current theme is `dark` |
| Theme.ToggleTwice | blogs/script.js:36-37 | toggling twice restores `dark` and `light`; any other value ends at `light` |
| BlogPage.FilterListener | script.js:109-130 | a card is shown iff it matches; `min(9, m)` cards are on screen; the button is visible iff more than nine match; the clicked filter becomes active; the parameter is rewritten |
| BlogPage.FilterClickIsOneListener | script.js:301-315 | running the filter listener twice, as the doubled registration does, is the same as running it once |
| BlogPage.FirstPageHoldsAll | script.js:240-252 | when at most nine cards match, all are on screen, the button is hidden and load-more does nothing |
| BlogPage.LoadMoreListener | script.js:201-222 | one listener run reveals `min(3, r)` held-back cards and leaves the button visible iff more than three were held back |
| BlogPage.LoadMoreClickRevealsSix | script.js:301-315 | as written, one click on load-more reveals `min(6, r)` cards |
| BlogPage.LoadMoreClicksAreRuns | script.js:301-315 | as written, `n` clicks on load-more run the listener `2n` times |
| BlogPage.LoadMoreClicksDrain | script.js:301-315 | as written, `n` clicks on load-more leave `max(0, r - 6n)` held-back cards |
| BlogPage.LoadMoreClickSixCards | script.js:301-315 | as written, one click on a page with six held-back cards leaves none held back |
| BlogPage.ThemeClickIsNoOp | script.js:301-306 | as written, a theme-toggle click leaves a `dark` or `light` page unchanged |
| BlogPage.PageLoad | script.js:301-316 | after page load each card is shown iff it matches the URL's filter when that filter applies (otherwise its display is kept), that filter's button is active, the parameter is kept, pagination classes are untouched, and the button is visible iff some filter-shown card is hidden |
| BlogPage.ReloadShowsSameCards | script.js:123-164 | for a filter other than `all`, reloading with the parameter the click left shows the same cards as the click; for `all` the cards stay as served |
| LegacyBlogPage.FilterClick | blogs/script.js:109-130 | a card is shown iff it matches; previously hidden cards stay hidden; at most nine are on screen; the button is visible iff a held-back card matches; the parameter is rewritten |
| LegacyBlogPage.LoadMoreClick | blogs/script.js:173-199 | `min(3, h)` hidden cards are revealed; the button goes away when at most three were hidden and is otherwise unchanged |
| LegacyBlogPage.PageLoad | blogs/script.js:12-16 | on load the cards are filtered by the URL's filter when it applies, and otherwise keep their display; no pagination class changes; the button keeps its markup visibility |
| LegacyBlogPage.ThemeClick | blogs/script.js:35-42 | a click always changes the theme, and a second click restores `dark` or `light` |
| LegacyBlogPage.ClickRevealsExcludedCards | blogs/script.js:174-178 | three filtered-out hidden cards ahead of one matching held-back card: the click puts nothing on screen |
| LegacyBlogPage.FilterStrandsHeldBackCard | blogs/script.js:205-217 | ten on-screen cards under `all` whose tenth is the only `news` card: after the `all` click and then a `news` click, one card matches and none is on screen |
| LegacyBlogPage.TenthHeldBack | blogs/script.js:209-216 | under `all`, the old reset holds back the tenth of ten on-screen cards |
| LegacyBlogPage.NewsFilterStrands | blogs/script.js:205-217 | when the only matching card is already hidden, the old filter click shows one card and puts none on screen |

## Left out

- DOM queries, CSS selectors, class and style strings: a card is reduced to its category, display flag and `hidden` class.
- Timers and animation: the 500 ms loading state, the reveal fade and slide, `fadeIn`, the button's label and `disabled`/`aria-busy` flags. Only the settled state is modelled.
- BlogPage.LoadMoreListener: states the button after the 500 ms timer has fired. Until then the button keeps its earlier visibility, and that intermediate state is not modelled.
- `history.replaceState`, `window.location` and the rest of the URL: only the value of the `filter` parameter is modelled.
- FilterUrl.UrlFilter: compares the parameter with the `data-filter` values as plain strings. The source puts the value into a CSS attribute selector, and `querySelector` throws for values that break the selector, such as an unbalanced quote. That exception is not modelled.
- LegacyBlogPage.FilterClick: reads the selector `.hidden[style*="block"], .hidden:not([style*="none"])` as "hidden and not filtered out". This assumes a card's inline style holds nothing but the display, opacity and transform values the scripts write.
- Elements without a `data-filter` or `data-category` attribute (a `null` value): every button and card is assumed to carry its attribute.
- The theme's initial value from `localStorage` or `matchMedia`, the saved preference, and the icon markup.
- Smooth scrolling, back to top, the navbar collapse and shrink, the footer year, the newsletter forms and the "latest news" link: browser I/O with no state to model.

## Findings

| source | as written | input that shows it | evidently intended | confidence | as-written member | corrected member |
|---|---|---|---|---|---|---|
| script.js:301-315 | the `DOMContentLoaded` listener is added a second time, so load-more has two click listeners and one click reveals up to six cards | six held-back cards that pass the filter: a single click reveals all six | three cards per click (`slice(0, 3)`) | high; not executed | BlogPage.LoadMoreClickSixCards | BlogPage.LoadMoreListener |
| script.js:301-306 | the same doubled registration gives the theme toggle two listeners, and each click flips the theme twice | `data-theme="dark"`: after a click the page is still dark | one click switches the theme | high; not executed | BlogPage.ThemeClickIsNoOp | LegacyBlogPage.ThemeClick |
| blogs/script.js:174-178 | load-more reveals the first three `.hidden` cards even when the filter hides them | three hidden `reviews` cards ahead of one held-back `news` card, with filter `news`: the click puts nothing on screen | reveal the next cards the filter allows, as script.js:177-179 later does | high; not executed | LegacyBlogPage.ClickRevealsExcludedCards | LoadMore.ClickCounts |
| blogs/script.js:205-217 | `resetLoadMore` never removes `hidden`, so cards held back under one filter stay held back under the next | ten cards under `all` whose only `news` card is the tenth, so the `all` click holds it back; then filter `news`: one card matches and none is on screen | the first `min(9, m)` matching cards on screen, as script.js:237-246 later does | high; not executed | LegacyBlogPage.FilterStrandsHeldBackCard | LoadMore.ResetCounts |

/**
  Pagination of the blog page as done by the older script (blogs/script.js):
  resetLoadMore only ever adds class `hidden`, and the load-more listener
  reveals the next hidden cards whether or not the filter allows them.
 */
module LegacyLoadMore {
  import opened Cards
  import opened Optional

  /**
    resetLoadMore's walk over the cards that are not yet hidden, `seen`
    being how many on-screen cards came before `cards`: an on-screen card
    with nine or more on-screen cards before it gains class `hidden`; no
    other card changes.
   */
  function ResetFrom(seen: nat, cards: seq<Card>): (r: seq<Card>)
    ensures |r| == |cards|
    ensures forall i :: 0 <= i < |r| ==>
      r[i] == if cards[i].shown && !cards[i].hidden && seen + Count(OnScreen, cards[..i]) >= PageSize
              then cards[i].(hidden := true)
              else cards[i]
    decreases |cards|
  {
    if |cards| == 0 then []
    else
      CountPrefixes(OnScreen, cards);
      if OnScreen(cards[0]) then
        var visibleCount := seen + 1;
        [if visibleCount > PageSize then cards[0].(hidden := true) else cards[0]]
          + ResetFrom(visibleCount, cards[1..])
      else [cards[0]] + ResetFrom(seen, cards[1..])
  }

  /**
    resetLoadMore: among the cards the filter shows and pagination has not
    hidden, every one after the ninth in document order gains class
    `hidden`; no other card changes.
   */
  function Reset(cards: seq<Card>): (r: seq<Card>)
    ensures |r| == |cards|
    ensures forall i :: 0 <= i < |r| ==>
      r[i] == if cards[i].shown && !cards[i].hidden && Count(OnScreen, cards[..i]) >= PageSize
              then cards[i].(hidden := true)
              else cards[i]
  {
    ResetFrom(0, cards)
  }

  /**
    The load-more click: the first three cards carrying class `hidden`, in
    document order, lose it, whatever the filter says about them.
   */
  function Click(cards: seq<Card>): (r: seq<Card>)
    ensures |r| == |cards|
    ensures forall i :: 0 <= i < |r| ==>
      r[i] == if cards[i].hidden && Count(Hidden, cards[..i]) < BatchSize
              then cards[i].(hidden := false)
              else cards[i]
  {
    RevealFirst(Hidden, BatchSize, cards)
  }

  /**
    The button after the click: hidden when no card carries class `hidden`
    any more, otherwise left as it was (`None` when the page has no button).
   */
  function ClickButton(cards: seq<Card>, button: Option<bool>): (after: Option<bool>)
    ensures button.None? ==> after.None?
    ensures button.Some? && Count(Hidden, Click(cards)) == 0 ==> after == Some(false)
    ensures Count(Hidden, Click(cards)) > 0 ==> after == button
  {
    if button.Some? && Count(Hidden, Click(cards)) == 0 then Some(false) else button
  }

  // ---------------------------------------------------------------------
  // Properties of the reset
  // ---------------------------------------------------------------------

  /** The reset never takes class `hidden` away. */
  lemma ResetMonotone(cards: seq<Card>)
    ensures forall i :: 0 <= i < |cards| && cards[i].hidden ==> Reset(cards)[i].hidden
  {
  }

  /** Only cards the filter shows can newly gain class `hidden`. */
  lemma ResetOnlyHidesShown(cards: seq<Card>)
    ensures forall i :: 0 <= i < |cards| && !cards[i].shown ==> Reset(cards)[i] == cards[i]
  {
  }

  lemma {:induction false} ResetFromCounts(seen: nat, cards: seq<Card>)
    ensures Count(OnScreen, ResetFrom(seen, cards))
         == if seen >= PageSize then 0 else Min(PageSize - seen, Count(OnScreen, cards))
    decreases |cards|
  {
    if |cards| > 0 {
      var c := cards[0];
      if OnScreen(c) {
        var c' := if seen + 1 > PageSize then c.(hidden := true) else c;
        var rest := ResetFrom(seen + 1, cards[1..]);
        assert ResetFrom(seen, cards) == [c'] + rest;
        ResetFromCounts(seen + 1, cards[1..]);
        CountCons(OnScreen, c', rest);
      } else {
        var rest := ResetFrom(seen, cards[1..]);
        assert ResetFrom(seen, cards) == [c] + rest;
        ResetFromCounts(seen, cards[1..]);
        CountCons(OnScreen, c, rest);
      }
    }
  }

  /**
    After the reset at most nine cards are on screen: exactly `min(9, k)`,
    `k` being the number on screen before.
   */
  lemma ResetCounts(cards: seq<Card>)
    ensures Count(OnScreen, Reset(cards)) == Min(PageSize, Count(OnScreen, cards))
    ensures Count(OnScreen, Reset(cards)) <= PageSize
  {
    ResetFromCounts(0, cards);
  }

  // ---------------------------------------------------------------------
  // Properties of the click
  // ---------------------------------------------------------------------

  /**
    The click clears class `hidden` on exactly `min(3, h)` cards, `h` being
    the number of hidden cards, filter or no filter.
   */
  lemma ClickCounts(cards: seq<Card>)
    ensures Count(Hidden, Click(cards)) == Count(Hidden, cards) - Min(BatchSize, Count(Hidden, cards))
  {
    RevealFirstCount(Hidden, BatchSize, cards);
  }

  /** The button is taken away by a click exactly when at most three hidden cards were left. */
  lemma ClickHidesButton(cards: seq<Card>)
    ensures ClickButton(cards, Some(true)) == Some(false) <==> Count(Hidden, cards) <= BatchSize
  {
    ClickCounts(cards);
  }
}

/**
  Pagination of the blog page as done by the newer script (script.js):
  resetLoadMore recomputes the first page from scratch after every filter
  change, and the load-more listener reveals the next few cards the filter
  allows.
 */
module LoadMore {
  import opened Cards

  /**
    resetLoadMore's walk over the filter-shown cards, `idx` being the
    position among them of the first card in `cards`: the shown cards at
    positions below the page size lose class `hidden`, the later ones gain
    it, and cards the filter excludes are not touched.
   */
  function ResetFrom(idx: nat, cards: seq<Card>): (r: seq<Card>)
    ensures |r| == |cards|
    ensures forall i :: 0 <= i < |r| ==>
      r[i].category == cards[i].category && r[i].shown == cards[i].shown
    ensures forall i :: 0 <= i < |r| && !cards[i].shown ==> r[i].hidden == cards[i].hidden
    ensures forall i :: 0 <= i < |r| && cards[i].shown ==>
      (r[i].hidden <==> idx + Count(Shown, cards[..i]) >= PageSize)
    decreases |cards|
  {
    if |cards| == 0 then []
    else
      CountPrefixes(Shown, cards);
      if cards[0].shown
      then [cards[0].(hidden := idx >= PageSize)] + ResetFrom(idx + 1, cards[1..])
      else [cards[0]] + ResetFrom(idx, cards[1..])
  }

  /**
    resetLoadMore: the first nine filter-shown cards in document order are
    on screen, every later filter-shown card is held back, and a card the
    filter excludes keeps its pagination class.
   */
  function Reset(cards: seq<Card>): (r: seq<Card>)
    ensures |r| == |cards|
    ensures forall i :: 0 <= i < |r| ==>
      r[i].category == cards[i].category && r[i].shown == cards[i].shown
    ensures forall i :: 0 <= i < |r| && !cards[i].shown ==> r[i].hidden == cards[i].hidden
    ensures forall i :: 0 <= i < |r| && cards[i].shown ==>
      (r[i].hidden <==> Count(Shown, cards[..i]) >= PageSize)
  {
    ResetFrom(0, cards)
  }

  /**
    One run of the load-more click listener: the first three cards that
    are hidden and allowed by the filter lose class `hidden`, in document
    order; no other card changes.
   */
  function Click(cards: seq<Card>): (r: seq<Card>)
    ensures |r| == |cards|
    ensures forall i :: 0 <= i < |r| ==>
      r[i] == if cards[i].shown && cards[i].hidden && Count(Pending, cards[..i]) < BatchSize
              then cards[i].(hidden := false)
              else cards[i]
  {
    RevealFirst(Pending, BatchSize, cards)
  }

  // ---------------------------------------------------------------------
  // Properties of the reset
  // ---------------------------------------------------------------------

  lemma {:induction false} ResetFromCounts(idx: nat, cards: seq<Card>)
    ensures Count(OnScreen, ResetFrom(idx, cards))
         == if idx >= PageSize then 0 else Min(PageSize - idx, Count(Shown, cards))
    decreases |cards|
  {
    if |cards| > 0 {
      var c := cards[0];
      if c.shown {
        var rest := ResetFrom(idx + 1, cards[1..]);
        assert ResetFrom(idx, cards) == [c.(hidden := idx >= PageSize)] + rest;
        ResetFromCounts(idx + 1, cards[1..]);
        CountCons(OnScreen, c.(hidden := idx >= PageSize), rest);
      } else {
        var rest := ResetFrom(idx, cards[1..]);
        assert ResetFrom(idx, cards) == [c] + rest;
        ResetFromCounts(idx, cards[1..]);
        CountCons(OnScreen, c, rest);
      }
    }
  }

  /**
    After the reset exactly `min(9, m)` cards are on screen and `m - min(9, m)`
    are held back, `m` being the number of filter-shown cards.
   */
  lemma ResetCounts(cards: seq<Card>)
    ensures Count(OnScreen, Reset(cards)) == Min(PageSize, Count(Shown, cards))
    ensures Count(Pending, Reset(cards)) == Count(Shown, cards) - Min(PageSize, Count(Shown, cards))
  {
    var r := Reset(cards);
    ResetFromCounts(0, cards);
    ShownSplits(r);
    SameShownSameCount(r, cards);
  }

  /** After the reset the button is displayed exactly when more than nine cards pass the filter. */
  lemma ResetButton(cards: seq<Card>)
    ensures AnyPending(Reset(cards)) <==> Count(Shown, cards) > PageSize
  {
    ResetCounts(cards);
  }

  /** Resetting twice is resetting once: pagination progress is simply discarded. */
  lemma {:induction false} ResetFromIdempotent(idx: nat, cards: seq<Card>)
    ensures ResetFrom(idx, ResetFrom(idx, cards)) == ResetFrom(idx, cards)
    decreases |cards|
  {
    if |cards| > 0 {
      var c := cards[0];
      if c.shown {
        var rest := ResetFrom(idx + 1, cards[1..]);
        assert ResetFrom(idx, cards) == [c.(hidden := idx >= PageSize)] + rest;
        assert ([c.(hidden := idx >= PageSize)] + rest)[1..] == rest;
        ResetFromIdempotent(idx + 1, cards[1..]);
      } else {
        var rest := ResetFrom(idx, cards[1..]);
        assert ResetFrom(idx, cards) == [c] + rest;
        assert ([c] + rest)[1..] == rest;
        ResetFromIdempotent(idx, cards[1..]);
      }
    }
  }

  lemma ResetIdempotent(cards: seq<Card>)
    ensures Reset(Reset(cards)) == Reset(cards)
  {
    ResetFromIdempotent(0, cards);
  }

  // ---------------------------------------------------------------------
  // Properties of the click
  // ---------------------------------------------------------------------

  /**
    One run of the listener clears class `hidden` on exactly `min(3, r)`
    cards, `r` being the number of held-back cards the filter allows, and
    puts exactly that many more cards on screen.
   */
  lemma ClickCounts(cards: seq<Card>)
    ensures Count(Pending, Click(cards)) == Count(Pending, cards) - Min(BatchSize, Count(Pending, cards))
    ensures Count(Hidden, Click(cards)) == Count(Hidden, cards) - Min(BatchSize, Count(Pending, cards))
    ensures Count(OnScreen, Click(cards)) == Count(OnScreen, cards) + Min(BatchSize, Count(Pending, cards))
  {
    var r := Click(cards);
    RevealFirstCount(Pending, BatchSize, cards);
    RevealFirstHiddenCount(Pending, BatchSize, cards);
    RevealKeepsShown(Pending, BatchSize, cards);
    ShownSplits(cards);
    ShownSplits(r);
  }

  /**
    Once the click settles the button is displayed exactly when more than
    three held-back cards were allowed by the filter; with three or fewer
    it disappears.
   */
  lemma ClickButton(cards: seq<Card>)
    ensures AnyPending(Click(cards)) <==> Count(Pending, cards) > BatchSize
  {
    ClickCounts(cards);
  }

  /** Clicking with nothing held back is a no-op. */
  lemma ClickExhausted(cards: seq<Card>)
    requires !AnyPending(cards)
    ensures Click(cards) == cards
  {
    RevealNothing(Pending, BatchSize, cards);
  }

  /** `n` runs of the click listener. */
  function Clicks(n: nat, cards: seq<Card>): (r: seq<Card>)
    ensures |r| == |cards|
  {
    if n == 0 then cards else Clicks(n - 1, Click(cards))
  }

  /** After `n` runs of one listener, `max(0, r - 3n)` of the `r` held-back cards remain. */
  lemma {:induction false} ClicksDrain(n: nat, cards: seq<Card>)
    ensures Count(Pending, Clicks(n, cards))
         == if Count(Pending, cards) <= BatchSize * n then 0 else Count(Pending, cards) - BatchSize * n
  {
    if n > 0 {
      ClickCounts(cards);
      ClicksDrain(n - 1, Click(cards));
    }
  }
}

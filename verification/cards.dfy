/**
  The blog page's post cards, abstracted away from the DOM.

  A `.post-card` element carries a `data-category` attribute, an inline
  `display` style written by the filter, and possibly the class `hidden`
  used by the "load more" pagination. Both versions of the script read and
  write exactly these three things, so a card is a record of them and the
  page is a sequence of cards in document order.
 */
module Cards {

  /** The `data-filter` value that matches every category. */
  const All: string := "all"

  /** Cards left on screen when pagination is reset after a filter change. */
  const PageSize: nat := 9

  /** Cards revealed by one run of the load-more click listener. */
  const BatchSize: nat := 3

  /**
    `shown` is false exactly when the inline style is `display: none`
    (cards the filter never touched have no inline display, so they are
    shown); `hidden` is the presence of class `hidden`.
   */
  datatype Card = Card(category: string, shown: bool, hidden: bool)

  /** The test filterPosts applies to each card. */
  predicate Matches(filter: string, c: Card) {
    filter == All || c.category == filter
  }

  predicate Shown(c: Card) { c.shown }

  predicate Hidden(c: Card) { c.hidden }

  /** Allowed by the filter but held back by pagination. */
  predicate Pending(c: Card) { c.shown && c.hidden }

  /** What the reader actually sees. */
  predicate OnScreen(c: Card) { c.shown && !c.hidden }

  function Min(a: int, b: int): int {
    if a <= b then a else b
  }

  /** Number of cards satisfying `p`. */
  function Count(p: Card -> bool, cards: seq<Card>): (n: nat)
    ensures n <= |cards|
  {
    if |cards| == 0 then 0
    else (if p(cards[0]) then 1 else 0) + Count(p, cards[1..])
  }

  /**
    Some card is held back: it has class `hidden` although the filter
    allows it. Both versions display the load-more button exactly then
    (the newer through the length of its list of such cards, the older
    through a CSS selector on the class and the inline style).
   */
  function AnyPending(cards: seq<Card>): (any: bool)
    ensures any <==> exists i :: 0 <= i < |cards| && cards[i].shown && cards[i].hidden
  {
    CountPositive(Pending, cards);
    Count(Pending, cards) > 0
  }

  /**
    filterPosts: every card's display flag is set from its category; the
    category and the pagination class are left alone.
   */
  function FilterPosts(filter: string, cards: seq<Card>): (r: seq<Card>)
    ensures |r| == |cards|
    ensures forall i :: 0 <= i < |r| ==>
      (r[i].shown <==> filter == All || cards[i].category == filter)
    ensures forall i :: 0 <= i < |r| ==>
      r[i].category == cards[i].category && r[i].hidden == cards[i].hidden
  {
    if |cards| == 0 then []
    else [cards[0].(shown := Matches(filter, cards[0]))] + FilterPosts(filter, cards[1..])
  }

  /**
    The load-more reveal: the first `budget` cards satisfying `p`, in
    document order, lose class `hidden`; every other card is unchanged.
   */
  function RevealFirst(p: Card -> bool, budget: nat, cards: seq<Card>): (r: seq<Card>)
    ensures |r| == |cards|
    ensures forall i :: 0 <= i < |r| ==>
      r[i] == if p(cards[i]) && Count(p, cards[..i]) < budget
              then cards[i].(hidden := false)
              else cards[i]
  {
    if |cards| == 0 then []
    else
      CountPrefixes(p, cards);
      if p(cards[0]) && budget > 0
      then [cards[0].(hidden := false)] + RevealFirst(p, budget - 1, cards[1..])
      else [cards[0]] + RevealFirst(p, budget, cards[1..])
  }

  // ---------------------------------------------------------------------
  // Counting lemmas
  // ---------------------------------------------------------------------

  /** A prefix's count splits into its first card and the rest. */
  lemma CountPrefixes(p: Card -> bool, s: seq<Card>)
    requires |s| > 0
    ensures forall i :: 0 < i <= |s| ==>
      Count(p, s[..i]) == (if p(s[0]) then 1 else 0) + Count(p, s[1..][..i - 1])
  {
    forall i | 0 < i <= |s|
      ensures Count(p, s[..i]) == (if p(s[0]) then 1 else 0) + Count(p, s[1..][..i - 1])
    {
      assert s[..i][1..] == s[1..][..i - 1];
    }
  }

  lemma {:induction false} CountAppend(p: Card -> bool, a: seq<Card>, b: seq<Card>)
    ensures Count(p, a + b) == Count(p, a) + Count(p, b)
  {
    if |a| == 0 {
      assert a + b == b;
    } else {
      assert (a + b)[1..] == a[1..] + b;
      CountAppend(p, a[1..], b);
    }
  }

  /** Counting the cards of a sequence built as one card followed by the rest. */
  lemma CountCons(p: Card -> bool, c: Card, rest: seq<Card>)
    ensures Count(p, [c] + rest) == (if p(c) then 1 else 0) + Count(p, rest)
  {
    assert ([c] + rest)[1..] == rest;
  }

  /** A count is positive exactly when some card satisfies the predicate. */
  lemma {:induction false} CountPositive(p: Card -> bool, s: seq<Card>)
    ensures Count(p, s) > 0 <==> exists i :: 0 <= i < |s| && p(s[i])
  {
    if |s| > 0 {
      CountPositive(p, s[1..]);
      if Count(p, s[1..]) > 0 {
        var j :| 0 <= j < |s[1..]| && p(s[1..][j]);
        assert p(s[j + 1]);
      }
      if exists i :: 0 <= i < |s| && p(s[i]) {
        var i :| 0 <= i < |s| && p(s[i]);
        if i > 0 {
          assert p(s[1..][i - 1]);
        }
      }
    }
  }

  /** When no card satisfies `p`, the count is zero. */
  lemma CountNone(p: Card -> bool, s: seq<Card>)
    requires forall i :: 0 <= i < |s| ==> !p(s[i])
    ensures Count(p, s) == 0
  {
    CountPositive(p, s);
  }

  /** Every shown card is either pending or on screen. */
  lemma {:induction false} ShownSplits(s: seq<Card>)
    ensures Count(Shown, s) == Count(Pending, s) + Count(OnScreen, s)
  {
    if |s| > 0 {
      ShownSplits(s[1..]);
    }
  }

  /** Two card sequences with the same display flags show the same number of cards. */
  lemma {:induction false} SameShownSameCount(a: seq<Card>, b: seq<Card>)
    requires |a| == |b|
    requires forall i :: 0 <= i < |a| ==> a[i].shown == b[i].shown
    ensures Count(Shown, a) == Count(Shown, b)
  {
    if |a| > 0 {
      SameShownSameCount(a[1..], b[1..]);
    }
  }

  // ---------------------------------------------------------------------
  // filterPosts
  // ---------------------------------------------------------------------

  /** Applying the same filter twice is the same as applying it once. */
  lemma FilterIdempotent(filter: string, cards: seq<Card>)
    ensures FilterPosts(filter, FilterPosts(filter, cards)) == FilterPosts(filter, cards)
  {
    var once := FilterPosts(filter, cards);
    var twice := FilterPosts(filter, once);
    assert forall i :: 0 <= i < |twice| ==> twice[i] == once[i];
  }

  /** The `all` filter shows every card. */
  lemma FilterAllShowsEverything(cards: seq<Card>)
    ensures forall i :: 0 <= i < |cards| ==> FilterPosts(All, cards)[i].shown
    ensures Count(Shown, FilterPosts(All, cards)) == |cards|
  {
    var r := FilterPosts(All, cards);
    CountEvery(Shown, r);
  }

  /** When every card satisfies `p`, all of them are counted. */
  lemma {:induction false} CountEvery(p: Card -> bool, s: seq<Card>)
    requires forall i :: 0 <= i < |s| ==> p(s[i])
    ensures Count(p, s) == |s|
  {
    if |s| > 0 {
      CountEvery(p, s[1..]);
    }
  }

  /** The filter shows exactly as many cards as match it. */
  lemma {:induction false} FilterCount(filter: string, cards: seq<Card>)
    ensures Count(Shown, FilterPosts(filter, cards)) == Count(c => Matches(filter, c), cards)
  {
    if |cards| > 0 {
      FilterCount(filter, cards[1..]);
      CountCons(Shown, cards[0].(shown := Matches(filter, cards[0])), FilterPosts(filter, cards[1..]));
    }
  }

  // ---------------------------------------------------------------------
  // The reveal
  // ---------------------------------------------------------------------

  /**
    When revealing a card takes it out of `p`, a reveal with budget `b`
    leaves `n - min(b, n)` of the `n` cards satisfying `p`.
   */
  lemma {:induction false} RevealFirstCount(p: Card -> bool, budget: nat, cards: seq<Card>)
    requires forall c: Card :: p(c) ==> !p(c.(hidden := false))
    ensures Count(p, RevealFirst(p, budget, cards))
         == Count(p, cards) - Min(budget, Count(p, cards))
  {
    if |cards| > 0 {
      var c := cards[0];
      if p(c) && budget > 0 {
        var rest := RevealFirst(p, budget - 1, cards[1..]);
        assert RevealFirst(p, budget, cards) == [c.(hidden := false)] + rest;
        RevealFirstCount(p, budget - 1, cards[1..]);
        CountCons(p, c.(hidden := false), rest);
      } else {
        var rest := RevealFirst(p, budget, cards[1..]);
        assert RevealFirst(p, budget, cards) == [c] + rest;
        RevealFirstCount(p, budget, cards[1..]);
        CountCons(p, c, rest);
      }
    }
  }

  /**
    When `p` only selects hidden cards, a reveal with budget `b` clears
    class `hidden` on exactly `min(b, n)` cards, `n` being the number of
    cards satisfying `p`.
   */
  lemma {:induction false} RevealFirstHiddenCount(p: Card -> bool, budget: nat, cards: seq<Card>)
    requires forall c: Card :: p(c) ==> c.hidden
    ensures Count(Hidden, RevealFirst(p, budget, cards))
         == Count(Hidden, cards) - Min(budget, Count(p, cards))
  {
    if |cards| > 0 {
      var c := cards[0];
      if p(c) && budget > 0 {
        var rest := RevealFirst(p, budget - 1, cards[1..]);
        assert RevealFirst(p, budget, cards) == [c.(hidden := false)] + rest;
        RevealFirstHiddenCount(p, budget - 1, cards[1..]);
        CountCons(Hidden, c.(hidden := false), rest);
      } else {
        var rest := RevealFirst(p, budget, cards[1..]);
        assert RevealFirst(p, budget, cards) == [c] + rest;
        RevealFirstHiddenCount(p, budget, cards[1..]);
        CountCons(Hidden, c, rest);
      }
    }
  }

  /** The reveal never touches the display flags. */
  lemma RevealKeepsShown(p: Card -> bool, budget: nat, cards: seq<Card>)
    ensures forall i :: 0 <= i < |cards| ==> RevealFirst(p, budget, cards)[i].shown == cards[i].shown
    ensures Count(Shown, RevealFirst(p, budget, cards)) == Count(Shown, cards)
  {
    SameShownSameCount(RevealFirst(p, budget, cards), cards);
  }

  /** With nothing to reveal, the reveal changes nothing. */
  lemma RevealNothing(p: Card -> bool, budget: nat, cards: seq<Card>)
    requires Count(p, cards) == 0
    ensures RevealFirst(p, budget, cards) == cards
  {
    var r := RevealFirst(p, budget, cards);
    CountPositive(p, cards);
    assert forall i :: 0 <= i < |r| ==> r[i] == cards[i];
  }
}

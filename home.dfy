/** The home screen: the greeting, the number of cards due today across all
    decks with its banner, and the recent-decks list. The hour and the end of
    today are supplied. */
module Home {
  import opened Types
  import opened Seqs
  import opened Text
  import Session

  /** A card counts as due today when it is `new`, whatever its due date, or
      when its due instant (missing read as the epoch) is no later than the
      end of today. */
  function CountedDue(endOfToday: Time): Card -> bool {
    (c: Card) => IsNew(c) || DueOrEpoch(c) <= endOfToday
  }

  function DeckDueCount(deck: Deck, endOfToday: Time): nat {
    |Filter(deck.cards, CountedDue(endOfToday))|
  }

  function TotalCards(decks: seq<Deck>): nat {
    if |decks| == 0 then 0 else |decks[0].cards| + TotalCards(decks[1..])
  }

  /** The sum over all decks of the cards counted as due. */
  function TotalDueCards(decks: seq<Deck>, endOfToday: Time): (count: nat)
    ensures count <= TotalCards(decks)
  {
    if |decks| == 0 then 0 else DeckDueCount(decks[0], endOfToday) + TotalDueCards(decks[1..], endOfToday)
  }

  /** The count over a list of decks is the count over its first part plus the
      count over the rest. */
  lemma {:induction false} TotalDueCardsConcat(a: seq<Deck>, b: seq<Deck>, endOfToday: Time)
    ensures TotalDueCards(a + b, endOfToday) == TotalDueCards(a, endOfToday) + TotalDueCards(b, endOfToday)
  {
    if |a| > 0 {
      assert (a + b)[1..] == a[1..] + b;
      TotalDueCardsConcat(a[1..], b, endOfToday);
    } else {
      assert a + b == b;
    }
  }

  /** A deck's count is its `new` cards plus its other cards due by the end of
      today: the same two groups a study session draws from, without the cap
      on new cards. */
  lemma {:induction false} DueCountSplits(cards: seq<Card>, endOfToday: Time)
    ensures |Filter(cards, CountedDue(endOfToday))|
            == |Session.NewCards(cards)| + |Session.DueCards(cards, endOfToday)|
  {
    if |cards| > 0 {
      DueCountSplits(cards[1..], endOfToday);
    }
  }

  /** A session started on a deck holds at most the deck's due count, and
      exactly that many when the deck has no more `new` cards than the cap. */
  lemma SessionWithinDueCount(deck: Deck, endOfToday: Time, picked: seq<Card>, queue: seq<Card>)
    requires Session.InitialQueue(deck.cards, endOfToday, picked, queue)
    ensures |queue| <= DeckDueCount(deck, endOfToday)
    ensures |Session.NewCards(deck.cards)| <= Session.MaxNewCardsPerSession ==> |queue| == DeckDueCount(deck, endOfToday)
  {
    DueCountSplits(deck.cards, endOfToday);
    var due := Session.DueCards(deck.cards, endOfToday);
    assert |multiset(queue)| == |multiset(picked)| + |multiset(due)|;
  }

  /** The greeting for an hour of the day. */
  function Greeting(hour: nat): (g: string)
    requires hour < 24
    ensures g == "Good Morning" <==> hour < 12
    ensures g == "Good Afternoon" <==> 12 <= hour < 18
    ensures g == "Good Evening" <==> 18 <= hour
  {
    if hour < 12 then "Good Morning"
    else if hour < 18 then "Good Afternoon"
    else "Good Evening"
  }

  /** The due-cards banner, shown only when something is due, with the count
      written out and "card" in the singular for exactly one. */
  function DueBanner(count: nat): (banner: Option<string>)
    ensures banner.None? <==> count == 0
    ensures count == 1 ==> banner == Some("You have 1 card due for review today.")
    ensures count > 1 ==> banner == Some("You have " + NatToString(count) + " cards due for review today.")
  {
    if count == 0 then None
    else
      var text := "You have " + NatToString(count) + " card" + (if count == 1 then "" else "s") + " due for review today.";
      assert count == 1 ==> NatToString(count) == "1" by { assert DigitChar(1) == '1'; }
      assert count == 1 ==> text == "You have 1 card due for review today.";
      assert count > 1 ==> text == "You have " + NatToString(count) + " cards due for review today.";
      Some(text)
  }

  /** The first four decks, in order (all of them when there are fewer). */
  function RecentDecks(decks: seq<Deck>): (recent: seq<Deck>)
    ensures |recent| == Min(4, |decks|)
    ensures forall i :: 0 <= i < |recent| ==> recent[i] == decks[i]
  {
    decks[..Min(4, |decks|)]
  }
}

/** The application's list of decks and the handlers that replace it: adding,
    updating and deleting a deck, and merging the cards a study session hands
    back. */
module Decks {
  import opened Types
  import opened Seqs

  function DeckIds(decks: seq<Deck>): seq<string> {
    seq(|decks|, i requires 0 <= i < |decks| => decks[i].id)
  }

  /** The new deck goes at the end; the others keep their places. */
  function AddDeck(decks: seq<Deck>, d: Deck): (r: seq<Deck>)
    ensures |r| == |decks| + 1 && r[..|decks|] == decks && r[|decks|] == d
  {
    decks + [d]
  }

  /** Every deck with the updated deck's id is replaced by it. */
  function UpdateDeck(decks: seq<Deck>, d: Deck): (r: seq<Deck>)
    ensures |r| == |decks|
    ensures DeckIds(r) == DeckIds(decks)
    ensures forall i :: 0 <= i < |decks| && decks[i].id != d.id ==> r[i] == decks[i]
    ensures forall i :: 0 <= i < |decks| && decks[i].id == d.id ==> r[i] == d
  {
    seq(|decks|, i requires 0 <= i < |decks| => if decks[i].id == d.id then d else decks[i])
  }

  /** Updating twice with the same deck is the same as updating once. */
  lemma UpdateDeckIdempotent(decks: seq<Deck>, d: Deck)
    ensures UpdateDeck(UpdateDeck(decks, d), d) == UpdateDeck(decks, d)
  {
  }

  function NotWithId(deckId: string): Deck -> bool {
    (d: Deck) => d.id != deckId
  }

  /** Deleting happens only when the user confirms; it drops every deck with
      that id. */
  function DeleteDeck(decks: seq<Deck>, deckId: string, confirmed: bool): (r: seq<Deck>)
    ensures !confirmed ==> r == decks
    ensures confirmed ==> forall d :: d in r <==> d in decks && d.id != deckId
    ensures |r| <= |decks|
  {
    if confirmed then Filter(decks, NotWithId(deckId)) else decks
  }

  /** Deletion keeps the remaining decks in their order: deleting from a
      concatenation deletes from each part. */
  lemma DeleteDeckKeepsOrder(a: seq<Deck>, b: seq<Deck>, deckId: string)
    ensures DeleteDeck(a + b, deckId, true) == DeleteDeck(a, deckId, true) + DeleteDeck(b, deckId, true)
  {
    FilterConcat(a, b, NotWithId(deckId));
  }

  /** A list without that id comes back unchanged. */
  lemma DeleteAbsentDeck(decks: seq<Deck>, deckId: string)
    requires deckId !in DeckIds(decks)
    ensures DeleteDeck(decks, deckId, true) == decks
  {
    forall d | d in decks ensures d.id != deckId {
      var i :| 0 <= i < |decks| && decks[i] == d;
      assert DeckIds(decks)[i] == d.id;
    }
    FilterAllKept(decks, NotWithId(deckId));
  }

  /** Looking a card up in a map built from the list keyed by id: the last
      card with that id, if any. */
  function LastWithId(updated: seq<Card>, id: string): (r: Option<Card>)
    ensures r.None? <==> id !in CardIds(updated)
    ensures r.Some? ==> r.value.id == id && r.value in updated
    ensures r.Some? ==> exists j :: 0 <= j < |updated| && updated[j] == r.value &&
                                    forall k :: j < k < |updated| ==> updated[k].id != id
  {
    if |updated| == 0 then None
    else if updated[|updated| - 1].id == id then Some(updated[|updated| - 1])
    else
      var rest := updated[..|updated| - 1];
      assert updated == rest + [updated[|updated| - 1]];
      CardIdsConcat(rest, [updated[|updated| - 1]]);
      LastWithId(rest, id)
  }

  /** Each card whose id occurs among the updated cards is replaced by the last
      of them; every other card is kept. */
  function MergeCards(cards: seq<Card>, updated: seq<Card>): (r: seq<Card>)
    ensures |r| == |cards|
    ensures forall i :: 0 <= i < |cards| ==> r[i].id == cards[i].id
    ensures forall i :: 0 <= i < |cards| && cards[i].id !in CardIds(updated) ==> r[i] == cards[i]
    ensures forall i :: 0 <= i < |cards| && cards[i].id in CardIds(updated) ==> r[i] in updated
    ensures forall i :: 0 <= i < |cards| && cards[i].id in CardIds(updated) ==>
              Some(r[i]) == LastWithId(updated, cards[i].id)
  {
    seq(|cards|, i requires 0 <= i < |cards| => LastWithId(updated, cards[i].id).GetOr(cards[i]))
  }

  /** Merging the same cards a second time changes nothing. */
  lemma MergeCardsIdempotent(cards: seq<Card>, updated: seq<Card>)
    ensures MergeCards(MergeCards(cards, updated), updated) == MergeCards(cards, updated)
  {
  }

  /** When the updates carry distinct ids, the card under each id is exactly the
      update for it. */
  lemma MergeCardsDistinct(cards: seq<Card>, updated: seq<Card>, i: nat, u: Card)
    requires DistinctIds(updated) && i < |cards| && u in updated && u.id == cards[i].id
    ensures MergeCards(cards, updated)[i] == u
  {
    var r := LastWithId(updated, cards[i].id);
    var j :| 0 <= j < |updated| && updated[j] == r.value;
    var k :| 0 <= k < |updated| && updated[k] == u;
    assert j == k;
  }

  /** The deck the session ran on gets its cards merged; every other deck is
      returned as it was. */
  function MergeSession(decks: seq<Deck>, deckId: string, updated: seq<Card>): (r: seq<Deck>)
    ensures |r| == |decks| && DeckIds(r) == DeckIds(decks)
    ensures forall i :: 0 <= i < |decks| && decks[i].id != deckId ==> r[i] == decks[i]
    ensures forall i :: 0 <= i < |decks| && decks[i].id == deckId ==>
              r[i] == decks[i].(cards := MergeCards(decks[i].cards, updated))
  {
    seq(|decks|, i requires 0 <= i < |decks| =>
      if decks[i].id == deckId then decks[i].(cards := MergeCards(decks[i].cards, updated)) else decks[i])
  }

  /** The application's state: the decks, and the deck being studied, if any. */
  class App {
    var decks: seq<Deck>
    var activeStudyDeck: Option<Deck>

    /** Starts from the decks read from storage. */
    constructor(loaded: seq<Deck>)
      ensures decks == loaded && activeStudyDeck == None
    {
      decks := loaded;
      activeStudyDeck := None;
    }

    method HandleAddDeck(d: Deck)
      modifies this
      ensures decks == AddDeck(old(decks), d) && activeStudyDeck == old(activeStudyDeck)
    {
      decks := decks + [d];
    }

    method HandleUpdateDeck(d: Deck)
      modifies this
      ensures decks == UpdateDeck(old(decks), d) && activeStudyDeck == old(activeStudyDeck)
    {
      decks := UpdateDeck(decks, d);
    }

    method HandleDeleteDeck(deckId: string, confirmed: bool)
      modifies this
      ensures decks == DeleteDeck(old(decks), deckId, confirmed) && activeStudyDeck == old(activeStudyDeck)
    {
      if confirmed {
        decks := Filter(decks, NotWithId(deckId));
      }
    }

    method HandleStartStudy(d: Deck)
      modifies this
      ensures decks == old(decks) && activeStudyDeck == Some(d)
    {
      activeStudyDeck := Some(d);
    }

    /** A finished session's cards are merged into their deck and the study
        view is closed. */
    method HandleSessionComplete(deckId: string, updated: seq<Card>)
      modifies this
      ensures decks == MergeSession(old(decks), deckId, updated) && activeStudyDeck == None
    {
      decks := MergeSession(decks, deckId, updated);
      activeStudyDeck := None;
    }

    method HandleCloseSession()
      modifies this
      ensures decks == old(decks) && activeStudyDeck == None
    {
      activeStudyDeck := None;
    }
  }
}

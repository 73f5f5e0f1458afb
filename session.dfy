/** A study session over one deck: which cards enter the queue, how each
    answer is recorded and re-queued, and what is handed back at the end.

    Every event handler of the session reads the state as it was before the
    event and schedules its updates, which all take effect together once the
    handler returns. `Answered` models the answer handler under that rule, as
    written; `AnsweredIntended` is the transition its own comment describes,
    and the `StudySession` class follows the latter. */
module Session {
  import opened Types
  import opened Seqs
  import Srs

  const MaxNewCardsPerSession: nat := 20

  /** A card that is not exactly `new` (a missing state included) and whose due
      instant, missing read as the epoch, is no later than the end of today. */
  predicate IsDueBy(c: Card, endOfToday: Time) {
    !IsNew(c) && DueOrEpoch(c) <= endOfToday
  }

  function NewCards(cards: seq<Card>): seq<Card> {
    Filter(cards, IsNew)
  }

  function DueCards(cards: seq<Card>, endOfToday: Time): seq<Card> {
    Filter(cards, c => IsDueBy(c, endOfToday))
  }

  /** `queue` is a possible outcome of building a session from `cards`: `picked`
      is a shuffle of the new cards cut to the cap, and `queue` a shuffle of
      `picked` followed by every due card. */
  ghost predicate InitialQueue(cards: seq<Card>, endOfToday: Time, picked: seq<Card>, queue: seq<Card>) {
    && |picked| == Min(MaxNewCardsPerSession, |NewCards(cards)|)
    && multiset(picked) <= multiset(NewCards(cards))
    && multiset(queue) == multiset(picked) + multiset(DueCards(cards, endOfToday))
  }

  lemma SameMultisetSameLength(a: seq<Card>, b: seq<Card>)
    requires multiset(a) == multiset(b)
    ensures |a| == |b|
  {
    assert |multiset(a)| == |a|;
    assert |multiset(b)| == |b|;
  }

  lemma PrefixSubMultiset(s: seq<Card>, k: nat)
    requires k <= |s|
    ensures multiset(s[..k]) <= multiset(s)
  {
    assert s == s[..k] + s[k..];
    assert multiset(s) == multiset(s[..k]) + multiset(s[k..]);
  }

  /** Queue construction. The two random shuffles are modelled as arbitrary
      permutations. */
  method BuildQueue(cards: seq<Card>, endOfToday: Time) returns (picked: seq<Card>, queue: seq<Card>)
    ensures InitialQueue(cards, endOfToday, picked, queue)
  {
    var newCards := NewCards(cards);
    var shuffled :| multiset(shuffled) == multiset(newCards);
    SameMultisetSameLength(shuffled, newCards);
    picked := shuffled[..Min(MaxNewCardsPerSession, |shuffled|)];
    PrefixSubMultiset(shuffled, |picked|);
    var combined := picked + DueCards(cards, endOfToday);
    queue :| multiset(queue) == multiset(combined);
  }

  /** No more than the cap of new cards enters a session. */
  lemma QueueCapsNewCards(cards: seq<Card>, endOfToday: Time, picked: seq<Card>, queue: seq<Card>)
    requires InitialQueue(cards, endOfToday, picked, queue)
    ensures |Filter(queue, IsNew)| <= MaxNewCardsPerSession
  {
    var due := DueCards(cards, endOfToday);
    assert multiset(queue) == multiset(picked + due);
    FilterCountPermutation(queue, picked + due, IsNew);
    FilterConcat(picked, due, IsNew);
    FilterNoneKept(due, IsNew);
  }

  /** Each card occurs in the queue at most as often as in the deck: nothing is
      invented and nothing is duplicated. */
  lemma QueueWithinDeck(cards: seq<Card>, endOfToday: Time, picked: seq<Card>, queue: seq<Card>)
    requires InitialQueue(cards, endOfToday, picked, queue)
    ensures multiset(queue) <= multiset(cards)
  {
    forall x
      ensures multiset(queue)[x] <= multiset(cards)[x]
    {
      FilterMultiset(cards, IsNew, x);
      FilterMultiset(cards, c => IsDueBy(c, endOfToday), x);
    }
  }

  /** A card that is not exactly `new` is in the queue if and only if it is due
      by the end of today. */
  lemma DueCardEnters(cards: seq<Card>, endOfToday: Time, picked: seq<Card>, queue: seq<Card>, c: Card)
    requires InitialQueue(cards, endOfToday, picked, queue)
    requires c in cards && !IsNew(c)
    ensures c in queue <==> DueOrEpoch(c) <= endOfToday
  {
    FilterMultiset(cards, IsNew, c);
    FilterMultiset(cards, x => IsDueBy(x, endOfToday), c);
    assert c in queue <==> multiset(queue)[c] > 0;
  }

  lemma {:induction false} DistinctIdsSingletons(s: seq<Card>, x: Card)
    requires DistinctIds(s)
    ensures multiset(s)[x] <= 1
  {
    if |s| > 0 {
      assert s == [s[0]] + s[1..];
      DistinctIdsSingletons(s[1..], x);
    }
  }

  lemma RepeatedTwice(s: seq<Card>, i: nat, j: nat)
    requires i < j < |s| && s[i] == s[j]
    ensures multiset(s)[s[i]] >= 2
  {
    assert s == s[..i] + [s[i]] + s[i + 1..j] + [s[j]] + s[j + 1..];
  }

  /** When the deck's card ids are distinct, so are the queue's. */
  lemma QueueDistinct(cards: seq<Card>, endOfToday: Time, picked: seq<Card>, queue: seq<Card>)
    requires InitialQueue(cards, endOfToday, picked, queue)
    requires DistinctIds(cards)
    ensures DistinctIds(queue)
  {
    QueueWithinDeck(cards, endOfToday, picked, queue);
    forall i, j | 0 <= i < j < |queue|
      ensures queue[i].id != queue[j].id
    {
      if queue[i] == queue[j] {
        RepeatedTwice(queue, i, j);
        DistinctIdsSingletons(cards, queue[i]);
      } else {
        assert multiset(queue)[queue[i]] > 0 && multiset(queue)[queue[j]] > 0;
        assert queue[i] in cards && queue[j] in cards;
      }
    }
  }

  /** `Map.prototype.set` on the map of graded cards, keyed by card id: an entry
      with that id keeps its position and takes the new card; otherwise the card
      is appended. */
  function Upsert(entries: seq<Card>, c: Card): (r: seq<Card>)
    ensures CardIds(r) == CardIds(entries) + {c.id}
    ensures c in r
    ensures c.id !in CardIds(entries) ==> r == entries + [c]
    ensures c.id in CardIds(entries) ==> |r| == |entries|
  {
    if |entries| == 0 then [c]
    else if entries[0].id == c.id then
      assert entries == [entries[0]] + entries[1..];
      [c] + entries[1..]
    else
      assert entries == [entries[0]] + entries[1..];
      CardIdsConcat([entries[0]], entries[1..]);
      CardIdsConcat([entries[0]], Upsert(entries[1..], c));
      [entries[0]] + Upsert(entries[1..], c)
  }

  /** Keys stay unique. */
  lemma {:induction false} UpsertDistinct(entries: seq<Card>, c: Card)
    requires DistinctIds(entries)
    ensures DistinctIds(Upsert(entries, c))
  {
    if |entries| > 0 && entries[0].id != c.id {
      UpsertDistinct(entries[1..], c);
      var r := Upsert(entries, c);
      assert r == [entries[0]] + Upsert(entries[1..], c);
      DistinctIdsCons(entries[0], Upsert(entries[1..], c));
    }
  }

  /** Dropping the first entry keeps the ids distinct. */
  lemma DistinctIdsTail(entries: seq<Card>)
    requires |entries| > 0 && DistinctIds(entries)
    ensures DistinctIds(entries[1..])
  {
    var tail := entries[1..];
    forall i, j | 0 <= i < j < |tail| ensures tail[i].id != tail[j].id {
      assert tail[i] == entries[i + 1] && tail[j] == entries[j + 1];
    }
  }

  /** An id held after the first entry, but not by it, is held by the rest. */
  lemma IdInTail(entries: seq<Card>, id: string)
    requires id in CardIds(entries) && |entries| > 0 && entries[0].id != id
    ensures id in CardIds(entries[1..])
  {
    var e :| e in entries && e.id == id;
    var k :| 0 <= k < |entries| && entries[k] == e;
    assert entries[1..][k - 1] == e;
  }

  /** An entry already under the card's id is replaced where it stands. */
  lemma {:induction false} UpsertInPlace(entries: seq<Card>, c: Card)
    requires DistinctIds(entries) && c.id in CardIds(entries)
    ensures var r := Upsert(entries, c);
            |r| == |entries| &&
            forall i :: 0 <= i < |entries| ==> r[i] == if entries[i].id == c.id then c else entries[i]
  {
    var r := Upsert(entries, c);
    if entries[0].id != c.id {
      var tail := entries[1..];
      IdInTail(entries, c.id);
      DistinctIdsTail(entries);
      UpsertInPlace(tail, c);
      var rest := Upsert(tail, c);
      assert r == [entries[0]] + rest;
      forall i | 0 <= i < |entries|
        ensures r[i] == if entries[i].id == c.id then c else entries[i]
      {
        if i > 0 {
          assert r[i] == rest[i - 1] && entries[i] == tail[i - 1];
        }
      }
    } else {
      assert r == [c] + entries[1..];
      forall i | 0 <= i < |entries|
        ensures r[i] == if entries[i].id == c.id then c else entries[i]
      {
        if i > 0 {
          assert entries[0].id != entries[i].id;
        }
      }
    }
  }

  /** After an upsert the card is the only entry under its id, and every entry
      under another id is kept. */
  lemma UpsertRecords(entries: seq<Card>, c: Card)
    requires DistinctIds(entries)
    ensures var r := Upsert(entries, c);
            && c in r
            && (forall e :: e in r && e.id == c.id ==> e == c)
            && (forall e :: e in entries && e.id != c.id ==> e in r)
  {
    var r := Upsert(entries, c);
    UpsertDistinct(entries, c);
    forall e | e in r && e.id == c.id ensures e == c {
      var i :| 0 <= i < |r| && r[i] == e;
      var j :| 0 <= j < |r| && r[j] == c;
      assert i == j;
    }
    if c.id in CardIds(entries) {
      UpsertInPlace(entries, c);
      forall e | e in entries && e.id != c.id ensures e in r {
        var i :| 0 <= i < |entries| && entries[i] == e;
        assert r[i] == e;
      }
    }
  }

  /** The six pieces of session state. `updatedCards` lists the map's entries in
      insertion order. */
  datatype SessionState = SessionState(
    sessionQueue: seq<Card>,
    relearningQueue: seq<Card>,
    updatedCards: seq<Card>,
    currentIndex: nat,
    isFlipped: bool,
    isComplete: bool
  )

  /** Answering the current card, as the handler is written: every test reads
      the state from before the answer, so the end of a pass looks at the
      relearning queue without the card just failed, and clearing the
      relearning queue there overrides appending to it. */
  function Answered(s: SessionState, rating: Srs.Rating, now: Time): (r: SessionState)
    ensures s.currentIndex >= |s.sessionQueue| ==> r == s
    ensures s.currentIndex < |s.sessionQueue| ==>
              Srs.UpdateCardSchedule(s.sessionQueue[s.currentIndex], rating, now) in r.updatedCards
    ensures !s.isComplete && r.isComplete ==> s.currentIndex == |s.sessionQueue| - 1
  {
    if s.currentIndex >= |s.sessionQueue| then s
    else
      var updated := Srs.UpdateCardSchedule(s.sessionQueue[s.currentIndex], rating, now);
      var entries := Upsert(s.updatedCards, updated);
      var relearning := if rating == Srs.Again then s.relearningQueue + [updated] else s.relearningQueue;
      if s.currentIndex < |s.sessionQueue| - 1 then
        s.(updatedCards := entries, relearningQueue := relearning,
           currentIndex := s.currentIndex + 1, isFlipped := false)
      else if |s.relearningQueue| > 0 then
        s.(updatedCards := entries, sessionQueue := s.relearningQueue, relearningQueue := [],
           currentIndex := 0, isFlipped := false)
      else
        s.(updatedCards := entries, relearningQueue := relearning, isComplete := true)
  }

  /** The session invariant: an active session points at a card of its queue,
      the graded cards have distinct ids, and every card held comes from the deck. */
  ghost predicate Consistent(s: SessionState, deckIds: set<string>) {
    && (!s.isComplete ==> s.currentIndex < |s.sessionQueue|)
    && DistinctIds(s.updatedCards)
    && CardIds(s.sessionQueue) <= deckIds
    && CardIds(s.relearningQueue) <= deckIds
    && CardIds(s.updatedCards) <= deckIds
  }

  /** Answering keeps the invariant, and the graded ids grow by exactly the id
      of the card answered. */
  lemma AnsweredKeepsConsistent(s: SessionState, rating: Srs.Rating, now: Time, deckIds: set<string>)
    requires Consistent(s, deckIds)
    ensures Consistent(Answered(s, rating, now), deckIds)
    ensures s.currentIndex < |s.sessionQueue| ==>
              CardIds(Answered(s, rating, now).updatedCards) == CardIds(s.updatedCards) + {s.sessionQueue[s.currentIndex].id}
    ensures s.currentIndex >= |s.sessionQueue| ==> Answered(s, rating, now) == s
  {
    if s.currentIndex < |s.sessionQueue| {
      var card := s.sessionQueue[s.currentIndex];
      var updated := Srs.UpdateCardSchedule(card, rating, now);
      assert card in s.sessionQueue;
      assert updated.id == card.id;
      UpsertDistinct(s.updatedCards, updated);
      assert CardIds(s.relearningQueue + [updated]) == CardIds(s.relearningQueue) + {updated.id};
    }
  }

  /** The answer is recorded under the card's id, replacing any earlier grading
      of that card in the session. */
  lemma AnswerRecordsLatest(s: SessionState, rating: Srs.Rating, now: Time)
    requires s.currentIndex < |s.sessionQueue| && DistinctIds(s.updatedCards)
    ensures var updated := Srs.UpdateCardSchedule(s.sessionQueue[s.currentIndex], rating, now);
            var r := Answered(s, rating, now);
            && updated in r.updatedCards
            && (forall e :: e in r.updatedCards && e.id == updated.id ==> e == updated)
            && (forall e :: e in s.updatedCards && e.id != updated.id ==> e in r.updatedCards)
  {
    var updated := Srs.UpdateCardSchedule(s.sessionQueue[s.currentIndex], rating, now);
    assert Answered(s, rating, now).updatedCards == Upsert(s.updatedCards, updated);
    UpsertRecords(s.updatedCards, updated);
  }

  /** As written, a card failed as the last card of a pass is never shown again
      in the session: either the session completes, or the next pass is the
      relearning queue as it stood before the answer and the queue is emptied. */
  lemma LastOfPassFailureDropped(s: SessionState, now: Time)
    requires !s.isComplete && |s.sessionQueue| > 0 && s.currentIndex == |s.sessionQueue| - 1
    ensures var r := Answered(s, Srs.Again, now);
            r.isComplete || (r.sessionQueue == s.relearningQueue && r.relearningQueue == [])
  {
  }

  /** The smallest case: a session of one card answered `again` completes at
      once, leaving the failed card in the relearning queue. */
  lemma OneCardAgainCompletes(card: Card, now: Time)
    ensures var r := Answered(SessionState([card], [], [], 0, true, false), Srs.Again, now);
            r.isComplete && r.relearningQueue == [Srs.UpdateCardSchedule(card, Srs.Again, now)]
  {
  }

  /** The transition the handler's comment describes: at the end of a pass the
      relearning queue, including a card failed just now, becomes the next pass. */
  function AnsweredIntended(s: SessionState, rating: Srs.Rating, now: Time): (r: SessionState)
    ensures s.currentIndex >= |s.sessionQueue| ==> r == s
    ensures s.currentIndex < |s.sessionQueue| ==>
              Srs.UpdateCardSchedule(s.sessionQueue[s.currentIndex], rating, now) in r.updatedCards
    ensures !s.isComplete && r.isComplete ==> s.currentIndex == |s.sessionQueue| - 1
  {
    if s.currentIndex >= |s.sessionQueue| then s
    else
      var updated := Srs.UpdateCardSchedule(s.sessionQueue[s.currentIndex], rating, now);
      var entries := Upsert(s.updatedCards, updated);
      var relearning := if rating == Srs.Again then s.relearningQueue + [updated] else s.relearningQueue;
      if s.currentIndex < |s.sessionQueue| - 1 then
        s.(updatedCards := entries, relearningQueue := relearning,
           currentIndex := s.currentIndex + 1, isFlipped := false)
      else if |relearning| > 0 then
        s.(updatedCards := entries, sessionQueue := relearning, relearningQueue := [],
           currentIndex := 0, isFlipped := false)
      else
        s.(updatedCards := entries, relearningQueue := [], isComplete := true)
  }

  /** The intended transition keeps the session invariant too, with the same
      growth of the graded ids. */
  lemma AnsweredIntendedKeepsConsistent(s: SessionState, rating: Srs.Rating, now: Time, deckIds: set<string>)
    requires Consistent(s, deckIds)
    ensures Consistent(AnsweredIntended(s, rating, now), deckIds)
    ensures s.currentIndex < |s.sessionQueue| ==>
              CardIds(AnsweredIntended(s, rating, now).updatedCards) == CardIds(s.updatedCards) + {s.sessionQueue[s.currentIndex].id}
    ensures s.currentIndex >= |s.sessionQueue| ==> AnsweredIntended(s, rating, now) == s
  {
    if s.currentIndex < |s.sessionQueue| {
      var card := s.sessionQueue[s.currentIndex];
      var updated := Srs.UpdateCardSchedule(card, rating, now);
      assert card in s.sessionQueue;
      assert updated.id == card.id;
      UpsertDistinct(s.updatedCards, updated);
      assert CardIds(s.relearningQueue + [updated]) == CardIds(s.relearningQueue) + {updated.id};
    }
  }

  /** The corrected transition records the answer the same way: under the
      card's id, replacing any earlier grading of that card in the session. */
  lemma AnsweredIntendedRecordsLatest(s: SessionState, rating: Srs.Rating, now: Time)
    requires s.currentIndex < |s.sessionQueue| && DistinctIds(s.updatedCards)
    ensures var updated := Srs.UpdateCardSchedule(s.sessionQueue[s.currentIndex], rating, now);
            var r := AnsweredIntended(s, rating, now);
            && updated in r.updatedCards
            && (forall e :: e in r.updatedCards && e.id == updated.id ==> e == updated)
            && (forall e :: e in s.updatedCards && e.id != updated.id ==> e in r.updatedCards)
  {
    var updated := Srs.UpdateCardSchedule(s.sessionQueue[s.currentIndex], rating, now);
    assert AnsweredIntended(s, rating, now).updatedCards == Upsert(s.updatedCards, updated);
    UpsertRecords(s.updatedCards, updated);
  }

  /** How the handler as written moves the session on. Mid-pass the next card
      is shown unflipped, and a card rated `again` joins the relearning queue.
      At the end of a pass the relearning queue as it stood before the answer
      becomes the next pass from its first card; with none, the session completes. */
  lemma AnsweredAdvances(s: SessionState, rating: Srs.Rating, now: Time)
    requires s.currentIndex < |s.sessionQueue|
    ensures var updated := Srs.UpdateCardSchedule(s.sessionQueue[s.currentIndex], rating, now);
            var r := Answered(s, rating, now);
            && r.updatedCards == Upsert(s.updatedCards, updated)
            && (s.currentIndex < |s.sessionQueue| - 1 ==>
                  && r.sessionQueue == s.sessionQueue
                  && r.currentIndex == s.currentIndex + 1
                  && !r.isFlipped
                  && r.isComplete == s.isComplete
                  && r.relearningQueue == (if rating == Srs.Again then s.relearningQueue + [updated] else s.relearningQueue))
            && (s.currentIndex == |s.sessionQueue| - 1 && s.relearningQueue != [] ==>
                  && r.sessionQueue == s.relearningQueue
                  && r.relearningQueue == []
                  && r.currentIndex == 0
                  && !r.isFlipped
                  && r.isComplete == s.isComplete)
            && (s.currentIndex == |s.sessionQueue| - 1 && s.relearningQueue == [] ==> r.isComplete)
  {
  }

  /** How the corrected transition moves the session on. Mid-pass it is the
      same as the handler. At the end of a pass the relearning queue including
      the card just answered becomes the next pass; the session completes only
      when that queue is empty. */
  lemma AnsweredIntendedAdvances(s: SessionState, rating: Srs.Rating, now: Time)
    requires s.currentIndex < |s.sessionQueue|
    ensures var updated := Srs.UpdateCardSchedule(s.sessionQueue[s.currentIndex], rating, now);
            var relearning := if rating == Srs.Again then s.relearningQueue + [updated] else s.relearningQueue;
            var r := AnsweredIntended(s, rating, now);
            && r.updatedCards == Upsert(s.updatedCards, updated)
            && (s.currentIndex < |s.sessionQueue| - 1 ==>
                  && r.sessionQueue == s.sessionQueue
                  && r.currentIndex == s.currentIndex + 1
                  && !r.isFlipped
                  && r.isComplete == s.isComplete
                  && r.relearningQueue == relearning)
            && (s.currentIndex == |s.sessionQueue| - 1 && relearning != [] ==>
                  && r.sessionQueue == relearning
                  && r.relearningQueue == []
                  && r.currentIndex == 0
                  && !r.isFlipped
                  && r.isComplete == s.isComplete)
            && (s.currentIndex == |s.sessionQueue| - 1 && relearning == [] ==>
                  r.isComplete && r.relearningQueue == [])
  {
  }

  /** The correction changes nothing unless the last card of a pass is rated
      `again`: for any other rating the two transitions agree. */
  lemma IntendedAgreesUnlessAgain(s: SessionState, rating: Srs.Rating, now: Time)
    requires rating != Srs.Again
    ensures AnsweredIntended(s, rating, now) == Answered(s, rating, now)
  {
  }

  /** Mid-pass the two transitions agree for every rating. */
  lemma IntendedAgreesMidPass(s: SessionState, rating: Srs.Rating, now: Time)
    requires s.currentIndex < |s.sessionQueue| - 1
    ensures AnsweredIntended(s, rating, now) == Answered(s, rating, now)
  {
  }

  /** With the intended transition a failed card is always still to come, and
      the session completes only when nothing is waiting to be relearned. */
  lemma IntendedRequeuesFailure(s: SessionState, rating: Srs.Rating, now: Time)
    requires !s.isComplete && s.currentIndex < |s.sessionQueue|
    ensures var r := AnsweredIntended(s, rating, now);
            var updated := Srs.UpdateCardSchedule(s.sessionQueue[s.currentIndex], rating, now);
            && (rating == Srs.Again ==>
                  !r.isComplete && updated in r.sessionQueue[r.currentIndex..] + r.relearningQueue)
            && (r.isComplete ==> r.relearningQueue == [] && s.relearningQueue == [] && rating != Srs.Again)
  {
    var r := AnsweredIntended(s, rating, now);
    var updated := Srs.UpdateCardSchedule(s.sessionQueue[s.currentIndex], rating, now);
    if rating == Srs.Again {
      if s.currentIndex < |s.sessionQueue| - 1 {
        assert updated in r.relearningQueue;
      } else {
        assert r.sessionQueue[r.currentIndex..] == s.relearningQueue + [updated];
      }
    }
  }

  /** With the intended transition, a one-card session answered `again` and
      then `good` completes with a single graded card, in review for one day. */
  lemma IntendedOneCardScenario(card: Card, now: Time, later: Time)
    requires card.state == Some(New)
    ensures var s1 := AnsweredIntended(SessionState([card], [], [], 0, true, false), Srs.Again, now);
            var s2 := AnsweredIntended(s1, Srs.Good, later);
            && !s1.isComplete && s1.sessionQueue == [Srs.UpdateCardSchedule(card, Srs.Again, now)]
            && s2.isComplete
            && |s2.updatedCards| == 1
            && s2.updatedCards[0].id == card.id
            && s2.updatedCards[0].state == Some(Review)
            && s2.updatedCards[0].interval == Some(1.0)
  {
    var relearnt := Srs.UpdateCardSchedule(card, Srs.Again, now);
    Srs.Graduates(relearnt, later);
  }

  /** The session component and its six state fields. `deckIds` and `gradedIds`
      are bookkeeping for the proofs: the ids of the deck's cards and of every
      card answered so far. */
  class StudySession {
    const deckId: string
    var sessionQueue: seq<Card>
    var relearningQueue: seq<Card>
    var updatedCards: seq<Card>
    var currentIndex: nat
    var isFlipped: bool
    var isComplete: bool
    ghost const deckIds: set<string>
    ghost var gradedIds: set<string>

    function State(): SessionState
      reads this
    {
      SessionState(sessionQueue, relearningQueue, updatedCards, currentIndex, isFlipped, isComplete)
    }

    ghost predicate Valid()
      reads this
    {
      Consistent(State(), deckIds) && CardIds(updatedCards) == gradedIds
    }

    /** Opening a session on `deck`, with the end of the current day supplied.
        An empty queue marks the session complete straight away, before any
        card is graded. */
    constructor(deck: Deck, endOfToday: Time)
      ensures Valid()
      ensures deckId == deck.id && deckIds == CardIds(deck.cards)
      ensures exists picked :: InitialQueue(deck.cards, endOfToday, picked, sessionQueue)
      ensures relearningQueue == [] && updatedCards == [] && gradedIds == {}
      ensures currentIndex == 0 && !isFlipped
      ensures isComplete <==> sessionQueue == []
    {
      var picked, queue := BuildQueue(deck.cards, endOfToday);
      QueueWithinDeck(deck.cards, endOfToday, picked, queue);
      forall c | c in queue ensures c in deck.cards {
        assert multiset(queue)[c] > 0;
      }
      deckId := deck.id;
      deckIds := CardIds(deck.cards);
      sessionQueue := queue;
      relearningQueue := [];
      updatedCards := [];
      gradedIds := {};
      currentIndex := 0;
      isFlipped := false;
      isComplete := |queue| == 0;
      new;
      assert InitialQueue(deck.cards, endOfToday, picked, sessionQueue);
    }

    /** Turning the card over; ignored once the session is complete. */
    method Flip()
      requires Valid()
      modifies this
      ensures Valid()
      ensures old(isComplete) ==> State() == old(State())
      ensures !old(isComplete) ==> State() == old(State()).(isFlipped := !old(isFlipped))
      ensures gradedIds == old(gradedIds)
    {
      if isComplete {
        return;
      }
      isFlipped := !isFlipped;
    }

    /** Rating the current card, with the transition corrected so that a card
        failed at the end of a pass is part of the next pass. */
    method Answer(rating: Srs.Rating, now: Time)
      requires Valid()
      modifies this
      ensures Valid()
      ensures State() == AnsweredIntended(old(State()), rating, now)
      ensures old(currentIndex) + 1 < old(|sessionQueue|) ==>
                sessionQueue == old(sessionQueue) && currentIndex == old(currentIndex) + 1 &&
                !isFlipped && isComplete == old(isComplete)
      ensures old(currentIndex) + 1 == old(|sessionQueue|) ==>
                isComplete || (currentIndex == 0 && !isFlipped && relearningQueue == [])
      ensures gradedIds == if old(currentIndex) < old(|sessionQueue|)
                           then old(gradedIds) + {old(sessionQueue[currentIndex]).id}
                           else old(gradedIds)
    {
      AnsweredIntendedKeepsConsistent(State(), rating, now, deckIds);
      if currentIndex >= |sessionQueue| {
        return;
      }
      var card := sessionQueue[currentIndex];
      var updated := Srs.UpdateCardSchedule(card, rating, now);
      var relearning := if rating == Srs.Again then relearningQueue + [updated] else relearningQueue;
      assert card in sessionQueue && updated.id == card.id;
      assert CardIds(Upsert(updatedCards, updated)) == gradedIds + {card.id};
      updatedCards, gradedIds := Upsert(updatedCards, updated), gradedIds + {card.id};
      if currentIndex < |sessionQueue| - 1 {
        relearningQueue, currentIndex, isFlipped := relearning, currentIndex + 1, false;
      } else if |relearning| > 0 {
        sessionQueue, relearningQueue, currentIndex, isFlipped := relearning, [], 0, false;
      } else {
        relearningQueue, isComplete := [], true;
      }
    }

    /** Ending the session, early or after completion: every card graded so
        far, each with its latest grading, goes back for deck `deckId`. */
    method End() returns (id: string, emitted: seq<Card>)
      requires Valid()
      ensures id == deckId && emitted == updatedCards
      ensures DistinctIds(emitted) && CardIds(emitted) == gradedIds
      ensures CardIds(emitted) <= deckIds
    {
      id := deckId;
      emitted := updatedCards;
    }

    /** The keyboard: space turns the card, Home ends the session, End rates
        `good` once the card is turned; nothing reacts once the session is
        complete. */
    method KeyDown(key: Key, now: Time) returns (emitted: Option<(string, seq<Card>)>)
      requires Valid()
      modifies this
      ensures Valid()
      ensures old(isComplete) ==> State() == old(State()) && emitted == None
      ensures !old(isComplete) ==> match key
        case Space => State() == old(State()).(isFlipped := !old(isFlipped)) && emitted == None
        case Home => State() == old(State()) && emitted == Some((deckId, updatedCards))
        case EndKey => emitted == None &&
                       State() == if old(isFlipped) then AnsweredIntended(old(State()), Srs.Good, now) else old(State())
        case Other => State() == old(State()) && emitted == None
    {
      if isComplete {
        return None;
      }
      match key
      case Space =>
        Flip();
        emitted := None;
      case Home =>
        var id, cards := End();
        emitted := Some((id, cards));
      case EndKey =>
        if isFlipped {
          Answer(Srs.Good, now);
        }
        emitted := None;
      case Other =>
        emitted := None;
    }
  }

  datatype Key = Space | Home | EndKey | Other
}

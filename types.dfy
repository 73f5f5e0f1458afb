/** The records shared by every screen of the application: a card with its
    optional scheduling data, and a deck as an ordered list of cards. */
module Types {

  datatype Option<+T> = None | Some(value: T) {
    function GetOr(default: T): T {
      match this
      case Some(v) => v
      case None => default
    }
  }

  datatype Result<+T, +E> = Success(value: T) | Failure(error: E)

  /** Milliseconds since the Unix epoch. */
  type Time = int

  /** The three scheduling states a card may carry. */
  datatype CardState = New | Learning | Review

  /** A flashcard. `due`, `interval` (days) and `state` are optional: cards
      saved by older versions of the application lack them. */
  datatype Card = Card(
    id: string,
    front: string,
    back: string,
    due: Option<Time>,
    interval: Option<real>,
    state: Option<CardState>
  )

  datatype Deck = Deck(id: string, name: string, cards: seq<Card>, color: string)

  /** The instant a card becomes due, reading a missing due date as the epoch. */
  function DueOrEpoch(c: Card): Time {
    c.due.GetOr(0)
  }

  /** A card whose state is exactly `new` (a missing state does not count). */
  predicate IsNew(c: Card) {
    c.state == Some(New)
  }

  function CardIds(cards: seq<Card>): set<string> {
    set c | c in cards :: c.id
  }

  predicate DistinctIds(cards: seq<Card>) {
    forall i, j :: 0 <= i < j < |cards| ==> cards[i].id != cards[j].id
  }

  lemma CardIdsConcat(a: seq<Card>, b: seq<Card>)
    ensures CardIds(a + b) == CardIds(a) + CardIds(b)
  {
    assert forall c :: c in a + b <==> c in a || c in b;
  }

  /** A card put in front of a list with distinct ids, none of them its own,
      keeps the ids distinct. */
  lemma DistinctIdsCons(c: Card, rest: seq<Card>)
    requires DistinctIds(rest) && c.id !in CardIds(rest)
    ensures DistinctIds([c] + rest)
  {
    var s := [c] + rest;
    forall i, j | 0 <= i < j < |s| ensures s[i].id != s[j].id {
      if i == 0 {
        assert s[j] == rest[j - 1] && s[j] in rest;
      } else {
        assert s[i] == rest[i - 1] && s[j] == rest[j - 1];
      }
    }
  }
}

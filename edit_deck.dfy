/** The "edit deck" form: the deck's cards are shown as `front;back` lines,
    and saving re-reads the lines, keeping the id and scheduling data of every
    line that still matches an original card word for word. */
module EditDeck {
  import opened Types
  import opened Seqs
  import opened Text
  import opened CardText

  datatype SaveError = MissingName

  function CardLine(c: Card): string {
    c.front + ";" + c.back
  }

  function SerialisedCardLines(cards: seq<Card>): seq<string> {
    seq(|cards|, i requires 0 <= i < |cards| => CardLine(cards[i]))
  }

  /** No line break in any front or back. */
  predicate NoLineBreaks(cards: seq<Card>) {
    forall c :: c in cards ==> '\n' !in c.front && '\n' !in c.back
  }

  /** The text shown in the form: one `front;back` line per card, joined with
      line breaks. Without line breaks inside the cards, cutting the text at
      its line breaks gives back exactly one line per card. */
  function Serialise(cards: seq<Card>): (r: string)
    ensures cards == [] ==> r == ""
    ensures |cards| > 0 && NoLineBreaks(cards) ==> Split(r, '\n') == SerialisedCardLines(cards)
  {
    var lines := SerialisedCardLines(cards);
    if |cards| > 0 && NoLineBreaks(cards) then
      assert forall p :: p in lines ==> '\n' !in p by {
        forall p | p in lines ensures '\n' !in p {
          var i :| 0 <= i < |lines| && lines[i] == p;
          assert cards[i] in cards;
        }
      }
      SplitJoin(lines, '\n');
      Join(lines, '\n')
    else
      Join(lines, '\n')
  }

  predicate SameFaces(c: Card, front: string, back: string) {
    c.front == front && c.back == back
  }

  /** Position `j` holds the first card with exactly this front and back. */
  predicate FirstMatchAt(cards: seq<Card>, front: string, back: string, j: int) {
    && 0 <= j < |cards| && SameFaces(cards[j], front, back)
    && forall k :: 0 <= k < j ==> !SameFaces(cards[k], front, back)
  }

  /** Looking up an original card by content: the first card with exactly this
      front and back, if any. */
  function FindByContent(cards: seq<Card>, front: string, back: string): (r: Option<Card>)
    ensures r.None? <==> forall c :: c in cards ==> !SameFaces(c, front, back)
    ensures r.Some? ==> exists j :: FirstMatchAt(cards, front, back, j) && cards[j] == r.value
  {
    if |cards| == 0 then None
    else if SameFaces(cards[0], front, back) then
      assert FirstMatchAt(cards, front, back, 0);
      Some(cards[0])
    else
      var r := FindByContent(cards[1..], front, back);
      assert forall c :: c in cards ==> c == cards[0] || c in cards[1..];
      if r.Some? then
        var j :| FirstMatchAt(cards[1..], front, back, j) && cards[1..][j] == r.value;
        assert FirstMatchAt(cards, front, back, j + 1) by {
          forall k | 0 < k < j + 1 ensures !SameFaces(cards[k], front, back) {
            assert cards[k] == cards[1..][k - 1];
          }
        }
        r
      else r
  }

  /** The card read from line `index`, given its front and back: the matched
      original's id (unless empty), state (missing read as `new`), due date and
      interval, or a fresh id, state `new` and no scheduling data. */
  function Reconcile(original: seq<Card>, faces: Faces, index: nat, time: nat): (c: Card)
    ensures c.front == faces.front && c.back == faces.back && c.state.Some?
  {
    var found := FindByContent(original, faces.front, faces.back);
    Card(
      if found.Some? && found.value.id != "" then found.value.id else CardId(time, index),
      faces.front,
      faces.back,
      if found.Some? then found.value.due else None,
      if found.Some? then found.value.interval else None,
      Some(if found.Some? && found.value.state.Some? then found.value.state.value else New))
  }

  /** The front and back read from each non-blank line, in line order. */
  function ParsedLines(text: string): (faces: seq<Faces>)
    ensures |faces| == |CardLines(text)|
    ensures forall i :: 0 <= i < |faces| ==> faces[i] == ParseCardLine(CardLines(text)[i], ';')
  {
    var lines := CardLines(text);
    seq(|lines|, i requires 0 <= i < |lines| => ParseCardLine(lines[i], ';'))
  }

  /** One card per non-blank line, in line order. */
  function EditedCards(original: seq<Card>, text: string, clock: Clock): (cards: seq<Card>)
    ensures |cards| == |CardLines(text)|
    ensures forall i :: 0 <= i < |cards| ==>
              cards[i] == Reconcile(original, ParseCardLine(CardLines(text)[i], ';'), i, clock(i))
  {
    var faces := ParsedLines(text);
    seq(|faces|, i requires 0 <= i < |faces| => Reconcile(original, faces[i], i, clock(i)))
  }

  /** A line matching an original card takes over its id, due date, interval
      and state, and gets a fresh id when the original's id is empty; any other
      line gets a fresh id, state `new` and no scheduling data. */
  lemma ReconcileInherits(original: seq<Card>, faces: Faces, index: nat, time: nat)
    ensures var c := Reconcile(original, faces, index, time);
            var found := FindByContent(original, faces.front, faces.back);
            && (found.None? ==> c.id == CardId(time, index) && c.state == Some(New) && c.due == None && c.interval == None)
            && (found.Some? ==> && c.due == found.value.due && c.interval == found.value.interval
                                && c.state == Some(found.value.state.GetOr(New))
                                && (found.value.id != "" ==> c.id == found.value.id)
                                && (found.value.id == "" ==> c.id == CardId(time, index)))
  {
  }

  /** Two lines with the same front and back that match an original card with an
      id both take that id: the edited deck then holds a repeated id. */
  lemma SameFacesShareId(original: seq<Card>, text: string, clock: Clock, i: nat, j: nat)
    requires i < j < |CardLines(text)| && ParsedLines(text)[i] == ParsedLines(text)[j]
    requires var found := FindByContent(original, ParsedLines(text)[i].front, ParsedLines(text)[i].back);
             found.Some? && found.value.id != ""
    ensures EditedCards(original, text, clock)[i].id == EditedCards(original, text, clock)[j].id
    ensures !DistinctIds(EditedCards(original, text, clock))
  {
    var faces := ParsedLines(text);
    var cards := EditedCards(original, text, clock);
    assert cards[i] == Reconcile(original, faces[i], i, clock(i));
    assert cards[j] == Reconcile(original, faces[j], j, clock(j));
    ReconcileInherits(original, faces[i], i, clock(i));
    ReconcileInherits(original, faces[j], j, clock(j));
  }

  /** Saving: a blank name is refused; otherwise the deck keeps its id and
      colour and takes the new name and the cards read from the text. */
  function SaveEdit(deck: Deck, name: string, text: string, clock: Clock): (r: Result<Deck, SaveError>)
    ensures r.Failure? <==> Trim(name) == ""
    ensures r.Success? ==>
              && r.value.id == deck.id && r.value.color == deck.color
              && r.value.name == name && r.value.cards == EditedCards(deck.cards, text, clock)
  {
    if Trim(name) == "" then Failure(MissingName)
    else Success(deck.(name := name, cards := EditedCards(deck.cards, text, clock)))
  }

  /** The cards for which showing and saving the form unchanged loses nothing:
      no `;` in a front, no line break anywhere, no surrounding whitespace, no
      empty id, and no two cards with the same front and back. */
  predicate Serialisable(cards: seq<Card>) {
    && (forall c :: c in cards ==> SerialisableCard(c))
    && (forall i, j :: 0 <= i < j < |cards| ==> !SameFaces(cards[j], cards[i].front, cards[i].back))
  }

  predicate SerialisableCard(c: Card) {
    && ';' !in c.front && '\n' !in c.front && '\n' !in c.back
    && Trim(c.front) == c.front && Trim(c.back) == c.back
    && c.id != ""
  }

  /** The non-blank lines of the serialised text are exactly the card lines. */
  lemma SerialisedLines(cards: seq<Card>)
    requires forall c :: c in cards ==> SerialisableCard(c)
    ensures CardLines(Serialise(cards)) == SerialisedCardLines(cards)
  {
    var lines := SerialisedCardLines(cards);
    if |cards| == 0 {
      assert Split(Serialise(cards), '\n') == [""];
      TrimBlank("");
    } else {
      forall l | l in lines ensures '\n' !in l && NonBlank(l) {
        var i :| 0 <= i < |lines| && lines[i] == l;
        assert cards[i] in cards;
        CardLineNonBlank(cards[i]);
      }
      SplitJoin(lines, '\n');
      FilterAllKept(lines, NonBlank);
    }
  }

  lemma CardLineNonBlank(c: Card)
    requires SerialisableCard(c)
    ensures '\n' !in CardLine(c) && NonBlank(CardLine(c))
  {
    var l := CardLine(c);
    assert l[|c.front|] == ';';
    TrimBlank(l);
  }

  /** A card's own line reads back as its front and back. */
  lemma ParseOwnLine(c: Card)
    requires SerialisableCard(c)
    ensures ParseCardLine(CardLine(c), ';') == Faces(c.front, c.back)
  {
    ParseJoinedLine(c.front, c.back, ';');
  }

  /** A card's own front and back find the card itself, when no earlier card has
      the same front and back. */
  lemma ReconcileOwnFaces(cards: seq<Card>, i: nat, time: nat)
    requires i < |cards| && cards[i].id != ""
    requires forall k :: 0 <= k < i ==> !SameFaces(cards[k], cards[i].front, cards[i].back)
    ensures Reconcile(cards, Faces(cards[i].front, cards[i].back), i, time)
            == cards[i].(state := Some(cards[i].state.GetOr(New)))
  {
    var found := FindByContent(cards, cards[i].front, cards[i].back);
    assert SameFaces(cards[i], cards[i].front, cards[i].back);
    assert cards[i] in cards;
    var j :| FirstMatchAt(cards, cards[i].front, cards[i].back, j) && cards[j] == found.value;
    assert j == i;
  }

  /** Saving the form as it was opened gives back every card with its id,
      front, back, due date and interval; a missing state comes back as `new`. */
  lemma RoundTrip(cards: seq<Card>, clock: Clock)
    requires Serialisable(cards)
    ensures |EditedCards(cards, Serialise(cards), clock)| == |cards|
    ensures forall i :: 0 <= i < |cards| ==>
              EditedCards(cards, Serialise(cards), clock)[i] == cards[i].(state := Some(cards[i].state.GetOr(New)))
  {
    SerialisedLines(cards);
    forall i | 0 <= i < |cards|
      ensures EditedCards(cards, Serialise(cards), clock)[i] == cards[i].(state := Some(cards[i].state.GetOr(New)))
    {
      assert cards[i] in cards;
      ParseOwnLine(cards[i]);
      assert ParsedLines(Serialise(cards))[i] == Faces(cards[i].front, cards[i].back);
      ReconcileOwnFaces(cards, i, clock(i));
    }
  }
}

/** The "create deck" form: a name and a text area with one `front;back` card
    per line. The clock readings used in ids and the random draw for the colour
    are supplied. */
module CreateDeck {
  import opened Types
  import opened Text
  import opened CardText

  datatype CreateForm = CreateForm(deckName: string, cardsText: string, aiTopic: string, isGenerating: bool)

  datatype SaveError = MissingName

  /** The form as it is after closing: every field cleared. */
  const ClearedForm: CreateForm := CreateForm("", "", "", false)

  /** One new card per non-blank line, in line order. */
  function CreatedCards(text: string, clock: Clock): (cards: seq<Card>)
    ensures |cards| == |CardLines(text)|
    ensures forall i :: 0 <= i < |cards| ==>
              && cards[i].id == CardId(clock(i), i)
              && Faces(cards[i].front, cards[i].back) == ParseCardLine(CardLines(text)[i], ';')
              && cards[i].state == Some(New) && cards[i].due == None && cards[i].interval == None
  {
    var lines := CardLines(text);
    seq(|lines|, i requires 0 <= i < |lines| =>
      var faces := ParseCardLine(lines[i], ';');
      Card(CardId(clock(i), i), faces.front, faces.back, None, None, Some(New)))
  }

  /** The cards of a new deck never share an id, whatever the clock reads for
      each of them. */
  lemma CreatedCardsDistinct(text: string, clock: Clock)
    ensures DistinctIds(CreatedCards(text, clock))
  {
    var cards := CreatedCards(text, clock);
    forall i, j | 0 <= i < j < |cards| ensures cards[i].id != cards[j].id {
      if cards[i].id == cards[j].id {
        CardIdInjective(clock(i), i, clock(j), j);
      }
    }
  }

  /** Saving: a blank name is refused; otherwise a deck with the entered
      name, the parsed cards and a palette colour. The deck id takes a clock
      reading of its own, `deckTime`. */
  function SaveDeck(name: string, text: string, clock: Clock, deckTime: nat, random: real): (r: Result<Deck, SaveError>)
    requires 0.0 <= random < 1.0
    ensures r.Failure? <==> Trim(name) == ""
    ensures r.Success? ==>
              && r.value.id == DeckId(deckTime)
              && r.value.name == name
              && r.value.cards == CreatedCards(text, clock)
              && r.value.color in ColorOptions
  {
    if Trim(name) == "" then Failure(MissingName)
    else Success(Deck(DeckId(deckTime), name, CreatedCards(text, clock), RandomColor(random)))
  }

  /** Closing the form clears every field, whatever it held. */
  function Close(form: CreateForm): (r: CreateForm)
    ensures r.deckName == "" && r.cardsText == "" && r.aiTopic == "" && !r.isGenerating
  {
    ClearedForm
  }

  /** Pressing save: on success the deck goes out and the form is cleared; on a
      blank name nothing goes out and the form is left as it was. */
  function HandleSave(form: CreateForm, clock: Clock, deckTime: nat, random: real): (r: (Result<Deck, SaveError>, CreateForm))
    requires 0.0 <= random < 1.0
    ensures r.0 == SaveDeck(form.deckName, form.cardsText, clock, deckTime, random)
    ensures r.0.Success? ==> r.1 == ClearedForm
    ensures r.0.Failure? ==> r.1 == form
  {
    var saved := SaveDeck(form.deckName, form.cardsText, clock, deckTime, random);
    if saved.Success? then (saved, Close(form)) else (saved, form)
  }
}

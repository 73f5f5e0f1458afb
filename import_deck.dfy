/** The "import deck" form: a text file with one card per line, `front;back`
    or `front,back`, is read into a list of fronts and backs, and saving turns
    them into a new deck. Reading the file is left out: the model starts from
    its text. The clock reading and the random draw are supplied. */
module ImportDeck {
  import opened Types
  import opened Seqs
  import opened Text
  import opened CardText

  /** Drops one carriage return at the end of a line, if there is one. */
  function DropCR(p: string): (r: string)
    ensures r == p || (p == r + ['\r'])
    ensures |r| <= |p| && forall k :: 0 <= k < |r| ==> r[k] == p[k]
  {
    if |p| > 0 && p[|p| - 1] == '\r' then p[..|p| - 1] else p
  }

  /** Splitting on a line feed optionally preceded by a carriage return: the
      text is cut at every line feed, and a carriage return just before a cut
      goes with the line ending. */
  function SplitLines(content: string): (lines: seq<string>)
    ensures |lines| >= 1
    ensures forall l :: l in lines ==> '\n' !in l
  {
    var parts := Split(content, '\n');
    var lines := seq(|parts|, i requires 0 <= i < |parts| => if i < |parts| - 1 then DropCR(parts[i]) else parts[i]);
    assert forall l :: l in lines ==> '\n' !in l by {
      forall i, k | 0 <= i < |lines| && 0 <= k < |lines[i]| ensures lines[i][k] != '\n' {
        assert parts[i] in parts;
        assert lines[i][k] == parts[i][k];
      }
    }
    lines
  }

  /** A line ended by a line feed comes off first, without a carriage return
      that ends it. */
  lemma SplitLinesAfterLine(a: string, rest: string)
    requires '\n' !in a
    ensures SplitLines(a + "\n" + rest) == [DropCR(a)] + SplitLines(rest)
  {
    SplitAfterField(a, rest, '\n');
  }

  /** A line ended by CR LF reads the same as one ended by LF. */
  lemma CrLfAsLf(a: string, rest: string)
    requires '\n' !in a
    ensures SplitLines(a + "\r\n" + rest) == [a] + SplitLines(rest)
  {
    assert a + "\r\n" + rest == (a + "\r") + "\n" + rest;
    assert '\n' !in a + "\r" by {
      forall i | 0 <= i < |a + "\r"| ensures (a + "\r")[i] != '\n' {
        if i < |a| { assert (a + "\r")[i] == a[i]; }
      }
    }
    SplitLinesAfterLine(a + "\r", rest);
    assert DropCR(a + "\r") == a;
  }

  /** The non-blank lines of the file. */
  function ImportLines(content: string): (lines: seq<string>)
    ensures forall l :: l in lines ==> NonBlank(l) && '\n' !in l
    ensures |lines| <= |SplitLines(content)|
  {
    Filter(SplitLines(content), NonBlank)
  }

  /** A line ended by a line feed, without a carriage return that ends it,
      comes first if it is not blank, followed by the non-blank lines of the
      rest: every non-blank line is kept, in order. */
  lemma ImportLinesAfterLine(a: string, rest: string)
    requires '\n' !in a
    ensures ImportLines(a + "\n" + rest) == (if NonBlank(DropCR(a)) then [DropCR(a)] else []) + ImportLines(rest)
  {
    SplitLinesAfterLine(a, rest);
    FilterConcat([DropCR(a)], SplitLines(rest), NonBlank);
  }

  /** The last line, with no line feed after it, is kept as it is exactly when
      it is not blank. */
  lemma ImportLinesLastLine(a: string)
    requires '\n' !in a
    ensures ImportLines(a) == if NonBlank(a) then [a] else []
  {
    SplitNoSeparator(a, '\n');
    assert SplitLines(a) == [a];
  }

  /** The delimiter is a semicolon when the first non-blank line has one, and a
      comma otherwise. */
  function Delimiter(lines: seq<string>): (d: char)
    requires |lines| > 0
    ensures d == ';' <==> ';' in lines[0]
    ensures d == ',' <==> ';' !in lines[0]
  {
    if ';' in lines[0] then ';' else ','
  }

  /** A line splits into at least two fields on the delimiter. */
  function HasDelimiter(d: char): string -> bool {
    (line: string) => |Split(line, d)| >= 2
  }

  /** Reading one line as a card with a given delimiter. */
  function LineParser(d: char): string -> Faces {
    (line: string) => ParseCardLine(line, d)
  }

  /** The cards read from the lines that contain the delimiter, in line order;
      the others are skipped. */
  function ParseWith(lines: seq<string>, d: char): (cards: seq<Faces>)
    ensures |cards| <= |lines|
  {
    Map(Filter(lines, HasDelimiter(d)), LineParser(d))
  }

  /** Parsing keeps line order: the cards of two blocks of lines are the cards
      of the first block followed by those of the second. */
  lemma ParseWithConcat(a: seq<string>, b: seq<string>, d: char)
    ensures ParseWith(a + b, d) == ParseWith(a, d) + ParseWith(b, d)
  {
    FilterConcat(a, b, HasDelimiter(d));
    MapConcat(Filter(a, HasDelimiter(d)), Filter(b, HasDelimiter(d)), LineParser(d));
  }

  /** Every card read comes from a line containing the delimiter: the front is
      the text before its first delimiter, the back the text after it, both
      trimmed. A line without the delimiter gives no card. */
  lemma ParseWithCards(lines: seq<string>, d: char, i: nat)
    requires i < |ParseWith(lines, d)|
    ensures var line := Filter(lines, HasDelimiter(d))[i];
            && line in lines && d in line
            && ParseWith(lines, d)[i] == Faces(Trim(line[..FirstIndex(line, d)]), Trim(line[FirstIndex(line, d) + 1..]))
  {
    var kept := Filter(lines, HasDelimiter(d));
    var line := kept[i];
    assert line in kept;
    assert HasDelimiter(d)(line);
    assert ParseWith(lines, d)[i] == LineParser(d)(line);
    KeptLineFields(line, d);
  }

  lemma KeptLineFields(line: string, d: char)
    requires |Split(line, d)| >= 2
    ensures d in line
    ensures ParseCardLine(line, d) == Faces(Trim(line[..FirstIndex(line, d)]), Trim(line[FirstIndex(line, d) + 1..]))
  {
    SplitFirstField(line, d);
    ParseCardLineAtFirst(line, d);
  }

  /** No card is read exactly when no line contains the delimiter. */
  lemma ParseWithEmpty(lines: seq<string>, d: char)
    ensures ParseWith(lines, d) == [] <==> forall line :: line in lines ==> d !in line
  {
    var kept := Filter(lines, HasDelimiter(d));
    forall line | line in lines ensures HasDelimiter(d)(line) <==> d in line {
      SplitFirstField(line, d);
    }
    if kept != [] {
      assert kept[0] in kept;
    }
  }

  datatype ImportError = EmptyFile | NoValidCards

  function Message(e: ImportError): string {
    match e
    case EmptyFile => "File is empty or contains no valid lines."
    case NoValidCards => "Could not parse any valid cards from the file."
  }

  /** The parsing pipeline run once the file's text is read. */
  function ParseImport(content: string): (r: Result<seq<Faces>, ImportError>)
    ensures r == Failure(EmptyFile) <==> ImportLines(content) == []
    ensures r == Failure(NoValidCards) <==>
              ImportLines(content) != [] && ParseWith(ImportLines(content), Delimiter(ImportLines(content))) == []
    ensures r.Success? ==> r.value == ParseWith(ImportLines(content), Delimiter(ImportLines(content)))
    ensures r.Success? ==> 0 < |r.value| <= |ImportLines(content)|
  {
    var lines := ImportLines(content);
    if |lines| == 0 then Failure(EmptyFile)
    else
      var cards := ParseWith(lines, Delimiter(lines));
      if |cards| == 0 then Failure(NoValidCards) else Success(cards)
  }

  /** The text is all whitespace exactly when each of its lines is. */
  lemma SplitLinesAllWhitespace(content: string)
    ensures AllWhitespace(content) <==> forall l :: l in SplitLines(content) ==> AllWhitespace(l)
  {
    var parts := Split(content, '\n');
    var lines := SplitLines(content);
    SplitAllWhitespace(content, '\n');
    forall i | 0 <= i < |parts| ensures AllWhitespace(parts[i]) <==> AllWhitespace(lines[i]) {
      if lines[i] != parts[i] {
        AllWhitespaceConcat(lines[i], ['\r']);
      }
    }
    if !AllWhitespace(content) {
      var p :| p in parts && !AllWhitespace(p);
      var i :| 0 <= i < |parts| && parts[i] == p;
      assert lines[i] in lines;
    } else {
      forall l | l in lines ensures AllWhitespace(l) {
        var i :| 0 <= i < |lines| && lines[i] == l;
        assert parts[i] in parts;
      }
    }
  }

  /** The file is refused as empty exactly when it holds nothing but
      whitespace and line breaks. */
  lemma EmptyFileIffBlank(content: string)
    ensures ParseImport(content) == Failure(EmptyFile) <==> AllWhitespace(content)
  {
    var lines := SplitLines(content);
    SplitLinesAllWhitespace(content);
    forall l | l in lines ensures !NonBlank(l) <==> AllWhitespace(l) {
      TrimBlank(l);
    }
    FilterEmpty(lines, NonBlank);
  }

  /** A file with non-blank lines but no delimiter in any of them is refused as
      having no valid cards. */
  lemma NoDelimiterNoCards(content: string)
    requires ImportLines(content) != []
    requires forall l :: l in ImportLines(content) ==> Delimiter(ImportLines(content)) !in l
    ensures ParseImport(content) == Failure(NoValidCards)
  {
    ParseWithEmpty(ImportLines(content), Delimiter(ImportLines(content)));
  }

  datatype ImportForm = ImportForm(
    deckName: string,
    fileName: Option<string>,
    parsedCards: seq<Faces>,
    isParsing: bool,
    error: Option<string>)

  const ResetForm: ImportForm := ImportForm("", None, [], false, None)

  /** A file was picked: parsing starts with the previous error and cards
      cleared. Picking nothing leaves the form as it was. */
  function FileChosen(form: ImportForm, file: Option<string>): (r: ImportForm)
    ensures file.None? ==> r == form
    ensures file.Some? ==> r == form.(fileName := file, parsedCards := [], isParsing := true, error := None)
  {
    if file.None? then form
    else form.(fileName := file, parsedCards := [], isParsing := true, error := None)
  }

  /** The file's text has been read: either the cards are kept, or the error
      message is shown and the file name cleared. Parsing is over either way. */
  function Loaded(form: ImportForm, content: string): (r: ImportForm)
    ensures !r.isParsing && r.deckName == form.deckName
    ensures ParseImport(content).Success? ==>
              r == form.(parsedCards := ParseImport(content).value, isParsing := false)
    ensures ParseImport(content).Failure? ==>
              r == form.(error := Some(Message(ParseImport(content).error)), fileName := None, isParsing := false)
  {
    match ParseImport(content)
    case Success(cards) => form.(parsedCards := cards, isParsing := false)
    case Failure(e) => form.(error := Some(Message(e)), fileName := None, isParsing := false)
  }

  /** The file could not be read. */
  function ReadFailed(form: ImportForm): (r: ImportForm)
    ensures r == form.(error := Some("Failed to read the file."), isParsing := false, fileName := None)
  {
    form.(error := Some("Failed to read the file."), isParsing := false, fileName := None)
  }

  /** After a file is picked and read, exactly one of two things shows: an
      error with no file name, or a non-empty list of cards with the file's
      name. */
  lemma LoadedFormConsistent(form: ImportForm, name: string, content: string)
    ensures var r := Loaded(FileChosen(form, Some(name)), content);
            && !r.isParsing
            && (r.error.None? <==> |r.parsedCards| > 0)
            && (r.error.None? <==> r.fileName == Some(name))
  {
  }

  /** The import button is greyed out: always while the file is being read,
      and it is enabled only with a non-blank name and at least one card. */
  function ImportDisabled(form: ImportForm): (disabled: bool)
    ensures form.isParsing ==> disabled
    ensures !disabled ==> Trim(form.deckName) != "" && |form.parsedCards| > 0
  {
    Trim(form.deckName) == "" || |form.parsedCards| == 0 || form.isParsing
  }

  datatype SaveError = MissingName | NoCards

  /** Each parsed card becomes a `new` card with an id from its position and
      the clock reading taken for it. */
  function ImportedCards(parsed: seq<Faces>, clock: Clock): (cards: seq<Card>)
    ensures |cards| == |parsed|
    ensures forall i :: 0 <= i < |cards| ==>
              && cards[i].id == CardId(clock(i), i)
              && cards[i].front == parsed[i].front && cards[i].back == parsed[i].back
              && cards[i].state == Some(New) && cards[i].due == None && cards[i].interval == None
  {
    seq(|parsed|, i requires 0 <= i < |parsed| => Card(CardId(clock(i), i), parsed[i].front, parsed[i].back, None, None, Some(New)))
  }

  /** The imported cards never share an id, whatever the clock reads for each
      of them. */
  lemma ImportedCardsDistinct(parsed: seq<Faces>, clock: Clock)
    ensures DistinctIds(ImportedCards(parsed, clock))
  {
    var cards := ImportedCards(parsed, clock);
    forall i, j | 0 <= i < j < |cards| ensures cards[i].id != cards[j].id {
      if cards[i].id == cards[j].id {
        CardIdInjective(clock(i), i, clock(j), j);
      }
    }
  }

  /** Saving: a blank name is refused first, then an empty card list;
      otherwise the new deck, whose id takes a clock reading of its own. */
  function ImportSave(form: ImportForm, clock: Clock, deckTime: nat, random: real): (r: Result<Deck, SaveError>)
    requires 0.0 <= random < 1.0
    ensures r == Failure(MissingName) <==> Trim(form.deckName) == ""
    ensures r == Failure(NoCards) <==> Trim(form.deckName) != "" && |form.parsedCards| == 0
    ensures r.Success? ==>
              && r.value.id == DeckId(deckTime) && r.value.name == form.deckName
              && r.value.cards == ImportedCards(form.parsedCards, clock)
              && r.value.color in ColorOptions
  {
    if Trim(form.deckName) == "" then Failure(MissingName)
    else if |form.parsedCards| == 0 then Failure(NoCards)
    else Success(Deck(DeckId(deckTime), form.deckName, ImportedCards(form.parsedCards, clock), RandomColor(random)))
  }

  /** Once parsing is over, the button is greyed out exactly when saving would
      be refused. */
  lemma DisabledIffRefused(form: ImportForm, clock: Clock, deckTime: nat, random: real)
    requires 0.0 <= random < 1.0 && !form.isParsing
    ensures ImportDisabled(form) <==> ImportSave(form, clock, deckTime, random).Failure?
  {
  }

  /** Pressing save: on success the deck goes out and the form is reset; when
      refused the form is left as it was. */
  function HandleSave(form: ImportForm, clock: Clock, deckTime: nat, random: real): (r: (Result<Deck, SaveError>, ImportForm))
    requires 0.0 <= random < 1.0
    ensures r.0 == ImportSave(form, clock, deckTime, random)
    ensures r.0.Success? ==> r.1 == ResetForm
    ensures r.0.Failure? ==> r.1 == form
  {
    var saved := ImportSave(form, clock, deckTime, random);
    if saved.Success? then (saved, ResetForm) else (saved, form)
  }
}


/** What the three deck forms share: reading one line of text as the front and
    back of a card, the non-blank lines of a text area, generated card ids, and
    the colour palette for new decks. */
module CardText {
  import opened Types
  import opened Seqs
  import opened Text

  datatype Faces = Faces(front: string, back: string)

  /** A line that is not empty once surrounding whitespace is removed. */
  predicate NonBlank(line: string) {
    Trim(line) != ""
  }

  /** A line cut at every `d`: the first field, trimmed, is the front; the
      remaining fields joined back with `d` and trimmed are the back. */
  function ParseCardLine(line: string, d: char): (f: Faces)
    ensures Trim(f.front) == f.front && Trim(f.back) == f.back
  {
    var parts := Split(line, d);
    TrimIdempotent(parts[0]);
    TrimIdempotent(Join(parts[1..], d));
    Faces(Trim(parts[0]), Trim(Join(parts[1..], d)))
  }

  /** The line is cut at its first delimiter; without one, the whole line is the
      front and the back is empty. */
  lemma ParseCardLineAtFirst(line: string, d: char)
    ensures d !in line ==> ParseCardLine(line, d) == Faces(Trim(line), "")
    ensures d in line ==>
              ParseCardLine(line, d)
              == Faces(Trim(line[..FirstIndex(line, d)]), Trim(line[FirstIndex(line, d) + 1..]))
  {
    SplitFirstField(line, d);
  }

  /** A front without the delimiter, followed by the delimiter and a back, reads
      back as that front and back, trimmed. */
  lemma ParseJoinedLine(front: string, back: string, d: char)
    requires d !in front
    ensures ParseCardLine(front + [d] + back, d) == Faces(Trim(front), Trim(back))
  {
    SplitAfterField(front, back, d);
    assert Split(front + [d] + back, d)[1..] == Split(back, d);
    JoinSplit(back, d);
  }

  /** The lines of a text, without the blank ones, in order. */
  function CardLines(text: string): (lines: seq<string>)
    ensures forall l :: l in lines ==> NonBlank(l) && '\n' !in l
  {
    Filter(Split(text, '\n'), NonBlank)
  }

  /** A line ended by a line feed comes first, if it is not blank, followed by
      the non-blank lines of the rest: every non-blank line is kept, in order. */
  lemma CardLinesAfterLine(a: string, rest: string)
    requires '\n' !in a
    ensures CardLines(a + "\n" + rest) == (if NonBlank(a) then [a] else []) + CardLines(rest)
  {
    SplitAfterField(a, rest, '\n');
    FilterConcat([a], Split(rest, '\n'), NonBlank);
  }

  /** The last line, with no line feed after it, is kept exactly when it is not
      blank. */
  lemma CardLinesLastLine(a: string)
    requires '\n' !in a
    ensures CardLines(a) == if NonBlank(a) then [a] else []
  {
    SplitNoSeparator(a, '\n');
  }

  /** The clock reading, in milliseconds, taken while building the card at
      each position: the forms read the clock once per generated id. */
  type Clock = nat -> nat

  /** A new card's id: `c-`, a clock reading in milliseconds, `-`, and the
      card's line index, both in decimal. */
  function CardId(time: nat, index: nat): string {
    "c-" + NatToString(time) + "-" + NatToString(index)
  }

  /** A new deck's id: `d-` and a clock reading in milliseconds, in decimal. */
  function DeckId(time: nat): string {
    "d-" + NatToString(time)
  }

  /** A decimal numeral holds no `-`. */
  lemma NoDashInNumeral(n: nat)
    ensures '-' !in NatToString(n)
  {
    var s := NatToString(n);
    forall i | 0 <= i < |s| ensures s[i] != '-' {
      assert '0' <= s[i] <= '9';
    }
  }

  /** An id determines both its clock reading and its position, so ids made
      for different positions differ whatever the clock reads for each. */
  lemma CardIdInjective(t1: nat, i: nat, t2: nat, j: nat)
    requires CardId(t1, i) == CardId(t2, j)
    ensures t1 == t2 && i == j
  {
    var a1, b1 := NatToString(t1), NatToString(i);
    var a2, b2 := NatToString(t2), NatToString(j);
    var r1, r2 := a1 + ['-'] + b1, a2 + ['-'] + b2;
    assert CardId(t1, i) == "c-" + r1;
    assert CardId(t2, j) == "c-" + r2;
    assert r1 == CardId(t1, i)[2..] == CardId(t2, j)[2..] == r2;
    NoDashInNumeral(t1);
    NoDashInNumeral(t2);
    SplitAfterField(a1, b1, '-');
    SplitAfterField(a2, b2, '-');
    assert a1 == Split(r1, '-')[0] == Split(r2, '-')[0] == a2;
    assert b1 == r1[|a1| + 1..];
    assert b2 == r2[|a2| + 1..];
    NatToStringInjective(t1, t2);
    NatToStringInjective(i, j);
  }

  const ColorOptions: seq<string> := [
    "bg-red-500", "bg-orange-500", "bg-amber-500", "bg-yellow-500",
    "bg-lime-500", "bg-green-500", "bg-emerald-500", "bg-teal-500",
    "bg-cyan-500", "bg-sky-500", "bg-blue-500", "bg-indigo-500",
    "bg-violet-500", "bg-purple-500", "bg-fuchsia-500", "bg-pink-500", "bg-rose-500"
  ]

  /** A palette colour picked by a uniform random draw in [0, 1), which is
      supplied, scaled to the palette size and rounded down. */
  function RandomColor(random: real): (color: string)
    requires 0.0 <= random < 1.0
    ensures color in ColorOptions
  {
    var k := (random * |ColorOptions| as real).Floor;
    assert 0 <= k < |ColorOptions|;
    ColorOptions[k]
  }
}

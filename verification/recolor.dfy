/**
 The recolouring step the popup injects into a page (`changeFontColor`), for one
 paragraph: its markup is cut at every '>', each piece is cut at its first '<'
 into text and tag, the text becomes one coloured span per space-separated
 word, and the tag becomes one uncoloured span with its '>' restored.
 */
module Recolor {
  import opened Strings

  /** A generated `<span>`: a coloured word (with its trailing space) or a piece of markup. */
  datatype Span = Word(text: string, color: string) | Markup(text: string)

  /**
   The colour choice `Math.floor(Math.random() * colors.length)`, made for word
   `w` of piece `p`. Any choice is allowed; it is reduced into range, so every
   in-range index can be chosen.
   */
  type Chooser = (nat, nat) -> nat

  /** Every word span is coloured from `colors`. */
  predicate ColouredFrom(spans: seq<Span>, colors: seq<string>)
  {
    forall s :: s in spans && s.Word? ==> s.color in colors
  }

  function Pick(colors: seq<string>, pick: Chooser, piece: nat, word: nat): (c: string)
    requires |colors| >= 1
    ensures c in colors
  {
    colors[pick(piece, word) % |colors|]
  }

  /** The text of a piece: everything before its first '<'. */
  function Content(piece: string): (r: string)
    ensures '<' !in r
    ensures r <= piece
    ensures '<' !in piece <==> r == piece
    ensures '<' in piece ==> piece[|r|] == '<'
  {
    match IndexOf(piece, '<')
    case None => piece
    case Some(i) => piece[..i]
  }

  /** One span per word, each the word followed by a space, in a palette colour. */
  function WordSpans(words: seq<string>, colors: seq<string>, pick: Chooser, piece: nat): (r: seq<Span>)
    requires |colors| >= 1
    ensures |r| == |words|
    ensures forall w :: 0 <= w < |r| ==> r[w] == Word(words[w] + " ", Pick(colors, pick, piece, w))
    decreases |words|
  {
    if |words| == 0 then []
    else
      var n := |words| - 1;
      WordSpans(words[..n], colors, pick, piece) + [Word(words[n] + " ", Pick(colors, pick, piece, n))]
  }

  /**
   The spans of one '>'-piece: word spans for a non-empty text part, then, when
   the piece holds a '<', one markup span from that '<' on, closed by '>'.
   */
  function PieceSpans(piece: string, colors: seq<string>, pick: Chooser, index: nat): (r: seq<Span>)
    requires |colors| >= 1
    ensures ColouredFrom(r, colors)
  {
    var ind := IndexOf(piece, '<');
    var content := if ind.None? then piece else piece[..ind.value];
    var words := if |content| > 0 then WordSpans(Split(content, ' '), colors, pick, index) else [];
    if ind.None? then words else words + [Markup(piece[ind.value..] + ">")]
  }

  /** The spans of each '>'-piece, piece `k` numbered `k`. */
  function PiecesSpans(pieces: seq<string>, colors: seq<string>, pick: Chooser): (r: seq<seq<Span>>)
    requires |colors| >= 1
    ensures |r| == |pieces|
    ensures forall k :: 0 <= k < |r| ==> r[k] == PieceSpans(pieces[k], colors, pick, k)
    decreases |pieces|
  {
    if |pieces| == 0 then []
    else
      var n := |pieces| - 1;
      PiecesSpans(pieces[..n], colors, pick) + [PieceSpans(pieces[n], colors, pick, n)]
  }

  /** The parts one after another. */
  function Flatten(parts: seq<seq<Span>>): seq<Span>
    decreases |parts|
  {
    if |parts| == 0 then [] else Flatten(parts[..|parts| - 1]) + parts[|parts| - 1]
  }

  /** Concatenating parts coloured from a palette gives spans coloured from it. */
  lemma {:induction false} FlattenColoured(parts: seq<seq<Span>>, colors: seq<string>)
    requires forall k :: 0 <= k < |parts| ==> ColouredFrom(parts[k], colors)
    ensures ColouredFrom(Flatten(parts), colors)
    decreases |parts|
  {
    if |parts| > 0 {
      FlattenColoured(parts[..|parts| - 1], colors);
    }
  }

  /** When each part holds one markup span per tagged piece, so does their concatenation. */
  lemma {:induction false} FlattenMarkup(parts: seq<seq<Span>>, pieces: seq<string>)
    requires |parts| == |pieces|
    requires forall k :: 0 <= k < |parts| ==> CountMarkup(parts[k]) == if '<' in pieces[k] then 1 else 0
    ensures CountMarkup(Flatten(parts)) == CountTagged(pieces)
    decreases |parts|
  {
    if |parts| > 0 {
      var n := |parts| - 1;
      FlattenMarkup(parts[..n], pieces[..n]);
      CountMarkupAppend(Flatten(parts[..n]), parts[n]);
    }
  }

  /** The spans a paragraph's markup is replaced by. */
  function Segment(markup: string, palette: string, pick: Chooser): seq<Span>
  {
    Flatten(PiecesSpans(Split(markup, '>'), Split(palette, '|'), pick))
  }

  /**
   Every word of a recoloured paragraph is coloured from the '|'-separated
   palette, and there is one markup span per '>'-piece that holds a tag.
   */
  lemma SegmentColoursAndMarkup(markup: string, palette: string, pick: Chooser)
    ensures ColouredFrom(Segment(markup, palette, pick), Split(palette, '|'))
    ensures CountMarkup(Segment(markup, palette, pick)) == CountTagged(Split(markup, '>'))
  {
    var pieces := Split(markup, '>');
    var colors := Split(palette, '|');
    var parts := PiecesSpans(pieces, colors, pick);
    forall k | 0 <= k < |parts|
      ensures ColouredFrom(parts[k], colors)
      ensures CountMarkup(parts[k]) == if '<' in pieces[k] then 1 else 0
    {
      PieceMarkupCount(pieces[k], colors, pick, k);
    }
    FlattenColoured(parts, colors);
    FlattenMarkup(parts, pieces);
  }

  /** The loop of the injected script for one paragraph, computing `Segment`. */
  method RecolorParagraph(innerHtml: string, colorsStr: string, pick: Chooser) returns (spans: seq<Span>)
    ensures spans == Segment(innerHtml, colorsStr, pick)
  {
    var colors := Split(colorsStr, '|');
    var allText := Split(innerHtml, '>');
    ghost var parts := PiecesSpans(allText, colors, pick);
    spans := [];
    var iText := 0;
    while iText < |allText|
      invariant iText <= |allText|
      invariant spans == Flatten(parts[..iText])
    {
      var pieceSpans := RecolorPiece(allText[iText], colors, pick, iText);
      PieceByContent(allText[iText], colors, pick, iText);
      assert parts[..iText + 1][..iText] == parts[..iText];
      spans := spans + pieceSpans;
      iText := iText + 1;
    }
    assert parts[..|allText|] == parts;
  }

  /**
   The body of the script's piece loop: the words of the text before the first
   '<', each with a trailing space, then, when there is a '<', the rest of the
   piece closed by '>'.
   */
  method RecolorPiece(text: string, colors: seq<string>, pick: Chooser, iText: nat) returns (spans: seq<Span>)
    requires |colors| >= 1
    ensures spans == (if Content(text) == "" then [] else WordSpans(Split(Content(text), ' '), colors, pick, iText))
                   + (if '<' in text then [Markup(text[|Content(text)|..] + ">")] else [])
  {
    var ind := IndexOf(text, '<');
    var content := if ind.None? then text else text[..ind.value];
    spans := [];
    if |content| > 0 {
      spans := ColourWords(Split(content, ' '), colors, pick, iText);
    }
    if ind.Some? {
      spans := spans + [Markup(text[ind.value..] + ">")];
    }
  }

  /** The inner loop of the injected script: one coloured span per word of a piece's text. */
  method ColourWords(words: seq<string>, colors: seq<string>, pick: Chooser, iText: nat) returns (spans: seq<Span>)
    requires |colors| >= 1
    ensures spans == WordSpans(words, colors, pick, iText)
  {
    ghost var coloured := WordSpans(words, colors, pick, iText);
    spans := [];
    var iWord := 0;
    while iWord < |words|
      invariant iWord <= |words|
      invariant spans == coloured[..iWord]
    {
      var word := words[iWord];
      spans := spans + [Word(word + " ", Pick(colors, pick, iText, iWord))];
      assert coloured[..iWord + 1] == coloured[..iWord] + [coloured[iWord]];
      iWord := iWord + 1;
    }
    assert coloured[..iWord] == coloured;
  }

  // Counting and spelling out spans.

  /** The number of markup spans. */
  function CountMarkup(spans: seq<Span>): nat
    decreases |spans|
  {
    if |spans| == 0 then 0
    else CountMarkup(spans[..|spans| - 1]) + (if spans[|spans| - 1].Markup? then 1 else 0)
  }

  /** The number of pieces that contain a '<'. */
  function CountTagged(pieces: seq<string>): nat
    decreases |pieces|
  {
    if |pieces| == 0 then 0
    else CountTagged(pieces[..|pieces| - 1]) + (if '<' in pieces[|pieces| - 1] then 1 else 0)
  }

  lemma {:induction false} CountMarkupAppend(a: seq<Span>, b: seq<Span>)
    ensures CountMarkup(a + b) == CountMarkup(a) + CountMarkup(b)
    decreases |b|
  {
    if |b| > 0 {
      assert (a + b)[..|a + b| - 1] == a + b[..|b| - 1];
      CountMarkupAppend(a, b[..|b| - 1]);
    } else {
      assert a + b == a;
    }
  }

  lemma {:induction false} CountMarkupOfWords(spans: seq<Span>)
    requires forall k :: 0 <= k < |spans| ==> spans[k].Word?
    ensures CountMarkup(spans) == 0
    decreases |spans|
  {
    if |spans| > 0 {
      CountMarkupOfWords(spans[..|spans| - 1]);
    }
  }

  /**
   A piece without '<' gives only word spans, one per space-separated field of
   a non-empty piece; a piece with '<' gives the word spans of its text part and
   then one markup span: the piece from its first '<' on, followed by '>'.
   */
  lemma PieceShape(piece: string, colors: seq<string>, pick: Chooser, index: nat)
    requires |colors| >= 1
    ensures var r := PieceSpans(piece, colors, pick, index);
      '<' !in piece ==>
        && |r| == (if piece == "" then 0 else |Split(piece, ' ')|)
        && forall k :: 0 <= k < |r| ==> r[k].Word? && r[k].text == Split(piece, ' ')[k] + " "
    ensures var r := PieceSpans(piece, colors, pick, index);
      '<' in piece ==>
        && |r| >= 1
        && r[|r| - 1] == Markup(piece[|Content(piece)|..] + ">")
        && forall k :: 0 <= k < |r| - 1 ==> r[k].Word?
    ensures '<' in piece ==>
      PieceSpans(piece, colors, pick, index)
        == PieceSpans(Content(piece), colors, pick, index) + [Markup(piece[|Content(piece)|..] + ">")]
  {
    assert IndexOf(Content(piece), '<').None?;
  }

  /** A piece's spans: the word spans of its text part, then its tag part closed by '>'. */
  lemma PieceByContent(piece: string, colors: seq<string>, pick: Chooser, index: nat)
    requires |colors| >= 1
    ensures PieceSpans(piece, colors, pick, index)
         == (if Content(piece) == "" then [] else WordSpans(Split(Content(piece), ' '), colors, pick, index))
          + (if '<' in piece then [Markup(piece[|Content(piece)|..] + ">")] else [])
  {
  }

  /** A piece yields exactly one markup span when it holds a '<', and none otherwise. */
  lemma PieceMarkupCount(piece: string, colors: seq<string>, pick: Chooser, index: nat)
    requires |colors| >= 1
    ensures CountMarkup(PieceSpans(piece, colors, pick, index)) == if '<' in piece then 1 else 0
  {
    var r := PieceSpans(piece, colors, pick, index);
    PieceShape(piece, colors, pick, index);
    if '<' in piece {
      CountMarkupOfWords(r[..|r| - 1]);
    } else {
      CountMarkupOfWords(r);
    }
  }

  /** The markup text the spans spell out, in order. */
  function Text(spans: seq<Span>): string
    decreases |spans|
  {
    if |spans| == 0 then "" else spans[0].text + Text(spans[1..])
  }

  lemma {:induction false} TextAppend(a: seq<Span>, b: seq<Span>)
    ensures Text(a + b) == Text(a) + Text(b)
    decreases |a|
  {
    if |a| == 0 {
      assert a + b == b;
    } else {
      assert (a + b)[1..] == a[1..] + b;
      TextAppend(a[1..], b);
    }
  }

  /** Word spans spell their words joined by single spaces, plus one trailing space. */
  lemma {:induction false} TextOfWordSpans(spans: seq<Span>, words: seq<string>)
    requires |spans| == |words| >= 1
    requires forall k :: 0 <= k < |spans| ==> spans[k].text == words[k] + " "
    ensures Text(spans) == Join(words, ' ') + " "
    decreases |words|
  {
    if |words| > 1 {
      TextOfWordSpans(spans[1..], words[1..]);
    }
  }

  /**
   The spans of one '>'-piece spell its text part (plus one space, when it is
   not empty) and then, if it has a '<', its tag part closed by '>'; a piece
   without '<' gets no '>' back.
   */
  lemma PieceText(piece: string, colors: seq<string>, pick: Chooser, index: nat)
    requires |colors| >= 1
    ensures Text(PieceSpans(piece, colors, pick, index))
         == (if Content(piece) == "" then "" else Content(piece) + " ")
          + (if '<' in piece then piece[|Content(piece)|..] + ">" else "")
  {
    var content := Content(piece);
    var words := if |content| > 0 then WordSpans(Split(content, ' '), colors, pick, index) else [];
    if |content| > 0 {
      TextOfWordSpans(words, Split(content, ' '));
      JoinOfSplit(content, ' ');
    }
    if '<' in piece {
      var tag := Markup(piece[|content|..] + ">");
      assert PieceSpans(piece, colors, pick, index) == words + [tag];
      TextAppend(words, [tag]);
    } else {
      assert PieceSpans(piece, colors, pick, index) == words;
    }
  }

  /** A paragraph of plain text becomes one coloured span per space-separated word. */
  lemma PlainParagraph(markup: string, palette: string, pick: Chooser)
    requires '<' !in markup && '>' !in markup && markup != ""
    ensures |Segment(markup, palette, pick)| == |Split(markup, ' ')|
    ensures forall k :: 0 <= k < |Split(markup, ' ')| ==>
      Segment(markup, palette, pick)[k].Word? && Segment(markup, palette, pick)[k].text == Split(markup, ' ')[k] + " "
  {
    assert Split(markup, '>') == [markup] by {
      FirstField(markup, '>');
    }
    var colors := Split(palette, '|');
    var parts := PiecesSpans([markup], colors, pick);
    assert Segment(markup, palette, pick) == Flatten(parts[..0]) + parts[0];
    PieceShape(markup, colors, pick, 0);
  }
}

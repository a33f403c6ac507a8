/** Which line breaks of a reply group a reader sees again. */
module RowBreaks {
  import opened Text
  import opened Unwrapping

  // ----- rows

  /** What a reader sees between two lines. */
  ghost function Gap(prev: string, next: string, prefix: nat, cc: CharClasses): string
  {
    if Wraps(prev, next, prefix, cc) then " " else "\n"
  }

  /** The rows in which a reader sees the lines from line `i` on. */
  ghost function RowsFrom(lines: seq<string>, i: nat, prefix: nat, cc: CharClasses): string
    requires i < |lines|
    decreases |lines| - i
  {
    if i == |lines| - 1 then lines[i]
    else lines[i] + (Gap(lines[i], lines[i + 1], prefix, cc) + RowsFrom(lines, i + 1, prefix, cc))
  }

  /** An empty line in front is not seen. */
  ghost function Rows(lines: seq<string>, prefix: nat, cc: CharClasses): string
    requires |lines| > 0
  {
    RowsFrom(lines, if |lines| > 1 && lines[0] == "" then 1 else 0, prefix, cc)
  }

  /** Lines that fit into 78 columns with the next word are kept apart; of those that do not, all
      are joined that the writer has not begun. */
  lemma {:induction false} GapInColumns(prev: string, next: string, prefix: nat, w: nat, cc: CharClasses)
    requires FirstWordEnds(next, w, cc)
    ensures prefix + |prev| + w <= 78 ==> Gap(prev, next, prefix, cc) == "\n"
    ensures prefix + |prev| + w > 78 && prev != "" && !Begun(prev, next, cc) ==> Gap(prev, next, prefix, cc) == " "
  {
    if v: nat :| FirstWordEnds(next, v, cc) && prefix + |prev| + v > 78 {
      FirstWordIsUnique(next, w, v, cc);
    }
  }

  // ----- the pieces of a text are its rows

  function RowText(piece: Piece): string
  {
    piece.line + if piece.end == BREAK then "\n" else piece.end
  }

  function PiecesText(pieces: seq<Piece>): string
  {
    var n := |pieces|;
    if n == 0 then "" else PiecesText(pieces[..n - 1]) + RowText(pieces[n - 1])
  }

  predicate EndsKnown(pieces: seq<Piece>)
  {
    forall i :: 0 <= i < |pieces| ==> pieces[i].end == "" || pieces[i].end == " " || pieces[i].end == BREAK
  }

  lemma {:induction false} OnePieceMore(pieces: seq<Piece>, piece: Piece)
    ensures PiecesText(pieces + [piece]) == PiecesText(pieces) + RowText(piece)
    ensures EndsKnown(pieces) && (piece.end == "" || piece.end == " " || piece.end == BREAK) ==> EndsKnown(pieces + [piece])
  {
    assert (pieces + [piece])[..|pieces|] == pieces;
  }

  lemma {:induction false} PiecesStep(lines: seq<string>, k: nat, prefix: nat, cc: CharClasses)
    requires 0 < k < |lines|
    ensures var pieces := PiecesBefore(lines, k - 1, prefix, cc);
            PiecesBefore(lines, k, prefix, cc) ==
              if k == 1 && lines[0] == "" then pieces
              else pieces + [Piece(lines[k - 1], Terminator(lines[k - 1], lines[k], prefix, cc))]
  {}

  lemma {:induction false} GapIsRowEnd(prev: string, next: string, prefix: nat, cc: CharClasses)
    ensures RowText(Piece(prev, Terminator(prev, next, prefix, cc))) == prev + Gap(prev, next, prefix, cc)
    ensures Terminator(prev, next, prefix, cc) == " " || Terminator(prev, next, prefix, cc) == BREAK
  {
    hide Terminator, Wraps;
    WrapsIsForced(prev, next, prefix, cc);
  }

  lemma {:induction false} PiecesAreRows(lines: seq<string>, k: nat, prefix: nat, cc: CharClasses)
    requires k < |lines|
    ensures PiecesText(PiecesBefore(lines, k, prefix, cc)) + RowsFrom(lines, k, prefix, cc) ==
            if k > 0 then Rows(lines, prefix, cc) else RowsFrom(lines, 0, prefix, cc)
    ensures EndsKnown(PiecesBefore(lines, k, prefix, cc))
  {
    hide Terminator, PiecesText, EndsKnown, PiecesBefore, Gap, RowText, RowsFrom;
    if k == 0 {
      NoPieces(lines, prefix, cc);
      assert "" + RowsFrom(lines, 0, prefix, cc) == RowsFrom(lines, 0, prefix, cc);
    } else {
      var pieces := PiecesBefore(lines, k - 1, prefix, cc);
      PiecesStep(lines, k, prefix, cc);
      PiecesAreRows(lines, k - 1, prefix, cc);
      RowsStep(lines, k - 1, prefix, cc);
      if k == 1 && lines[0] == "" {
        NoPieces(lines, prefix, cc);
        assert "" + RowsFrom(lines, 1, prefix, cc) == RowsFrom(lines, 1, prefix, cc);
      } else {
        GapIsRowEnd(lines[k - 1], lines[k], prefix, cc);
        OnePieceMore(pieces, Piece(lines[k - 1], Terminator(lines[k - 1], lines[k], prefix, cc)));
        var row, later := lines[k - 1] + Gap(lines[k - 1], lines[k], prefix, cc), RowsFrom(lines, k, prefix, cc);
        Shift(lines[k - 1], Gap(lines[k - 1], lines[k], prefix, cc), later);
        Shift(PiecesText(pieces), row, later);
      }
    }
  }

  lemma {:induction false} NoPieces(lines: seq<string>, prefix: nat, cc: CharClasses)
    requires |lines| > 0
    ensures PiecesText(PiecesBefore(lines, 0, prefix, cc)) == "" && EndsKnown(PiecesBefore(lines, 0, prefix, cc))
  {}

  lemma {:induction false} RowsStep(lines: seq<string>, i: nat, prefix: nat, cc: CharClasses)
    requires i + 1 < |lines|
    ensures RowsFrom(lines, i, prefix, cc) ==
            lines[i] + (Gap(lines[i], lines[i + 1], prefix, cc) + RowsFrom(lines, i + 1, prefix, cc))
  {}

  lemma {:induction false} LastRow(lines: seq<string>, prefix: nat, cc: CharClasses)
    requires |lines| > 0
    ensures RowsFrom(lines, |lines| - 1, prefix, cc) == lines[|lines| - 1]
    ensures |lines| == 1 ==> Rows(lines, prefix, cc) == lines[0]
  {}

  /** What is emitted for a text are its rows. */
  lemma {:induction false} EmittedIsRows(lines: seq<string>, prefix: nat, cc: CharClasses)
    requires |lines| > 0
    ensures PiecesText(Emitted(lines, prefix, cc)) == Rows(lines, prefix, cc)
    ensures EndsKnown(Emitted(lines, prefix, cc))
  {
    hide PiecesText, PiecesBefore, EndsKnown, Rows, RowsFrom;
    var n := |lines| - 1;
    var pieces := PiecesBefore(lines, n, prefix, cc);
    PiecesAreRows(lines, n, prefix, cc);
    LastRow(lines, prefix, cc);
    OnePieceMore(pieces, Piece(lines[n], ""));
    LastText(lines[n]);
    if n == 0 {
      NoPieces(lines, prefix, cc);
      assert "" + lines[0] == lines[0];
    }
    assert PiecesText(pieces) + "" == PiecesText(pieces);
  }

  lemma {:induction false} LastText(line: string)
    ensures RowText(Piece(line, "")) == line
  {
    assert line + "" == line;
  }

  // ----- wrapped paragraphs

  /** Words in lower case. */
  predicate IsProse(words: seq<string>, cc: CharClasses)
  {
    && cc.isSpace(' ')
    && forall i :: 0 <= i < |words| ==> IsWord(words[i], cc)
  }

  predicate IsWord(word: string, cc: CharClasses)
  {
    word != "" && !cc.isUpper(word[0]) && FirstWordEnds(word, |word|, cc)
  }

  /** The words from word `i` on behind `line`, wrapped so that no line is longer than `width`
      unless it is a single word. */
  function Wrapped(line: string, words: seq<string>, i: nat, prefix: nat, width: nat): (lines: seq<string>)
    ensures |lines| > 0
    decreases |words| - i
  {
    if i >= |words| then [line]
    else if prefix + |line| + 1 + |words[i]| <= width then Wrapped(line + " " + words[i], words, i + 1, prefix, width)
    else [line] + Wrapped(words[i], words, i + 1, prefix, width)
  }

  /** The same words in one line. */
  function OneLine(line: string, words: seq<string>, i: nat): string
    decreases |words| - i
  {
    if i >= |words| then line else OneLine(line + " " + words[i], words, i + 1)
  }

  /** The first line begins with the line given, and with a space behind it if it is longer. */
  lemma {:induction false} WrappedBegins(line: string, words: seq<string>, i: nat, prefix: nat, width: nat)
    ensures var first := Wrapped(line, words, i, prefix, width)[0];
            && |first| >= |line| && (forall k :: 0 <= k < |line| ==> first[k] == line[k])
            && (|first| > |line| ==> first[|line|] == ' ')
    decreases |words| - i
  {
    if i < |words| && prefix + |line| + 1 + |words[i]| <= width {
      WrappedBegins(line + " " + words[i], words, i + 1, prefix, width);
    }
  }

  lemma {:induction false} RowsBehind(line: string, lines: seq<string>, i: nat, prefix: nat, cc: CharClasses)
    requires i < |lines|
    ensures RowsFrom([line] + lines, i + 1, prefix, cc) == RowsFrom(lines, i, prefix, cc)
    decreases |lines| - i
  {
    hide Gap;
    if i < |lines| - 1 {
      RowsBehind(line, lines, i + 1, prefix, cc);
    }
  }

  /** Behind a full line, the next line is joined to it. */
  lemma {:induction false} WrappedGap(line: string, words: seq<string>, i: nat, prefix: nat, width: nat, cc: CharClasses)
    requires IsProse(words, cc) && line != "" && 0 <= i < |words| && prefix + |line| + |words[i]| > 78
    ensures Gap(line, Wrapped(words[i], words, i + 1, prefix, width)[0], prefix, cc) == " "
  {
    hide Gap;
    var first := Wrapped(words[i], words, i + 1, prefix, width)[0];
    assert IsWord(words[i], cc);
    WrappedBegins(words[i], words, i + 1, prefix, width);
    assert FirstWordEnds(first, |words[i]|, cc);
    GapInColumns(line, first, prefix, |words[i]|, cc);
  }

  lemma {:induction false} OneLineFrom(a: string, line: string, words: seq<string>, i: nat)
    ensures OneLine(a + line, words, i) == a + OneLine(line, words, i)
    decreases |words| - i
  {
    if i < |words| {
      Shift(a, line, " ");
      Shift(a, line + " ", words[i]);
      OneLineFrom(a, line + " " + words[i], words, i + 1);
    }
  }

  /** A paragraph wrapped at 79 columns or more, prefix included, is seen as one row. */
  lemma {:induction false} ParagraphIsRejoined(line: string, words: seq<string>, i: nat, prefix: nat, width: nat, cc: CharClasses)
    requires IsProse(words, cc) && line != "" && width >= 79
    ensures RowsFrom(Wrapped(line, words, i, prefix, width), 0, prefix, cc) == OneLine(line, words, i)
    decreases |words| - i
  {
    hide Gap, IsProse, RowsFrom;
    if i >= |words| {
      LastRow([line], prefix, cc);
    } else if prefix + |line| + 1 + |words[i]| <= width {
      ParagraphIsRejoined(line + " " + words[i], words, i + 1, prefix, width, cc);
    } else {
      var later := Wrapped(words[i], words, i + 1, prefix, width);
      WordIsNotEmpty(words, i, cc);
      WrappedGap(line, words, i, prefix, width, cc);
      ParagraphIsRejoined(words[i], words, i + 1, prefix, width, cc);
      RowsStep([line] + later, 0, prefix, cc);
      RowsBehind(line, later, 0, prefix, cc);
      OneLineFrom(line + " ", words[i], words, i + 1);
      Shift(line, " ", OneLine(words[i], words, i + 1));
    }
  }

  lemma {:induction false} WordIsNotEmpty(words: seq<string>, i: nat, cc: CharClasses)
    requires IsProse(words, cc) && i < |words|
    ensures words[i] != ""
  {
    assert IsWord(words[i], cc);
  }

  /** Wrapped at 78 columns, a break is kept exactly where the next word would have ended in
      column 79. */
  lemma {:induction false} BreakAt78(line: string, words: seq<string>, i: nat, prefix: nat, cc: CharClasses)
    requires IsProse(words, cc) && line != "" && i < |words| && prefix + |line| + 1 + |words[i]| > 78
    ensures Gap(line, Wrapped(words[i], words, i + 1, prefix, 78)[0], prefix, cc) == "\n"
            <==> prefix + |line| + 1 + |words[i]| == 79
  {
    hide Gap;
    var first := Wrapped(words[i], words, i + 1, prefix, 78)[0];
    assert IsWord(words[i], cc);
    WrappedBegins(words[i], words, i + 1, prefix, 78);
    assert FirstWordEnds(first, |words[i]|, cc);
    GapInColumns(line, first, prefix, |words[i]|, cc);
  }

  /** Lines that are short enough are all seen as they are. */
  lemma {:induction false} ShortLinesStay(lines: seq<string>, i: nat, prefix: nat, cc: CharClasses)
    requires i < |lines|
    requires forall k :: i <= k < |lines| - 1 ==> prefix + |lines[k]| + |lines[k + 1]| <= 78
    ensures RowsFrom(lines, i, prefix, cc) == Join(lines[i..], '\n')
    decreases |lines| - i
  {
    hide Gap, RowsFrom;
    var rest := lines[i..];
    assert rest[0] == lines[i];
    if i == |lines| - 1 {
      LastRow(lines, prefix, cc);
    } else {
      var w := FirstWord(lines[i + 1], cc);
      assert FirstWordEnds(lines[i + 1], w, cc);
      GapInColumns(lines[i], lines[i + 1], prefix, w, cc);
      RowsStep(lines, i, prefix, cc);
      ShortLinesStay(lines, i + 1, prefix, cc);
      assert rest[1..] == lines[i + 1..];
      Shift(lines[i], "\n", Join(rest[1..], '\n'));
    }
  }
}

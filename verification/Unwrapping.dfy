/** Joining the wrapped lines of a text again. */
module Unwrapping {
  import opened Text

  /** The two properties of characters the layout depends on. */
  datatype CharClasses = CharClasses(isSpace: char -> bool, isUpper: char -> bool)

  /** A displayed line and what separates it from the next. */
  datatype Piece = Piece(line: string, end: string)

  const BREAK := "<br>"
  const PROTECTED := "&nbsp;&nbsp;"
  const MAX_COLUMNS := 78

  /** The length of the part of `s` before its first white-space character. */
  function FirstWord(s: string, cc: CharClasses): (n: nat)
    ensures n <= |s|
    ensures forall i :: 0 <= i < n ==> !cc.isSpace(s[i])
    ensures n < |s| ==> cc.isSpace(s[n])
  {
    if s == "" || cc.isSpace(s[0]) then 0
    else
      var n := FirstWord(s[1..], cc);
      assert forall i :: 1 <= i < n + 1 ==> s[i] == s[1..][i - 1];
      1 + n
  }

  predicate EndsSentence(c: char) { c == '.' || c == '!' || c == '?' }

  /** Whether the newline between two lines only wraps: the next line does not begin with
      white space, does not begin a sentence after the end of one, and its first word did
      not fit on the line before. */
  predicate ForcedNewline(prev: string, next: string, prepend: nat, cc: CharClasses)
  {
    && prev != ""
    && !(next != "" && cc.isSpace(next[0]))
    && !(next != "" && cc.isUpper(next[0]) && EndsSentence(prev[|prev| - 1]))
    && |prev| + prepend + FirstWord(next, cc) > MAX_COLUMNS
  }

  function Terminator(prev: string, next: string, prepend: nat, cc: CharClasses): string
  {
    if ForcedNewline(prev, next, prepend, cc) then " " else BREAK
  }

  // ----- the rule, in columns

  /** The first `w` characters of `s` are its first word, as far as it has one. */
  predicate FirstWordEnds(s: string, w: nat, cc: CharClasses)
  {
    && w <= |s|
    && (forall i :: 0 <= i < w ==> !cc.isSpace(s[i]))
    && (w < |s| ==> cc.isSpace(s[w]))
  }

  /** A new line that the writer has begun: it is indented, or a sentence behind the end of one. */
  predicate Begun(prev: string, next: string, cc: CharClasses)
  {
    && next != ""
    && (cc.isSpace(next[0])
        || (cc.isUpper(next[0]) && prev != ""
            && (prev[|prev| - 1] == '.' || prev[|prev| - 1] == '!' || prev[|prev| - 1] == '?')))
  }

  /** `next` was wrapped: behind a prefix of that length, its first word did not fit into 78
      columns together with `prev`. */
  ghost predicate Wraps(prev: string, next: string, prefix: nat, cc: CharClasses)
  {
    && prev != ""
    && !Begun(prev, next, cc)
    && exists w :: FirstWordEnds(next, w, cc) && prefix + |prev| + w > 78
  }

  lemma {:induction false} FirstWordIsUnique(s: string, w: nat, v: nat, cc: CharClasses)
    requires FirstWordEnds(s, w, cc) && FirstWordEnds(s, v, cc)
    ensures w == v
  {}

  /** A line and the next one are joined exactly under the rule. */
  lemma {:induction false} WrapsIsForced(prev: string, next: string, prefix: nat, cc: CharClasses)
    ensures Wraps(prev, next, prefix, cc) <==> Terminator(prev, next, prefix, cc) == " "
    ensures !Wraps(prev, next, prefix, cc) <==> Terminator(prev, next, prefix, cc) == BREAK
  {
    var w := FirstWord(next, cc);
    assert FirstWordEnds(next, w, cc);
    if v: nat :| FirstWordEnds(next, v, cc) && prefix + |prev| + v > 78 {
      FirstWordIsUnique(next, w, v, cc);
    }
  }

  // ----- the lines of a group

  /** The pieces for the first `k` lines, all of which have a successor. */
  function PiecesBefore(lines: seq<string>, k: nat, prepend: nat, cc: CharClasses): seq<Piece>
    requires k < |lines|
  {
    if k == 0 then []
    else
      var pieces := PiecesBefore(lines, k - 1, prepend, cc);
      if k == 1 && lines[0] == "" then pieces
      else pieces + [Piece(lines[k - 1], Terminator(lines[k - 1], lines[k], prepend, cc))]
  }

  function Emitted(lines: seq<string>, prepend: nat, cc: CharClasses): seq<Piece>
    requires |lines| > 0
  {
    var n := |lines| - 1;
    var pieces := PiecesBefore(lines, n, prepend, cc);
    if lines[n] == "" then pieces else pieces + [Piece(lines[n], "")]
  }

  /** White space at the beginning of a line, made non-breaking: every tab and every run
      of up to four spaces becomes two of the protected kind. */
  function Protect(leader: string): string
  {
    if leader == "" then ""
    else if leader[0] == ' ' then PROTECTED + Protect(leader[SpacesAtMost(leader, 4)..])
    else if leader[0] == '\t' then PROTECTED + Protect(leader[1..])
    else [leader[0]] + Protect(leader[1..])
  }

  function SpacesAtMost(s: string, max: nat): (n: nat)
    ensures n <= |s| && n <= max
    ensures max > 0 && s != "" && s[0] == ' ' ==> n > 0
  {
    if max == 0 || s == "" || s[0] != ' ' then 0 else 1 + SpacesAtMost(s[1..], max - 1)
  }

  /** The length of the white space at the beginning of `s`, if anything follows it. */
  function LeadingSpace(s: string, cc: CharClasses): (n: nat)
    ensures n <= |s|
  {
    if s == "" then 0
    else if !cc.isSpace(s[0]) then 0
    else if forall i :: 0 <= i < |s| ==> cc.isSpace(s[i]) then 0
    else 1 + LeadingSpace(s[1..], cc)
  }

  function AppendLine(preceding: string, suffix: string, cc: CharClasses): string
  {
    var n := LeadingSpace(suffix, cc);
    if n == 0 then preceding + suffix
    else preceding + Protect(suffix[..n]) + suffix[n..]
  }

  function Show(piece: Piece, encode: string -> string): string
  {
    if piece.end == "" then encode(piece.line) else encode(piece.line) + piece.end
  }

  function Layout(pieces: seq<Piece>, encode: string -> string, cc: CharClasses): string
  {
    var n := |pieces|;
    if n == 0 then ""
    else AppendLine(Layout(pieces[..n - 1], encode, cc), Show(pieces[n - 1], encode), cc)
  }

  function Unwrapped(txt: string, prepend: string, encode: string -> string, cc: CharClasses): string
  {
    Layout(Emitted(Split(txt, '\n'), |prepend|, cc), encode, cc)
  }

  method Unwrap(txt: string, prepend: string, encode: string -> string, cc: CharClasses) returns (result: string)
    ensures result == Unwrapped(txt, prepend, encode, cc)
  {
    var lines := Split(txt, '\n');
    result := "";
    var prev, it := 0, 1;
    hide AppendLine;
    while it != |lines|
      invariant it == prev + 1 <= |lines|
      invariant Rest(result, lines, prev, |prepend|, encode, cc) == Rest("", lines, 0, |prepend|, encode, cc)
      decreases |lines| - it
    {
      var terminator := BREAK;
      var prevLength := |lines[prev]|;
      if prevLength == 0 && prev == 0 {
        // an empty line in front is dropped
      } else {
        if prevLength != 0 {
          var wsIndex := FirstWord(lines[it], cc);
          if wsIndex == 0 && lines[it] != "" {
            // the writer indented the next line
          } else {
            var last := lines[prev][prevLength - 1];
            var logicalEnd := last == '.' || last == '!' || last == '?';
            if lines[it] != "" && cc.isUpper(lines[it][0]) && logicalEnd {
              // the next line begins a sentence
            } else {
              var totalLength := prevLength + |prepend|;
              if totalLength + wsIndex > 78 {
                terminator := " ";
              }
            }
          }
        }
        assert terminator == Terminator(lines[prev], lines[it], |prepend|, cc);
        hide Terminator;
        result := AppendLine(result, encode(lines[prev]) + terminator, cc);
      }
      prev, it := prev + 1, it + 1;
    }
    if lines[prev] != "" {
      result := AppendLine(result, encode(lines[prev]), cc);
    }
    RestIsLayout(lines, 0, |prepend|, encode, cc);
    assert LaidOut(lines, 0, |prepend|, encode, cc) == "";
  }

  /** What the loop makes of the lines from `k` on. */
  ghost function Rest(result: string, lines: seq<string>, k: nat, prepend: nat,
                      encode: string -> string, cc: CharClasses): string
    requires k < |lines|
    decreases |lines| - k
  {
    if k == |lines| - 1 then
      if lines[k] == "" then result else AppendLine(result, encode(lines[k]), cc)
    else if k == 0 && lines[k] == "" then
      Rest(result, lines, k + 1, prepend, encode, cc)
    else
      var end := Terminator(lines[k], lines[k + 1], prepend, cc);
      Rest(AppendLine(result, encode(lines[k]) + end, cc), lines, k + 1, prepend, encode, cc)
  }

  /** The layout of the first `k` lines. */
  ghost function LaidOut(lines: seq<string>, k: nat, prepend: nat, encode: string -> string, cc: CharClasses): string
    requires k < |lines|
  {
    Layout(PiecesBefore(lines, k, prepend, cc), encode, cc)
  }

  lemma {:induction false} LaidOutStep(lines: seq<string>, k: nat, prepend: nat, encode: string -> string, cc: CharClasses)
    requires k + 1 < |lines|
    ensures var end := Terminator(lines[k], lines[k + 1], prepend, cc);
            LaidOut(lines, k + 1, prepend, encode, cc) ==
              if k == 0 && lines[k] == "" then LaidOut(lines, k, prepend, encode, cc)
              else AppendLine(LaidOut(lines, k, prepend, encode, cc), encode(lines[k]) + end, cc)
  {
    var piece := Piece(lines[k], Terminator(lines[k], lines[k + 1], prepend, cc));
    LayoutOneMore(PiecesBefore(lines, k, prepend, cc), piece, encode, cc);
  }

  lemma {:induction false} LaidOutAll(lines: seq<string>, prepend: nat, encode: string -> string, cc: CharClasses)
    requires |lines| > 0
    ensures var n := |lines| - 1;
            Layout(Emitted(lines, prepend, cc), encode, cc) ==
              if lines[n] == "" then LaidOut(lines, n, prepend, encode, cc)
              else AppendLine(LaidOut(lines, n, prepend, encode, cc), encode(lines[n]), cc)
  {
    var n := |lines| - 1;
    LayoutOneMore(PiecesBefore(lines, n, prepend, cc), Piece(lines[n], ""), encode, cc);
  }

  lemma {:induction false} RestIsLayout(lines: seq<string>, k: nat, prepend: nat, encode: string -> string, cc: CharClasses)
    requires k < |lines|
    ensures Rest(LaidOut(lines, k, prepend, encode, cc), lines, k, prepend, encode, cc) ==
            Layout(Emitted(lines, prepend, cc), encode, cc)
    decreases |lines| - k
  {
    hide LaidOut, Layout, Terminator, AppendLine;
    if k == |lines| - 1 {
      LaidOutAll(lines, prepend, encode, cc);
    } else {
      LaidOutStep(lines, k, prepend, encode, cc);
      RestIsLayout(lines, k + 1, prepend, encode, cc);
    }
  }

  lemma {:induction false} LayoutOneMore(pieces: seq<Piece>, piece: Piece, encode: string -> string, cc: CharClasses)
    ensures Layout(pieces + [piece], encode, cc) ==
            AppendLine(Layout(pieces, encode, cc), Show(piece, encode), cc)
  {
    assert (pieces + [piece])[..|pieces|] == pieces;
  }

  // ----- every line once, in order

  function Lines(pieces: seq<Piece>): seq<string>
  {
    seq(|pieces|, i requires 0 <= i < |pieces| => pieces[i].line)
  }

  lemma {:induction false} PiecesBeforeShape(lines: seq<string>, k: nat, prepend: nat, cc: CharClasses)
    requires k < |lines|
    ensures var from := if k > 0 && lines[0] == "" then 1 else 0;
            var pieces := PiecesBefore(lines, k, prepend, cc);
            && |pieces| == k - from
            && forall i :: 0 <= i < |pieces| ==>
                 pieces[i] == Piece(lines[from + i], Terminator(lines[from + i], lines[from + i + 1], prepend, cc))
  {
    if k > 0 {
      PiecesBeforeShape(lines, k - 1, prepend, cc);
    }
  }

  /** Unwrapping emits all lines, each once and in order, except an empty first and an empty
      last one, and separates them by a space exactly where the newline was forced. */
  lemma {:induction false} EmittedShape(lines: seq<string>, prepend: nat, cc: CharClasses)
    requires |lines| > 0
    ensures var n := |lines|;
            var from := if lines[0] == "" && n > 1 then 1 else 0;
            var to := if lines[n - 1] == "" then n - 1 else n;
            var pieces := Emitted(lines, prepend, cc);
            && |pieces| == to - from
            && (forall i :: 0 <= i < |pieces| ==> pieces[i].line == lines[from + i])
            && (forall i :: 0 <= i < |pieces| && from + i < n - 1 ==>
                  pieces[i].end == if Wraps(lines[from + i], lines[from + i + 1], prepend, cc) then " " else BREAK)
            && (to == n ==> |pieces| > 0 && pieces[|pieces| - 1].end == "")
  {
    hide Wraps, ForcedNewline;
    PiecesBeforeShape(lines, |lines| - 1, prepend, cc);
    forall i | 0 <= i < |lines| - 1
      ensures Wraps(lines[i], lines[i + 1], prepend, cc) <==> ForcedNewline(lines[i], lines[i + 1], prepend, cc)
    {
      WrapsIsForced(lines[i], lines[i + 1], prepend, cc);
      ForcedTerminator(lines[i], lines[i + 1], prepend, cc);
    }
  }

  lemma {:induction false} ForcedTerminator(prev: string, next: string, prepend: nat, cc: CharClasses)
    ensures Terminator(prev, next, prepend, cc) == " " <==> ForcedNewline(prev, next, prepend, cc)
  {
    hide ForcedNewline;
  }

  /** A leader of n spaces takes two protected spaces for every four begun. */
  lemma {:induction false} ProtectSpaces(n: nat)
    ensures Protect(Repeat(" ", n)) == Repeat(PROTECTED, (n + 3) / 4)
  {
    hide Protect, Repeat, SpacesAtMost;
    if n > 0 {
      var m := if n < 4 then n else 4;
      FirstSpace(n);
      SpacesOfRepeat(n, 4);
      RepeatSuffix(n, m);
      ProtectFirst(Repeat(" ", n));
      ProtectSpaces(n - m);
      RepeatMore(PROTECTED, (n + 3) / 4);
    } else {
      ProtectNothing();
    }
  }

  lemma {:induction false} FirstSpace(n: nat)
    requires n > 0
    ensures |Repeat(" ", n)| == n && Repeat(" ", n)[0] == ' '
  {
    RepeatLength(" ", n);
  }

  lemma {:induction false} ProtectFirst(leader: string)
    requires leader != "" && leader[0] == ' '
    ensures Protect(leader) == PROTECTED + Protect(leader[SpacesAtMost(leader, 4)..])
  {}

  lemma {:induction false} ProtectNothing()
    ensures Protect(Repeat(" ", 0)) == Repeat(PROTECTED, 0)
  {}

  lemma {:induction false} RepeatMore(unit: string, k: nat)
    requires k > 0
    ensures Repeat(unit, k) == unit + Repeat(unit, k - 1)
  {}

  lemma {:induction false} SpacesOfRepeat(n: nat, max: nat)
    ensures SpacesAtMost(Repeat(" ", n), max) == if n < max then n else max
  {
    if n > 0 && max > 0 {
      SpacesOfRepeat(n - 1, max - 1);
      assert Repeat(" ", n)[1..] == Repeat(" ", n - 1);
    }
  }

  lemma {:induction false} RepeatSuffix(n: nat, m: nat)
    requires m <= n == |Repeat(" ", n)|
    ensures Repeat(" ", n)[m..] == Repeat(" ", n - m)
  {
    if m > 0 {
      assert Repeat(" ", n)[1..] == Repeat(" ", n - 1);
      RepeatSuffix(n - 1, m - 1);
      assert Repeat(" ", n)[m..] == Repeat(" ", n)[1..][m - 1..];
    }
  }

  // ----- indented lines

  /** The white space in front of a line reaches up to its first other character. */
  lemma {:induction false} LeadingSpaceExactly(s: string, n: nat, cc: CharClasses)
    requires n < |s| && !cc.isSpace(s[n]) && forall i :: 0 <= i < n ==> cc.isSpace(s[i])
    ensures LeadingSpace(s, cc) == n
  {
    if n > 0 {
      assert cc.isSpace(s[0]);
      LeadingSpaceExactly(s[1..], n - 1, cc);
    }
  }

  lemma {:induction false} ProtectTabs(n: nat)
    ensures Protect(Repeat("\t", n)) == Repeat(PROTECTED, n)
  {
    hide Protect, Repeat;
    if n > 0 {
      RepeatMore("\t", n);
      RepeatMore(PROTECTED, n);
      ProtectTab(Repeat("\t", n - 1));
      ProtectTabs(n - 1);
    } else {
      NoTabs();
    }
  }

  lemma {:induction false} ProtectTab(leader: string)
    ensures Protect("\t" + leader) == PROTECTED + Protect(leader)
  {
    assert ("\t" + leader)[1..] == leader;
  }

  lemma {:induction false} NoTabs()
    ensures Protect(Repeat("\t", 0)) == Repeat(PROTECTED, 0)
  {}

  /** A line that is indented by spaces or by tabs is put behind what precedes it with two spaces
      that do not break for every tab and for every four spaces begun. */
  lemma {:induction false} IndentationKept(preceding: string, n: nat, tabs: bool, text: string, cc: CharClasses)
    requires cc.isSpace(' ') && cc.isSpace('\t') && text != "" && !cc.isSpace(text[0])
    ensures AppendLine(preceding, Repeat(if tabs then "\t" else " ", n) + text, cc) ==
            preceding + Repeat("&nbsp;&nbsp;", if tabs then n else (n + 3) / 4) + text
  {
    hide LeadingSpace, Protect;
    var leader := Repeat(if tabs then "\t" else " ", n);
    var suffix := leader + text;
    RepeatLength(if tabs then "\t" else " ", n);
    RepeatChar(if tabs then '\t' else ' ', n);
    assert suffix[n] == text[0];
    LeadingSpaceExactly(suffix, n, cc);
    assert suffix[..n] == leader && suffix[n..] == text;
    if tabs {
      ProtectTabs(n);
    } else {
      ProtectSpaces(n);
    }
    if n == 0 {
      assert suffix == text && preceding + "" == preceding;
    }
  }

  lemma {:induction false} RepeatChar(c: char, n: nat)
    ensures forall i :: 0 <= i < |Repeat([c], n)| ==> Repeat([c], n)[i] == c
  {
    if n > 0 {
      RepeatChar(c, n - 1);
    }
  }
}

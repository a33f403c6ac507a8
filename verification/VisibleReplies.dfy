/** What a reader sees of a text that is displayed: all of it, row by row, white space aside. */
module VisibleReplies {
  import opened Text
  import opened Html
  import opened ReplyLevels
  import opened ReplyGroups
  import opened Unwrapping
  import opened ReplyDisplay
  import opened RowBreaks
  import L = LinkTokeniser

  /** White space inside a row. */
  predicate IsBlank(c: char, cc: CharClasses) { cc.isSpace(c) && c != '\n' }

  /** `s` without its white space, but with its rows. */
  function Solid(s: string, cc: CharClasses): string
  {
    if s == "" then "" else (if IsBlank(s[0], cc) then "" else [s[0]]) + Solid(s[1..], cc)
  }

  /** What the toolkit's white space is known to contain and not to contain. */
  predicate Plausible(cc: CharClasses)
  {
    && cc.isSpace(' ') && cc.isSpace('\t') && cc.isSpace('\n') && cc.isSpace(NO_BREAK_SPACE)
    && !cc.isSpace('<') && !cc.isSpace('&')
  }

  /** A reader of `html` sees `text`, white space aside, whatever follows. */
  ghost predicate Shows(html: string, text: string, cc: CharClasses)
  {
    forall rest: string :: Solid(Visible(html + rest), cc) == Solid(text, cc) + Solid(Visible(rest), cc)
  }

  /** The links made of a line hide and add nothing. */
  ghost predicate Faithful(encode: string -> string, line: string)
  {
    forall rest: string :: Visible(encode(line) + rest) == line + Visible(rest)
  }

  ghost predicate AllFaithful(encode: string -> string, lines: seq<string>)
  {
    forall i :: 0 <= i < |lines| ==> Faithful(encode, lines[i])
  }

  lemma {:induction false} SolidAppend(a: string, b: string, cc: CharClasses)
    ensures Solid(a + b, cc) == Solid(a, cc) + Solid(b, cc)
  {
    if a == "" {
      assert a + b == b;
    } else {
      SolidAppend(a[1..], b, cc);
      assert (a + b)[0] == a[0] && (a + b)[1..] == a[1..] + b;
      Shift(if IsBlank(a[0], cc) then "" else [a[0]], Solid(a[1..], cc), Solid(b, cc));
    }
  }

  lemma {:induction false} ShowsAppend(a: string, x: string, b: string, y: string, cc: CharClasses)
    requires Shows(a, x, cc) && Shows(b, y, cc)
    ensures Shows(a + b, x + y, cc)
  {
    hide Solid, Visible;
    SolidAppend(x, y, cc);
    forall rest: string
      ensures Solid(Visible((a + b) + rest), cc) == Solid(x + y, cc) + Solid(Visible(rest), cc)
    {
      Shift(a, b, rest);
      Shift(Solid(x, cc), Solid(y, cc), Solid(Visible(rest), cc));
    }
  }

  lemma {:induction false} ShowsNothing(cc: CharClasses)
    ensures Shows("", "", cc)
  {
    hide Visible;
    assert Solid("", cc) == "";
    forall rest: string ensures Solid(Visible("" + rest), cc) == Solid("", cc) + Solid(Visible(rest), cc) {
      assert "" + rest == rest;
    }
  }

  lemma {:induction false} TagShowsNothing(tag: string, cc: CharClasses)
    requires '>' !in tag && tag != "br"
    ensures Shows("<" + (tag + ">"), "", cc)
  {
    hide Visible;
    assert Solid("", cc) == "";
    forall rest: string ensures Solid(Visible(("<" + (tag + ">")) + rest), cc) == Solid("", cc) + Solid(Visible(rest), cc) {
      assert ("<" + (tag + ">")) + rest == "<" + (tag + (">" + rest));
      OtherTag(tag, rest);
    }
  }

  lemma {:induction false} FaithfulShows(encode: string -> string, s: string, cc: CharClasses)
    requires Faithful(encode, s)
    ensures Shows(encode(s), s, cc)
  {
    hide Solid, Visible;
    forall rest: string
      ensures Solid(Visible(encode(s) + rest), cc) == Solid(s, cc) + Solid(Visible(rest), cc)
    {
      SolidAppend(s, Visible(rest), cc);
    }
  }

  /** `encodeUrlAndMail` is faithful exactly to the lines whose matches are harmless. */
  lemma {:induction false} LinksAreFaithful(encode: string -> string, line: string, m: L.Matches)
    requires L.Fits(line, m) && L.PrintsAsMatched(line, m) && encode(line) == L.Linked(line, m, 0)
    ensures Faithful(encode, line) <==> L.Harmless(line, m)
  {
    forall rest: string ensures Visible(encode(line) + rest) == line + Visible(rest) <==> L.Harmless(line, m) {
      L.VisibleTextPreserved(line, m, rest);
    }
    assert Faithful(encode, line) ==> Visible(encode(line) + "") == line + Visible("");
  }

  // ----- protected white space

  predicate AllSpace(s: string, cc: CharClasses)
  {
    forall i :: 0 <= i < |s| ==> cc.isSpace(s[i])
  }

  lemma {:induction false} SolidChar(c: char, cc: CharClasses)
    ensures Solid([c], cc) == if IsBlank(c, cc) then "" else [c]
  {
    assert Solid([c][1..], cc) == "";
  }

  lemma {:induction false} VisiblePlain(c: char, x: string)
    requires c != '<' && c != '&'
    ensures Visible([c] + x) == [c] + Visible(x)
  {
    assert ([c] + x)[1..] == x;
  }

  lemma {:induction false} SolidPlain(c: char, x: string, cc: CharClasses)
    requires c != '<' && c != '&'
    ensures Solid(Visible([c] + x), cc) == (if IsBlank(c, cc) then "" else [c]) + Solid(Visible(x), cc)
  {
    hide Solid, Visible;
    VisiblePlain(c, x);
    SolidAppend([c], Visible(x), cc);
    SolidChar(c, cc);
  }

  lemma {:induction false} BlankInvisible(c: char, x: string, cc: CharClasses)
    requires Plausible(cc) && IsBlank(c, cc)
    ensures Solid(Visible([c] + x), cc) == Solid(Visible(x), cc)
  {
    hide Solid, Visible;
    SolidPlain(c, x, cc);
    assert "" + Solid(Visible(x), cc) == Solid(Visible(x), cc);
  }

  lemma {:induction false} SpacesInvisible(s: string, n: nat, x: string, cc: CharClasses)
    requires Plausible(cc) && n <= |s| && forall i :: 0 <= i < n ==> s[i] == ' '
    ensures Solid(Visible(s + x), cc) == Solid(Visible(s[n..] + x), cc)
    decreases n
  {
    hide Solid, Visible, Plausible;
    if n == 0 {
      assert s[0..] == s;
    } else {
      SpaceIsBlank(cc);
      assert s == [' '] + s[1..];
      Shift([' '], s[1..], x);
      BlankInvisible(' ', s[1..] + x, cc);
      SpacesInvisible(s[1..], n - 1, x, cc);
      assert s[1..][n - 1..] == s[n..];
    }
  }

  lemma {:induction false} SpaceIsBlank(cc: CharClasses)
    requires Plausible(cc)
    ensures IsBlank(' ', cc) && IsBlank('\t', cc) && IsBlank(NO_BREAK_SPACE, cc)
  {}

  lemma {:induction false} ProtectedInvisible(x: string, cc: CharClasses)
    requires Plausible(cc)
    ensures Solid(Visible(PROTECTED + x), cc) == Solid(Visible(x), cc)
  {
    hide Solid, Visible;
    var once, space := "&" + ("nbsp" + (";" + x)), [NO_BREAK_SPACE];
    assert PROTECTED + x == "&" + ("nbsp" + (";" + once));
    VisibleEntity("nbsp", x);
    VisibleEntity("nbsp", once);
    SolidChar(NO_BREAK_SPACE, cc);
    SolidAppend(space, Visible(x), cc);
    SolidAppend(space, Visible(once), cc);
  }

  lemma {:induction false} SpacesAreSpaces(s: string, max: nat)
    ensures forall i :: 0 <= i < SpacesAtMost(s, max) ==> s[i] == ' '
  {
    if max > 0 && s != "" && s[0] == ' ' {
      SpacesAreSpaces(s[1..], max - 1);
      assert forall i :: 1 <= i < SpacesAtMost(s, max) ==> s[i] == s[1..][i - 1];
    }
  }

  /** Protected or not, white space in front of a line is seen alike. */
  lemma {:induction false} ProtectInvisible(leader: string, x: string, cc: CharClasses)
    requires Plausible(cc) && AllSpace(leader, cc)
    ensures Solid(Visible(Protect(leader) + x), cc) == Solid(Visible(leader + x), cc)
    decreases |leader|
  {
    hide Solid, Visible, Plausible, Protect, SpacesAtMost;
    if leader == "" {
      ProtectStep(leader);
    } else {
      var n := if leader[0] == ' ' then SpacesAtMost(leader, 4) else 1;
      var later := leader[n..];
      ProtectStep(leader);
      ProtectInvisible(later, x, cc);
      if leader[0] == ' ' {
        SpacesAreSpaces(leader, 4);
        SpacesInvisible(leader, n, x, cc);
        ProtectedInvisible(Protect(later) + x, cc);
        Shift(PROTECTED, Protect(later), x);
      } else {
        assert leader == [leader[0]] + later;
        Shift([leader[0]], later, x);
        SpaceIsBlank(cc);
        NoMarkup(leader[0], cc);
        if leader[0] == '\t' {
          ProtectedInvisible(Protect(later) + x, cc);
          Shift(PROTECTED, Protect(later), x);
          BlankInvisible('\t', later + x, cc);
        } else {
          Shift([leader[0]], Protect(later), x);
          SolidPlain(leader[0], Protect(later) + x, cc);
          SolidPlain(leader[0], later + x, cc);
        }
      }
    }
  }

  lemma {:induction false} NoMarkup(c: char, cc: CharClasses)
    requires Plausible(cc) && cc.isSpace(c)
    ensures c != '<' && c != '&'
  {}

  lemma {:induction false} ProtectStep(leader: string)
    ensures leader == "" ==> Protect(leader) == leader
    ensures leader != "" && leader[0] == ' ' ==>
              SpacesAtMost(leader, 4) > 0 && Protect(leader) == PROTECTED + Protect(leader[SpacesAtMost(leader, 4)..])
    ensures leader != "" && leader[0] != ' ' ==>
              Protect(leader) == (if leader[0] == '\t' then PROTECTED else [leader[0]]) + Protect(leader[1..])
  {}

  lemma {:induction false} LeadingSpaceIsSpace(s: string, cc: CharClasses)
    ensures AllSpace(s[..LeadingSpace(s, cc)], cc)
  {
    var n := LeadingSpace(s, cc);
    if n > 0 {
      LeadingSpaceIsSpace(s[1..], cc);
      assert forall i :: 1 <= i < n ==> s[..n][i] == s[1..][..n - 1][i - 1];
    }
  }

  lemma {:induction false} AppendLineShows(preceding: string, x: string, suffix: string, y: string, cc: CharClasses)
    requires Plausible(cc) && Shows(preceding, x, cc) && Shows(suffix, y, cc)
    ensures Shows(AppendLine(preceding, suffix, cc), x + y, cc)
  {
    var n := LeadingSpace(suffix, cc);
    if n == 0 {
      ShowsAppend(preceding, x, suffix, y, cc);
    } else {
      var leader, tail := suffix[..n], suffix[n..];
      LeadingSpaceIsSpace(suffix, cc);
      ProtectedShows(leader, tail, y, suffix, cc);
      ShowsAppend(preceding, x, Protect(leader) + tail, y, cc);
      Shift(preceding, Protect(leader), tail);
    }
  }

  lemma {:induction false} ProtectedShows(leader: string, tail: string, y: string, suffix: string, cc: CharClasses)
    requires Plausible(cc) && AllSpace(leader, cc) && suffix == leader + tail && Shows(suffix, y, cc)
    ensures Shows(Protect(leader) + tail, y, cc)
  {
    hide Solid, Visible, Protect, Plausible;
    forall rest: string
      ensures Solid(Visible((Protect(leader) + tail) + rest), cc) == Solid(y, cc) + Solid(Visible(rest), cc)
    {
      Shift(Protect(leader), tail, rest);
      Shift(leader, tail, rest);
      ProtectInvisible(leader, tail + rest, cc);
    }
  }

  // ----- lines, groups and the whole text

  lemma {:induction false} BreakShows(cc: CharClasses)
    ensures Shows(BREAK, "\n", cc)
  {
    hide Visible, Solid;
    forall rest: string ensures Solid(Visible(BREAK + rest), cc) == Solid("\n", cc) + Solid(Visible(rest), cc) {
      assert BREAK + rest == "<" + ("br" + (">" + rest));
      VisibleTag("br", rest);
      SolidAppend("\n", Visible(rest), cc);
    }
  }

  lemma {:induction false} SpaceShows(cc: CharClasses)
    requires Plausible(cc)
    ensures Shows(" ", " ", cc)
  {
    hide Visible, Solid;
    SpaceIsBlank(cc);
    SolidChar(' ', cc);
    forall rest: string ensures Solid(Visible(" " + rest), cc) == Solid(" ", cc) + Solid(Visible(rest), cc) {
      BlankInvisible(' ', rest, cc);
      assert "" + Solid(Visible(rest), cc) == Solid(Visible(rest), cc);
    }
  }

  lemma {:induction false} PieceShows(piece: Piece, encode: string -> string, cc: CharClasses)
    requires Plausible(cc) && Faithful(encode, piece.line) && (piece.end == "" || piece.end == " " || piece.end == BREAK)
    ensures Shows(Show(piece, encode), RowText(piece), cc)
  {
    hide Shows, Faithful, Plausible;
    FaithfulShows(encode, piece.line, cc);
    BreakShows(cc);
    SpaceShows(cc);
    if piece.end == "" {
      LastText(piece.line);
    } else {
      ShowsAppend(encode(piece.line), piece.line, piece.end, if piece.end == BREAK then "\n" else piece.end, cc);
    }
  }

  lemma {:induction false} LayoutShows(pieces: seq<Piece>, encode: string -> string, cc: CharClasses)
    requires Plausible(cc) && EndsKnown(pieces) && AllFaithful(encode, Lines(pieces))
    ensures Shows(Layout(pieces, encode, cc), PiecesText(pieces), cc)
  {
    hide Shows, Faithful, Plausible, AppendLine, Show, RowText;
    var n := |pieces|;
    if n == 0 {
      ShowsNothing(cc);
    } else {
      assert Lines(pieces)[n - 1] == pieces[n - 1].line;
      var front := Lines(pieces[..n - 1]);
      forall i | 0 <= i < n - 1 ensures Faithful(encode, front[i]) {
        assert front[i] == Lines(pieces)[i];
      }
      LayoutShows(pieces[..n - 1], encode, cc);
      PieceShows(pieces[n - 1], encode, cc);
      AppendLineShows(Layout(pieces[..n - 1], encode, cc), PiecesText(pieces[..n - 1]),
                      Show(pieces[n - 1], encode), RowText(pieces[n - 1]), cc);
    }
  }

  lemma {:induction false} EmittedFaithful(lines: seq<string>, prepend: nat, encode: string -> string, cc: CharClasses)
    requires |lines| > 0 && AllFaithful(encode, lines)
    ensures AllFaithful(encode, Lines(Emitted(lines, prepend, cc)))
  {
    hide Faithful;
    EmittedShape(lines, prepend, cc);
  }

  /** A reader of an unwrapped text sees its rows. */
  lemma {:induction false} UnwrappedShows(txt: string, prepend: string, encode: string -> string, cc: CharClasses)
    requires Plausible(cc) && AllFaithful(encode, Split(txt, '\n'))
    ensures Shows(Unwrapped(txt, prepend, encode, cc), Rows(Split(txt, '\n'), |prepend|, cc), cc)
  {
    hide Shows, Faithful, AllFaithful, Plausible, Layout, Emitted, Split, PiecesText, EndsKnown, Rows;
    var lines := Split(txt, '\n');
    EmittedIsRows(lines, |prepend|, cc);
    EmittedFaithful(lines, |prepend|, encode, cc);
    LayoutShows(Emitted(lines, |prepend|, cc), encode, cc);
  }

  lemma {:induction false} MarkersShow(level: nat, cc: CharClasses)
    requires Plausible(cc)
    ensures Shows(Repeat("&gt; ", level), Repeat("> ", level), cc)
  {
    hide Shows;
    if level == 0 {
      ShowsNothing(cc);
    } else {
      MarkersShow(level - 1, cc);
      MarkerShows(cc);
      ShowsAppend("&gt; ", "> ", Repeat("&gt; ", level - 1), Repeat("> ", level - 1), cc);
    }
  }

  lemma {:induction false} MarkerShows(cc: CharClasses)
    requires Plausible(cc)
    ensures Shows("&gt; ", "> ", cc)
  {
    hide Solid, Visible;
    SpaceIsBlank(cc);
    SolidChar(' ', cc);
    SolidAppend(">", " ", cc);
    forall rest: string ensures Solid(Visible("&gt; " + rest), cc) == Solid("> ", cc) + Solid(Visible(rest), cc) {
      assert "&gt; " + rest == "&" + ("gt" + (";" + (" " + rest)));
      VisibleEntity("gt", " " + rest);
      BlankInvisible(' ', rest, cc);
      SolidAppend(">", Visible(" " + rest), cc);
      assert Solid(">", cc) + "" == Solid(">", cc);
      assert "> " == ">" + " ";
    }
  }

  lemma {:induction false} ColouredShows(colour: string, html: string, x: string, cc: CharClasses)
    requires '>' !in colour && Shows(html, x, cc)
    ensures Shows(Coloured(colour, html), x + "\n", cc)
  {
    hide Shows, Coloured;
    var tag := "font color=\"" + colour + "\"";
    var open, close := "<" + (tag + ">"), "<" + ("/font" + ">");
    assert tag[0] == 'f' && "/font"[0] == '/';
    TagShowsNothing(tag, cc);
    TagShowsNothing("/font", cc);
    BreakShows(cc);
    ShowsAppend(open, "", html, x, cc);
    ShowsAppend(open + html, "" + x, close, "", cc);
    ShowsAppend(open + html + close, "" + x + "", BREAK, "\n", cc);
    assert "" + x + "" == x;
    ColouredParts(colour, html);
  }

  lemma {:induction false} ColouredParts(colour: string, html: string)
    ensures Coloured(colour, html) ==
            ("<" + (("font color=\"" + colour + "\"") + ">")) + html + ("<" + ("/font" + ">")) + BREAK
  {
    assert "<font color=\"" == "<" + "font color=\"";
    assert "</font><br>" == "<" + ("/font" + ">") + BREAK;
    assert "<font color=\"" + colour + "\">" == "<" + (("font color=\"" + colour + "\"") + ">");
    Shift("<font color=\"" + colour + "\">" + html, "<" + ("/font" + ">"), BREAK);
  }

  /** A reader of a group sees its markers and then its rows, wrapped behind the markers, and a
      line break behind them. */
  lemma {:induction false} GroupShows(text: string, level: nat, colour: string, encode: string -> string, cc: CharClasses)
    requires Plausible(cc) && AllFaithful(encode, Split(text, '\n')) && '>' !in colour
    ensures Shows(GroupHtml(text, level, colour, encode, cc), GroupRows(Split(text, '\n'), level, cc), cc)
  {
    hide Shows, AllFaithful, Plausible, Unwrapped, Coloured, Split, Rows;
    var rows := Rows(Split(text, '\n'), level + level, cc);
    MarkersWidth(level);
    if level == 0 {
      UnwrappedShows(text, "", encode, cc);
      BreakShows(cc);
      ShowsAppend(Unwrapped(text, "", encode, cc), rows, BREAK, "\n", cc);
      assert "" + rows == rows;
    } else {
      var segment := Unwrapped(text, Repeat("> ", level), encode, cc);
      UnwrappedShows(text, Repeat("> ", level), encode, cc);
      MarkersShow(level, cc);
      ShowsAppend(Repeat("&gt; ", level), Repeat("> ", level), segment, rows, cc);
      ColouredShows(colour, Repeat("&gt; ", level) + segment, Repeat("> ", level) + rows, cc);
    }
  }

  lemma {:induction false} MarkersWidth(level: nat)
    ensures |Repeat("> ", level)| == level + level
    ensures level == 0 ==> Repeat("> ", level) == ""
  {
    if level > 0 {
      MarkersWidth(level - 1);
    }
  }

  /** The rows of a group behind their markers. */
  ghost function GroupRows(lines: seq<string>, level: nat, cc: CharClasses): string
    requires |lines| > 0
  {
    Repeat("> ", level) + Rows(lines, level + level, cc) + "\n"
  }

  /** The rows of the first `k` runs. Every line of a run is terminated, and so an empty one ends
      it. */
  ghost function RunsRows(runs: seq<Run>, k: nat, cc: CharClasses): string
    requires k <= |runs|
  {
    if k == 0 then "" else RunsRows(runs, k - 1, cc) + GroupRows(runs[k - 1].lines + [""], runs[k - 1].level, cc)
  }

  ghost predicate LineFaithful(encode: string -> string, line: string)
  {
    Faithful(encode, line) && '\n' !in line
  }

  ghost predicate RunsFaithful(encode: string -> string, runs: seq<Run>)
  {
    Faithful(encode, "") &&
    forall i, j :: 0 <= i < |runs| && 0 <= j < |runs[i].lines| ==> LineFaithful(encode, runs[i].lines[j])
  }

  lemma {:induction false} RunFaithful(encode: string -> string, run: Run)
    requires Faithful(encode, "") && forall j :: 0 <= j < |run.lines| ==> LineFaithful(encode, run.lines[j])
    ensures AllFaithful(encode, Split(GroupText(run.lines), '\n'))
    ensures Split(GroupText(run.lines), '\n') == run.lines + [""]
  {
    hide Faithful;
    SplitGroupText(run.lines);
  }

  lemma {:induction false} AddItemFaithful(encode: string -> string, runs: seq<Run>, item: Item)
    requires RunsFaithful(encode, runs) && LineFaithful(encode, item.text)
    ensures RunsFaithful(encode, AddItem(runs, item))
  {
    hide LineFaithful, Faithful;
    var more := AddItem(runs, item);
    forall i, j | 0 <= i < |more| && 0 <= j < |more[i].lines| ensures LineFaithful(encode, more[i].lines[j]) {
      if i < |runs| && j < |runs[i].lines| {
        assert more[i].lines[j] == runs[i].lines[j];
      } else {
        assert more[i].lines[j] == item.text;
      }
    }
  }

  lemma {:induction false} ItemsFaithful(encode: string -> string, items: seq<Item>)
    requires Faithful(encode, "") && forall i :: 0 <= i < |items| ==> LineFaithful(encode, items[i].text)
    ensures RunsFaithful(encode, Runs(items))
  {
    hide LineFaithful, Faithful, AddItem;
    if |items| > 0 {
      var n := |items| - 1;
      ItemsFaithful(encode, items[..n]);
      AddItemFaithful(encode, Runs(items[..n]), items[n]);
    }
  }

  lemma {:induction false} GroupsShow(runs: seq<Run>, k: nat, colour: string, encode: string -> string, cc: CharClasses)
    requires Plausible(cc) && '>' !in colour && k <= |runs| && RunsFaithful(encode, runs)
    ensures Shows(GroupsHtml(Texts(runs), Levels(runs), k, colour, encode, cc), RunsRows(runs, k, cc), cc)
  {
    hide Shows, AllFaithful, Plausible, GroupHtml, GroupRows, Split;
    if k == 0 {
      ShowsNothing(cc);
    } else {
      var run := runs[k - 1];
      GroupsShow(runs, k - 1, colour, encode, cc);
      RunFaithful(encode, run);
      GroupShows(GroupText(run.lines), run.level, colour, encode, cc);
      ShowsAppend(GroupsHtml(Texts(runs), Levels(runs), k - 1, colour, encode, cc), RunsRows(runs, k - 1, cc),
                  GroupHtml(GroupText(run.lines), run.level, colour, encode, cc),
                  GroupRows(run.lines + [""], run.level, cc), cc);
    }
  }

  // ----- without the line breaks at the end

  /** What ends inside an entity shows nothing definite: the entity swallows what follows. */
  lemma {:induction false} EntitySwallows(html: string, cc: CharClasses)
    requires Plausible(cc) && InEntity(html)
    ensures |Solid(Visible(html + "<"), cc)| > |Solid(Visible(html), cc)|
    decreases |html|
  {
    hide Solid, Resolve, TagText;
    var rest, longer := html[1..], html + "<";
    assert longer[0] == html[0] && longer[1..] == rest + "<";
    if html[0] == '<' {
      if '>' in rest {
        assert '>' in rest + "<";
        CutAppend(rest, '>', "<");
        EntitySwallows(Behind(rest, '>'), cc);
        SolidAppend(TagText(Before(rest, '>')), Visible(Behind(rest, '>')), cc);
        SolidAppend(TagText(Before(rest, '>')), Visible(Behind(rest, '>') + "<"), cc);
      } else {
        CutAbsent(rest, '>');
      }
    } else if html[0] == '&' {
      if ';' in rest {
        CutAppend(rest, ';', "<");
        EntitySwallows(Behind(rest, ';'), cc);
        SolidAppend(Resolve(Before(rest, ';')), Visible(Behind(rest, ';')), cc);
        SolidAppend(Resolve(Before(rest, ';')), Visible(Behind(rest, ';') + "<"), cc);
      } else {
        CutAbsent(rest, ';');
        CutAbsent(rest + "<", ';');
        LongerEntity(rest, cc);
        assert Visible(html) == Resolve(rest) + "" == Resolve(rest);
        assert Visible(longer) == Resolve(rest + "<") + "" == Resolve(rest + "<");
      }
    } else {
      EntitySwallows(rest, cc);
      SolidAppend([html[0]], Visible(rest), cc);
      SolidAppend([html[0]], Visible(rest + "<"), cc);
    }
  }

  lemma {:induction false} LongerEntity(entity: string, cc: CharClasses)
    requires Plausible(cc)
    ensures |Solid(Resolve(entity + "<"), cc)| > |Solid(Resolve(entity), cc)|
  {
    hide Solid, Resolve;
    var longer := entity + "<";
    LongerUnknown(entity);
    SolidAppend("&" + longer, ";", cc);
    SolidAppend("&", longer, cc);
    SolidAppend(entity, "<", cc);
    SolidChar('&', cc);
    SolidChar('<', cc);
    if Resolve(entity) == "&" + entity + ";" {
      SolidAppend("&" + entity, ";", cc);
      SolidAppend("&", entity, cc);
    } else {
      SolidChar(Resolve(entity)[0], cc);
    }
  }

  lemma {:induction false} LongerUnknown(entity: string)
    ensures Resolve(entity + "<") == "&" + (entity + "<") + ";"
    ensures Resolve(entity) != "&" + entity + ";" ==> |Resolve(entity)| == 1 && Resolve(entity) == [Resolve(entity)[0]]
  {
    assert (entity + "<")[|entity|] == '<';
  }

  lemma {:induction false} VisibleNothing()
    ensures Visible("") == "" && Visible("<") == ""
  {}

  lemma {:induction false} ShowsClosed(html: string, text: string, cc: CharClasses)
    requires Plausible(cc) && Shows(html, text, cc)
    ensures !InEntity(html)
    ensures Solid(Visible(html), cc) == Solid(text, cc)
  {
    hide Solid, Visible, InEntity, Plausible;
    assert html + "" == html;
    VisibleNothing();
    SolidNothing(cc);
    assert Solid(Visible(html + ""), cc) == Solid(text, cc) + Solid(Visible(""), cc) == Solid(text, cc) + "";
    assert Solid(Visible(html + "<"), cc) == Solid(text, cc) + Solid(Visible("<"), cc) == Solid(text, cc) + "";
    if InEntity(html) {
      EntitySwallows(html, cc);
    }
  }

  /** Taking line breaks off the end takes nothing else from what a reader sees. */
  lemma {:induction false} ChopSeen(html: string) returns (breaks: nat)
    requires !InEntity(html)
    ensures Visible(html) == Visible(ChopBreaks(html)) + Repeat("\n", breaks)
    decreases |html|
  {
    hide Visible, InEntity;
    if EndsWith(html, BREAK) {
      var front := html[..|html| - 4];
      assert html == front + "<br>";
      if InEntity(front) {
        StaysInEntity(front);
      }
      BreakSeen(front);
      var before := ChopSeen(front);
      breaks := before;
      if Visible(html) != Visible(front) {
        breaks := before + 1;
        RepeatAtEnd("\n", before);
        Shift(Visible(ChopBreaks(front)), Repeat("\n", before), "\n");
      }
    } else {
      breaks := 0;
      assert Visible(html) + "" == Visible(html);
    }
  }

  lemma {:induction false} ChoppedShows(html: string, text: string, cc: CharClasses) returns (breaks: nat)
    requires Plausible(cc) && Shows(html, text, cc)
    ensures Solid(Visible(ChopBreaks(html)), cc) + Repeat("\n", breaks) == Solid(text, cc)
  {
    hide Visible, Solid, Shows, InEntity, ChopBreaks, Plausible;
    ShowsClosed(html, text, cc);
    breaks := ChopSeen(html);
    SolidAppend(Visible(ChopBreaks(html)), Repeat("\n", breaks), cc);
    SolidBreaks(breaks, cc);
  }

  lemma {:induction false} SolidBreaks(n: nat, cc: CharClasses)
    ensures Solid(Repeat("\n", n), cc) == Repeat("\n", n)
  {
    hide Solid;
    SolidChar('\n', cc);
    if n > 0 {
      SolidBreaks(n - 1, cc);
      SolidAppend("\n", Repeat("\n", n - 1), cc);
    } else {
      SolidNothing(cc);
    }
  }

  lemma {:induction false} SolidNothing(cc: CharClasses)
    ensures Solid("", cc) == ""
  {}

  /** The lines of a text; behind a final newline there is none. */
  function TextLines(txt: string): (lines: seq<string>)
    ensures |lines| > 0
  {
    var lines := Split(txt, '\n');
    if |txt| > 0 && txt[|txt| - 1] == '\n' && |lines| > 1 then lines[..|lines| - 1] else lines
  }

  lemma {:induction false} TextLinesAreShown(txt: string)
    ensures BodyLines(txt) == TextLines(txt)
    ensures Split(txt, '\n') == TextLines(txt) || Split(txt, '\n') == TextLines(txt) + [""]
  {
    BodyLinesExactly(txt);
    if txt != "" && txt[|txt| - 1] == '\n' {
      assert txt == txt[..|txt| - 1] + "\n";
      SplitOfTerminated(txt);
      assert (BodyLines(txt) + [""])[..|BodyLines(txt)|] == BodyLines(txt);
    }
  }

  /** The links in the text of every line, whatever its level, hide and add nothing. */
  ghost predicate ItemsAreFaithful(encode: string -> string, txt: string)
  {
    var lines := TextLines(txt);
    Faithful(encode, "") && forall i :: 0 <= i < |lines| ==> Faithful(encode, LineItem(lines[i]).text)
  }

  /** The runs of a text. */
  function TextRuns(txt: string): seq<Run> { Runs(ItemsOf(TextLines(txt))) }

  /** What `handleReplies` returns for a text. */
  function Displayed(txt: string, colour: string, encode: string -> string, cc: CharClasses): string
  {
    ChopBreaks(RunsHtml(Runs(ItemsOf(BodyLines(txt))), colour, encode, cc))
  }

  /** What a reader of the display of a text sees, white space aside, are the groups of its lines
      in order, row by row: the markers of a group and then all of its text. Only line breaks at
      the end are missing. */
  lemma {:induction false} RepliesAreVisible(txt: string, colour: string, encode: string -> string, cc: CharClasses)
    returns (breaks: nat)
    requires Plausible(cc) && '>' !in colour && ItemsAreFaithful(encode, txt)
    ensures var runs := TextRuns(txt);
            Solid(Visible(Displayed(txt, colour, encode, cc)), cc) + Repeat("\n", breaks) ==
            Solid(RunsRows(runs, |runs|, cc), cc)
  {
    hide Shows, Faithful, Plausible, ChopBreaks, GroupsHtml, RunsRows, Runs, ItemsOf, BodyLines, TextLines, Visible, Solid;
    TextLinesAreShown(txt);
    var items, runs := ItemsOf(TextLines(txt)), TextRuns(txt);
    ItemsAreClean(txt);
    ItemsFaithful(encode, items);
    GroupsShow(runs, |runs|, colour, encode, cc);
    breaks := ChoppedShows(RunsHtml(runs, colour, encode, cc), RunsRows(runs, |runs|, cc), cc);
  }

  // ----- texts without markers

  /** `s` without any white space. */
  function Ink(s: string, cc: CharClasses): string
  {
    if s == "" then "" else (if cc.isSpace(s[0]) then "" else [s[0]]) + Ink(s[1..], cc)
  }

  lemma {:induction false} InkAppend(a: string, b: string, cc: CharClasses)
    ensures Ink(a + b, cc) == Ink(a, cc) + Ink(b, cc)
  {
    if a == "" {
      assert a + b == b;
    } else {
      InkAppend(a[1..], b, cc);
      assert (a + b)[0] == a[0] && (a + b)[1..] == a[1..] + b;
      Shift(if cc.isSpace(a[0]) then "" else [a[0]], Ink(a[1..], cc), Ink(b, cc));
    }
  }

  lemma {:induction false} InkChar(c: char, cc: CharClasses)
    ensures Ink([c], cc) == if cc.isSpace(c) then "" else [c]
  {
    assert Ink([c][1..], cc) == "";
  }

  lemma {:induction false} InkOfSolid(s: string, cc: CharClasses)
    ensures Ink(Solid(s, cc), cc) == Ink(s, cc)
  {
    if s != "" {
      var first, rest := if IsBlank(s[0], cc) then "" else [s[0]], Solid(s[1..], cc);
      InkOfSolid(s[1..], cc);
      InkAppend(first, rest, cc);
      InkChar(s[0], cc);
    }
  }

  lemma {:induction false} InkOfBreaks(n: nat, cc: CharClasses)
    requires Plausible(cc)
    ensures Ink(Repeat("\n", n), cc) == ""
  {
    if n > 0 {
      InkOfBreaks(n - 1, cc);
      InkChar('\n', cc);
      InkAppend("\n", Repeat("\n", n - 1), cc);
    }
  }

  lemma {:induction false} InkOfGap(prev: string, next: string, prefix: nat, cc: CharClasses)
    requires Plausible(cc)
    ensures Ink(Gap(prev, next, prefix, cc), cc) == ""
  {
    hide Wraps, Ink;
    InkChar(' ', cc);
    InkChar('\n', cc);
  }

  lemma {:induction false} InkOfRows(lines: seq<string>, i: nat, prefix: nat, cc: CharClasses)
    requires Plausible(cc) && i < |lines|
    ensures Ink(RowsFrom(lines, i, prefix, cc), cc) == Ink(Concat(lines[i..]), cc)
    decreases |lines| - i
  {
    hide Ink, Gap, RowsFrom, Concat, Plausible;
    ConcatFrom(lines, i);
    if i == |lines| - 1 {
      LastRow(lines, prefix, cc);
    } else {
      var gap, later := Gap(lines[i], lines[i + 1], prefix, cc), RowsFrom(lines, i + 1, prefix, cc);
      InkOfRows(lines, i + 1, prefix, cc);
      RowsStep(lines, i, prefix, cc);
      InkOfGap(lines[i], lines[i + 1], prefix, cc);
      InkAppend(gap, later, cc);
      InkAppend(lines[i], gap + later, cc);
      InkAppend(lines[i], Concat(lines[i + 1..]), cc);
      assert "" + Ink(later, cc) == Ink(later, cc);
    }
  }

  lemma {:induction false} ConcatFrom(lines: seq<string>, i: nat)
    requires i < |lines|
    ensures i + 1 < |lines| ==> Concat(lines[i..]) == lines[i] + Concat(lines[i + 1..])
    ensures i + 1 == |lines| ==> Concat(lines[i..]) == lines[i]
  {
    assert lines[i..] == [lines[i]] + lines[i + 1..];
    ConcatCons(lines[i], lines[i + 1..]);
  }

  lemma {:induction false} ConcatCons(first: string, rest: seq<string>)
    ensures Concat([first] + rest) == first + Concat(rest)
    ensures rest == [] ==> Concat([first] + rest) == first
  {
    var all := [first] + rest;
    assert all[1..] == rest;
    if rest == [] {
      assert first + "" == first;
    }
  }

  /** Of a group without markers the reader sees all the ink. */
  lemma {:induction false} InkOfGroup(lines: seq<string>, cc: CharClasses)
    requires Plausible(cc) && |lines| > 0
    ensures Ink(GroupRows(lines, 0, cc), cc) == Ink(Concat(lines), cc)
  {
    hide Ink, Concat, RowsFrom, Plausible;
    var rows := Rows(lines, 0, cc);
    MarkersWidth(0);
    assert "" + rows + "\n" == rows + "\n";
    InkAppend(rows, "\n", cc);
    InkBreak(cc);
    assert Ink(rows, cc) + "" == Ink(rows, cc);
    if |lines| > 1 && lines[0] == "" {
      InkOfRows(lines, 1, 0, cc);
      assert lines == [""] + lines[1..];
      ConcatCons("", lines[1..]);
      assert "" + Concat(lines[1..]) == Concat(lines[1..]);
    } else {
      InkOfRows(lines, 0, 0, cc);
      assert lines[0..] == lines;
    }
  }

  lemma {:induction false} InkBreak(cc: CharClasses)
    requires Plausible(cc)
    ensures Ink("\n", cc) == ""
  {
    InkChar('\n', cc);
  }

  /** Cutting a text at its newlines loses white space only. */
  lemma {:induction false} InkOfSplit(s: string, cc: CharClasses)
    requires Plausible(cc)
    ensures Ink(Concat(Split(s, '\n')), cc) == Ink(s, cc)
  {
    hide Concat, Ink, Plausible;
    if s == "" {
      ConcatCons("", []);
      assert [""] + [] == Split("", '\n');
    } else {
      var parts := Split(s[1..], '\n');
      InkOfSplit(s[1..], cc);
      assert s == [s[0]] + s[1..];
      InkAppend([s[0]], s[1..], cc);
      ConcatCons(parts[0], parts[1..]);
      assert parts == [parts[0]] + parts[1..];
      if s[0] == '\n' {
        ConcatCons("", parts);
        InkBreak(cc);
        assert "" + Concat(parts) == Concat(parts) && "" + Ink(s[1..], cc) == Ink(s[1..], cc);
      } else {
        ConcatCons([s[0]] + parts[0], parts[1..]);
        Shift([s[0]], parts[0], Concat(parts[1..]));
        InkAppend([s[0]], Concat(parts), cc);
      }
    }
  }

  /** Lines without a marker in front are a single group, as they are. */
  lemma {:induction false} PlainRuns(lines: seq<string>)
    requires |lines| > 0 && forall i :: 0 <= i < |lines| ==> lines[i] == "" || lines[i][0] != '>'
    ensures Runs(ItemsOf(lines)) == [Run(0, lines)]
  {
    hide LineItem, Runs;
    var items, run := ItemsOf(lines), Run(0, lines);
    forall i | 0 <= i < |lines| ensures items[i] == Item(0, lines[i]) {
      PlainLine(lines[i]);
    }
    assert Tag(run) == items;
    assert [run][..0] == [];
    assert Flatten([]) == [] && Flatten([run]) == [] + Tag(run) == Tag(run);
    MaximalRunsAreUnique([run], items);
  }

  /** Of a text without markers the reader sees all the ink. */
  lemma {:induction false} PlainTextIsVisible(txt: string, colour: string, encode: string -> string, cc: CharClasses)
    requires Plausible(cc) && '>' !in colour && ItemsAreFaithful(encode, txt)
    requires var lines := TextLines(txt); forall i :: 0 <= i < |lines| ==> lines[i] == "" || lines[i][0] != '>'
    ensures Ink(Visible(Displayed(txt, colour, encode, cc)), cc) == Ink(txt, cc)
  {
    hide Displayed, Visible, Solid, Ink, TextLines, ItemsAreFaithful, Plausible, GroupRows, Concat;
    var lines, html := TextLines(txt), Visible(Displayed(txt, colour, encode, cc));
    var breaks := RepliesAreVisible(txt, colour, encode, cc);
    PlainRuns(lines);
    OneRunsRows(Run(0, lines), cc);
    InkOfSolid(html, cc);
    InkAppend(Solid(html, cc), Repeat("\n", breaks), cc);
    InkOfBreaks(breaks, cc);
    InkOfSolid(GroupRows(lines + [""], 0, cc), cc);
    assert Ink(html, cc) + "" == Ink(html, cc);
    InkOfGroup(lines + [""], cc);
    TextLinesAreShown(txt);
    InkOfSplit(txt, cc);
    ConcatAppend(lines, [""]);
    ConcatCons("", []);
    assert [""] + [] == [""] && Concat(lines) + "" == Concat(lines);
  }

  lemma {:induction false} OneRunsRows(run: Run, cc: CharClasses)
    ensures RunsRows([run], 1, cc) == GroupRows(run.lines + [""], run.level, cc)
  {
    hide GroupRows;
    assert RunsRows([run], 0, cc) == "";
    assert "" + GroupRows(run.lines + [""], run.level, cc) == GroupRows(run.lines + [""], run.level, cc);
  }

  /** The links that a table of matches gives for each line hide and add nothing. */
  ghost predicate LinksOf(encode: string -> string, matches: string -> L.Matches, line: string)
  {
    L.Harmless(line, matches(line)) && encode(line) == L.Linked(line, matches(line), 0)
  }

  lemma {:induction false} LinksShow(encode: string -> string, matches: string -> L.Matches, line: string)
    requires LinksOf(encode, matches, line)
    ensures Faithful(encode, line)
  {
    LinksAreFaithful(encode, line, matches(line));
  }

  ghost predicate AllLinks(encode: string -> string, matches: string -> L.Matches, lines: seq<string>)
  {
    forall i :: 0 <= i < |lines| ==> LinksOf(encode, matches, lines[i])
  }

  lemma {:induction false} AllLinksShow(encode: string -> string, matches: string -> L.Matches, lines: seq<string>)
    requires AllLinks(encode, matches, lines)
    ensures AllFaithful(encode, lines)
  {
    hide LinksOf, Faithful;
    forall i | 0 <= i < |lines| ensures Faithful(encode, lines[i]) {
      LinksShow(encode, matches, lines[i]);
    }
  }

  /** The same for lines whose links are made by `encodeUrlAndMail`. */
  lemma {:induction false} LinkedRepliesAreVisible(txt: string, colour: string, encode: string -> string,
                                                   matches: string -> L.Matches, cc: CharClasses) returns (breaks: nat)
    requires Plausible(cc) && '>' !in colour && LinksOf(encode, matches, "")
    requires var lines := TextLines(txt);
             forall i :: 0 <= i < |lines| ==> LinksOf(encode, matches, LineItem(lines[i]).text)
    ensures var runs := TextRuns(txt);
            Solid(Visible(Displayed(txt, colour, encode, cc)), cc) + Repeat("\n", breaks) ==
            Solid(RunsRows(runs, |runs|, cc), cc)
  {
    hide LinksOf, Faithful, Plausible, TextRuns, TextLines, LineItem, Displayed, RunsRows, Visible, Solid;
    var lines := TextLines(txt);
    LinksShow(encode, matches, "");
    forall i | 0 <= i < |lines| ensures Faithful(encode, LineItem(lines[i]).text) {
      LinksShow(encode, matches, LineItem(lines[i]).text);
    }
    breaks := RepliesAreVisible(txt, colour, encode, cc);
  }

  // ----- the display that keeps the line breaks

  lemma {:induction false} LineShows(line: string, colour: string, encode: string -> string, cc: CharClasses)
    requires '>' !in colour && Faithful(encode, line)
    ensures Shows(LineHtml(line, colour, encode), line + "\n", cc)
  {
    hide Shows, Faithful, Coloured, Markers;
    FaithfulShows(encode, line, cc);
    if Markers(line) == 0 {
      BreakShows(cc);
      ShowsAppend(encode(line), line, BREAK, "\n", cc);
    } else {
      ColouredShows(colour, encode(line), line, cc);
    }
  }

  lemma {:induction false} LinesShow(lines: seq<string>, k: nat, colour: string, encode: string -> string, cc: CharClasses)
    requires '>' !in colour && k <= |lines| && AllFaithful(encode, lines)
    ensures Shows(LinesHtml(lines, k, colour, encode), GroupText(lines[..k]), cc)
  {
    hide Shows, Faithful, LineHtml, GroupText;
    if k == 0 {
      ShowsNothing(cc);
      NoLines();
      assert lines[..0] == [];
    } else {
      LinesShow(lines, k - 1, colour, encode, cc);
      LineShows(lines[k - 1], colour, encode, cc);
      GroupTextStep(lines[..k - 1], lines[k - 1]);
      assert lines[..k] == lines[..k - 1] + [lines[k - 1]];
      ShowsAppend(LinesHtml(lines, k - 1, colour, encode), GroupText(lines[..k - 1]),
                  LineHtml(lines[k - 1], colour, encode), lines[k - 1] + "\n", cc);
      Shift(GroupText(lines[..k - 1]), lines[k - 1], "\n");
    }
  }

  /** What a reader of the other display sees, white space inside the rows aside, is the text with
      its rows. Only line breaks at the end are missing. */
  lemma {:induction false} NoBreakRepliesAreVisible(txt: string, colour: string, encode: string -> string, cc: CharClasses)
    returns (breaks: nat)
    requires Plausible(cc) && '>' !in colour && AllFaithful(encode, Split(txt, '\n'))
    ensures var lines := Split(txt, '\n');
            Solid(Visible(ChopBreaks(LinesHtml(lines, |lines|, colour, encode))), cc) + Repeat("\n", breaks) ==
            Solid(txt + "\n", cc)
  {
    hide Shows, AllFaithful, Plausible, ChopBreaks, LinesHtml, Visible, Solid, Split, GroupText;
    var lines := Split(txt, '\n');
    LinesShow(lines, |lines|, colour, encode, cc);
    assert lines[..|lines|] == lines;
    GroupTextOfSplit(txt);
    breaks := ChoppedShows(LinesHtml(lines, |lines|, colour, encode), txt + "\n", cc);
  }

  lemma {:induction false} LinkedNoBreakRepliesAreVisible(txt: string, colour: string, encode: string -> string,
                                                          matches: string -> L.Matches, cc: CharClasses) returns (breaks: nat)
    requires Plausible(cc) && '>' !in colour
    requires AllLinks(encode, matches, Split(txt, '\n'))
    ensures var lines := Split(txt, '\n');
            Solid(Visible(ChopBreaks(LinesHtml(lines, |lines|, colour, encode))), cc) + Repeat("\n", breaks) ==
            Solid(txt + "\n", cc)
  {
    hide AllLinks, AllFaithful, Plausible, Split, ChopBreaks, LinesHtml, Visible, Solid;
    AllLinksShow(encode, matches, Split(txt, '\n'));
    breaks := NoBreakRepliesAreVisible(txt, colour, encode, cc);
  }

  // ----- paragraphs

  /** A group made of a wrapped paragraph is seen in one row behind its markers, whatever its level;
      the line break at its end is that of the group. */
  lemma {:induction false} ParagraphGroupShows(line: string, words: seq<string>, level: nat, width: nat,
                                               colour: string, encode: string -> string, cc: CharClasses)
    requires Plausible(cc) && '>' !in colour && IsProse(words, cc) && line != "" && width >= 79
    requires var lines := Wrapped(line, words, 0, level + level, width);
             && AllFaithful(encode, lines + [""])
             && forall i :: 0 <= i < |lines| ==> '\n' !in lines[i]
    ensures var lines := Wrapped(line, words, 0, level + level, width);
            Shows(GroupHtml(GroupText(lines), level, colour, encode, cc),
                  Repeat("> ", level) + (OneLine(line, words, 0)
                    + Gap(lines[|lines| - 1], "", level + level, cc)) + "\n", cc)
  {
    hide Shows, AllFaithful, Plausible, GroupHtml, GroupText, Split, Gap, Wrapped, OneLine, RowsFrom, IsProse;
    var lines := Wrapped(line, words, 0, level + level, width);
    SplitGroupText(lines);
    GroupShows(GroupText(lines), level, colour, encode, cc);
    WrappedIsNotEmpty(line, words, 0, level + level, width);
    RowsBeforeEmpty(lines, 0, level + level, cc);
    ParagraphIsRejoined(line, words, 0, level + level, width, cc);
  }

  lemma {:induction false} WrappedIsNotEmpty(line: string, words: seq<string>, i: nat, prefix: nat, width: nat)
    requires line != ""
    ensures Wrapped(line, words, i, prefix, width)[0] != ""
  {
    WrappedBegins(line, words, i, prefix, width);
  }

  lemma {:induction false} RowsBeforeEmpty(lines: seq<string>, i: nat, prefix: nat, cc: CharClasses)
    requires i < |lines|
    ensures RowsFrom(lines + [""], i, prefix, cc) == RowsFrom(lines, i, prefix, cc) + Gap(lines[|lines| - 1], "", prefix, cc)
    decreases |lines| - i
  {
    hide Gap, RowsFrom;
    var all := lines + [""];
    RowsStep(all, i, prefix, cc);
    if i == |lines| - 1 {
      LastRow(lines, prefix, cc);
      LastRow(all, prefix, cc);
      assert Gap(lines[i], "", prefix, cc) + "" == Gap(lines[i], "", prefix, cc);
    } else {
      RowsStep(lines, i, prefix, cc);
      RowsBeforeEmpty(lines, i + 1, prefix, cc);
      Shift(Gap(lines[i], lines[i + 1], prefix, cc), RowsFrom(lines, i + 1, prefix, cc), Gap(lines[|lines| - 1], "", prefix, cc));
      Shift(lines[i], Gap(lines[i], lines[i + 1], prefix, cc) + RowsFrom(lines, i + 1, prefix, cc),
            Gap(lines[|lines| - 1], "", prefix, cc));
    }
  }
}

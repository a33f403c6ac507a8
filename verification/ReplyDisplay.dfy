/** Displaying a text: all its reply groups, or line by line with the line breaks kept. */
module ReplyDisplay {
  import opened Text
  import opened ReplyLevels
  import opened ReplyGroups
  import opened Unwrapping

  /** `s` without the line breaks at its end. */
  function ChopBreaks(s: string): string
    decreases |s|
  {
    if EndsWith(s, BREAK) then ChopBreaks(s[..|s| - 4]) else s
  }

  function Coloured(colour: string, html: string): string
  {
    "<font color=\"" + colour + "\">" + html + "</font><br>"
  }

  function GroupHtml(text: string, level: nat, colour: string, encode: string -> string, cc: CharClasses): string
  {
    if level == 0 then Unwrapped(text, "", encode, cc) + BREAK
    else Coloured(colour, Repeat("&gt; ", level) + Unwrapped(text, Repeat("> ", level), encode, cc))
  }

  /** The display of the groups up to the `k`-th. */
  function GroupsHtml(out: seq<string>, levels: seq<nat>, k: nat,
                      colour: string, encode: string -> string, cc: CharClasses): string
    requires k <= |out| == |levels|
  {
    if k == 0 then ""
    else GroupsHtml(out, levels, k - 1, colour, encode, cc) +
         GroupHtml(out[k - 1], levels[k - 1], colour, encode, cc)
  }

  function RunsHtml(runs: seq<Run>, colour: string, encode: string -> string, cc: CharClasses): string
  {
    GroupsHtml(Texts(runs), Levels(runs), |runs|, colour, encode, cc)
  }

  method HandleReplies(txt: string, colour: string, encode: string -> string, cc: CharClasses) returns (str: string)
    ensures str == ChopBreaks(RunsHtml(Runs(ItemsOf(BodyLines(txt))), colour, encode, cc))
  {
    var out, levelList := GroupReplies(txt);
    str := "";
    var pos := 0;
    hide GroupHtml, ChopBreaks, Runs, BodyLines, ItemsOf;
    while pos < |out|
      invariant 0 <= pos <= |out| == |levelList|
      invariant str == GroupsHtml(out, levelList, pos, colour, encode, cc)
    {
      var html := DisplayGroup(out[pos], levelList[pos], colour, encode, cc);
      str := str + html;
      pos := pos + 1;
    }
    str := Chop(str);
  }

  /** The body of the loop over the groups. */
  method DisplayGroup(text: string, level: nat, colour: string, encode: string -> string, cc: CharClasses)
    returns (html: string)
    ensures html == GroupHtml(text, level, colour, encode, cc)
  {
    if level == 0 {
      var segment := Unwrap(text, "", encode, cc);
      html := segment + BREAK;
    } else {
      var pre, preString := "", "";
      for x := 0 to level
        invariant pre == Repeat("&gt; ", x) && preString == Repeat("> ", x)
      {
        RepeatAtEnd("&gt; ", x);
        RepeatAtEnd("> ", x);
        pre := pre + "&gt; ";
        preString := preString + "> ";
      }
      var segment := Unwrap(text, preString, encode, cc);
      html := Coloured(colour, pre + segment);
    }
  }

  method Chop(html: string) returns (str: string)
    ensures str == ChopBreaks(html)
  {
    str := html;
    while EndsWith(str, "<br>")
      invariant ChopBreaks(str) == ChopBreaks(html)
      decreases |str|
    {
      str := str[..|str| - 4];
    }
  }

  lemma {:induction false} RepeatAtEnd(unit: string, k: nat)
    ensures Repeat(unit, k + 1) == Repeat(unit, k) + unit
  {
    if k > 0 {
      RepeatAtEnd(unit, k - 1);
      Shift(unit, Repeat(unit, k - 1), unit);
    }
  }

  /** Only line breaks are chopped, and all of them. */
  lemma {:induction false} ChopRemovesBreaks(s: string) returns (k: nat)
    ensures s == ChopBreaks(s) + Repeat(BREAK, k)
    ensures !EndsWith(ChopBreaks(s), BREAK)
    decreases |s|
  {
    if EndsWith(s, BREAK) {
      var front := s[..|s| - 4];
      var j := ChopRemovesBreaks(front);
      k := j + 1;
      RepeatAtEnd(BREAK, j);
      Shift(ChopBreaks(front), Repeat(BREAK, j), BREAK);
    } else {
      k := 0;
    }
  }

  // ----- no text is lost

  /** The lines displayed for a run. */
  function Shown(run: Run, cc: CharClasses): seq<Item>
  {
    Tag(Run(run.level, Lines(Emitted(Split(GroupText(run.lines), '\n'), |Repeat("> ", run.level)|, cc))))
  }

  function AllShown(runs: seq<Run>, cc: CharClasses): seq<Item>
  {
    if |runs| == 0 then [] else AllShown(runs[..|runs| - 1], cc) + Shown(runs[|runs| - 1], cc)
  }

  function NonEmpty(items: seq<Item>): seq<Item>
  {
    if |items| == 0 then []
    else
      var front := NonEmpty(items[..|items| - 1]);
      if items[|items| - 1].text == "" then front else front + [items[|items| - 1]]
  }

  predicate Clean(items: seq<Item>)
  {
    forall i :: 0 <= i < |items| ==> '\n' !in items[i].text
  }

  /** The lines displayed, empty ones aside, are all lines of the text, empty ones aside, with
      their levels. */
  lemma {:induction false} NoTextIsLost(txt: string, cc: CharClasses)
    ensures NonEmpty(AllShown(Runs(ItemsOf(BodyLines(txt))), cc)) == NonEmpty(ItemsOf(Split(txt, '\n')))
  {
    hide AllShown, NonEmpty, Runs, BodyLines;
    var items := ItemsOf(BodyLines(txt));
    ItemsAreClean(txt);
    RunsAreMaximal(items);
    RunsAreShown(Runs(items), cc);
    BodyLinesExactly(txt);
    EmptyLineAtEnd(BodyLines(txt));
  }

  lemma {:induction false} EmptyLineAtEnd(lines: seq<string>)
    ensures NonEmpty(ItemsOf(lines + [""])) == NonEmpty(ItemsOf(lines))
  {
    var items := ItemsOf(lines + [""]);
    assert items[..|lines|] == ItemsOf(lines);
    assert items[|lines|] == LineItem("") && LineItem("").text == "";
  }

  lemma {:induction false} ItemsAreClean(txt: string)
    ensures Clean(ItemsOf(BodyLines(txt)))
  {
    SplitPartsAreClean(txt, '\n');
    var lines := BodyLines(txt);
    forall i | 0 <= i < |lines|
      ensures '\n' !in LineItem(lines[i]).text
    {
      assert lines[i] == Split(txt, '\n')[i];
      LineItemIsClean(lines[i]);
    }
  }

  lemma {:induction false} LineItemIsClean(line: string)
    requires '\n' !in line
    ensures '\n' !in LineItem(line).text
  {
    SpacedIsClean(' ', line);
  }

  lemma {:induction false} SpacedIsClean(prev: char, s: string)
    requires '\n' !in s
    ensures '\n' !in Spaced(prev, s)
    decreases |s|
  {
    if s != "" && IsMarker(s[0]) {
      SpacedIsClean(s[0], s[1..]);
    }
  }

  lemma {:induction false} RunsAreShown(runs: seq<Run>, cc: CharClasses)
    requires Alternating(runs) && Clean(Flatten(runs))
    ensures NonEmpty(AllShown(runs, cc)) == NonEmpty(Flatten(runs))
    decreases |runs|
  {
    if |runs| > 0 {
      var front, last := runs[..|runs| - 1], runs[|runs| - 1];
      CleanParts(Flatten(front), Tag(last));
      RunsAreShown(front, cc);
      RunIsShown(last, cc);
      NonEmptyAppend(AllShown(front, cc), Shown(last, cc));
      NonEmptyAppend(Flatten(front), Tag(last));
    }
  }

  lemma {:induction false} CleanParts(a: seq<Item>, b: seq<Item>)
    requires Clean(a + b)
    ensures Clean(a) && Clean(b)
  {
    assert forall i :: 0 <= i < |a| ==> (a + b)[i] == a[i];
    assert forall i :: 0 <= i < |b| ==> (a + b)[|a| + i] == b[i];
  }

  lemma {:induction false} RunIsShown(run: Run, cc: CharClasses)
    requires run.lines != [] && Clean(Tag(run))
    ensures NonEmpty(Shown(run, cc)) == NonEmpty(Tag(run))
  {
    ShownShape(run, cc);
    if run.lines[0] == "" {
      WithoutEmptyHead(Shown(run, cc), Tag(run));
    } else {
      assert Shown(run, cc) == Tag(run);
    }
  }

  /** What is shown of a run: all its lines but an empty first one. */
  lemma {:induction false} ShownShape(run: Run, cc: CharClasses)
    requires run.lines != [] && Clean(Tag(run))
    ensures var from := if run.lines[0] == "" then 1 else 0;
            && |Shown(run, cc)| == |Tag(run)| - from
            && forall i :: 0 <= i < |Shown(run, cc)| ==> Shown(run, cc)[i] == Tag(run)[from + i]
  {
    var lines := run.lines;
    assert forall i :: 0 <= i < |lines| ==> lines[i] == Tag(run)[i].text;
    SplitGroupText(lines);
    EmittedShape(lines + [""], |Repeat("> ", run.level)|, cc);
  }

  lemma {:induction false} WithoutEmptyHead(shown: seq<Item>, all: seq<Item>)
    requires |all| > 0 && all[0].text == ""
    requires |shown| == |all| - 1 && forall i :: 0 <= i < |shown| ==> shown[i] == all[1 + i]
    ensures NonEmpty(shown) == NonEmpty(all)
  {
    NonEmptyAppend([all[0]], shown);
    assert [all[0]] + shown == all;
  }

  lemma {:induction false} SplitGroupText(lines: seq<string>)
    requires forall i :: 0 <= i < |lines| ==> '\n' !in lines[i]
    ensures Split(GroupText(lines), '\n') == lines + [""]
  {
    var n := |lines|;
    if n > 0 {
      var front := lines[..n - 1];
      SplitGroupText(front);
      SplitLastLine(GroupText(front), front, lines[n - 1]);
      assert lines == front + [lines[n - 1]];
    }
  }

  lemma {:induction false} SplitLastLine(text: string, lines: seq<string>, line: string)
    requires Split(text, '\n') == lines + [""] && '\n' !in line
    ensures Split(text + line + "\n", '\n') == lines + [line] + [""]
  {
    JoinLast(text, lines, line);
    assert text + line + "\n" == (text + line) + ['\n'] + "";
    SplitAtSeparator(text + line, "", '\n');
  }

  /** Text without a separator, put behind a text, extends its last part. */
  lemma {:induction false} JoinLast(text: string, lines: seq<string>, line: string)
    requires Split(text, '\n') == lines + [""] && '\n' !in line
    ensures Split(text + line, '\n') == lines + [line]
    decreases |text|
  {
    if text == "" {
      assert text + line == line;
      SplitClean(line, '\n');
      assert Split(text, '\n') == [""];
      assert |lines| == 0;
    } else {
      var rest := Split(text[1..], '\n');
      assert (text + line)[0] == text[0] && (text + line)[1..] == text[1..] + line;
      var more := rest[..|rest| - 1];
      LastOfPrepend(text[0], rest);
      JoinLast(text[1..], more, line);
      PrependLast(text[0], more, lines, line);
    }
  }

  lemma {:induction false} PrependLast(c: char, more: seq<string>, lines: seq<string>, line: string)
    requires Prepend(c, '\n', more + [""]) == lines + [""]
    ensures Prepend(c, '\n', more + [line]) == lines + [line]
  {
    if |more| == 0 {
      assert more + [""] == [""] && more + [line] == [line];
      assert |[c] + ""| == 1;
      SameFront([""], lines, "");
    } else {
      PrependAppend(c, '\n', more, [""]);
      PrependAppend(c, '\n', more, [line]);
      SameFront(Prepend(c, '\n', more), lines, "");
    }
  }

  lemma {:induction false} SameFront<T>(a: seq<T>, b: seq<T>, x: T)
    requires a + [x] == b + [x]
    ensures a == b
  {
    assert (a + [x])[..|a|] == a && (b + [x])[..|b|] == b;
  }

  lemma {:induction false} LastOfPrepend(c: char, parts: seq<string>)
    requires |parts| >= 1
    ensures var all := Prepend(c, '\n', parts);
            all[|all| - 1] == "" ==> parts == parts[..|parts| - 1] + [""]
  {}

  lemma {:induction false} NonEmptyAppend(a: seq<Item>, b: seq<Item>)
    ensures NonEmpty(a + b) == NonEmpty(a) + NonEmpty(b)
    decreases |b|
  {
    if |b| == 0 {
      assert a + b == a;
    } else {
      NonEmptyAppend(a, b[..|b| - 1]);
      assert (a + b)[..|a + b| - 1] == a + b[..|b| - 1];
    }
  }

  // ----- the display that keeps the line breaks

  function LineHtml(line: string, colour: string, encode: string -> string): string
  {
    if Markers(line) == 0 then encode(line) + BREAK else Coloured(colour, encode(line))
  }

  function LinesHtml(lines: seq<string>, k: nat, colour: string, encode: string -> string): string
    requires k <= |lines|
  {
    if k == 0 then "" else LinesHtml(lines, k - 1, colour, encode) + LineHtml(lines[k - 1], colour, encode)
  }

  method NoBreakReplies(txt: string, colour: string, encode: string -> string) returns (str: string)
    ensures var lines := Split(txt, '\n');
            str == ChopBreaks(LinesHtml(lines, |lines|, colour, encode))
  {
    hide Coloured, Split, ChopBreaks, LinesHtml, Markers;
    str := "";
    var p := Split(txt, '\n');
    var it := 0;
    NoLinesHtml(p, colour, encode);
    while it != |p|
      invariant 0 <= it <= |p|
      invariant str == LinesHtml(p, it, colour, encode)
      decreases |p| - it
    {
      LinesHtmlStep(p, it, colour, encode);
      var level := CountMarkers(p[it]);
      var html := encode(p[it]);
      if level == 0 {
        str := str + (html + "<br>");
      } else {
        str := str + Coloured(colour, html);
      }
      it := it + 1;
    }
    str := Chop(str);
  }

  lemma {:induction false} NoLinesHtml(lines: seq<string>, colour: string, encode: string -> string)
    ensures LinesHtml(lines, 0, colour, encode) == ""
  {}

  lemma {:induction false} LinesHtmlStep(lines: seq<string>, k: nat, colour: string, encode: string -> string)
    requires k < |lines|
    ensures LinesHtml(lines, k + 1, colour, encode) ==
            LinesHtml(lines, k, colour, encode) + LineHtml(lines[k], colour, encode)
  {}

  // ----- colours

  /** Groups of replies are coloured, and nothing else. */
  lemma {:induction false} GroupColour(text: string, level: nat, colour: string, encode: string -> string, cc: CharClasses)
    ensures level > 0 ==> StartsWith(GroupHtml(text, level, colour, encode, cc), "<font color=\"" + colour + "\">")
    ensures level == 0 ==> GroupHtml(text, level, colour, encode, cc) == Unwrapped(text, "", encode, cc) + "<br>"
  {
    hide Unwrapped;
    if level > 0 {
      ColourInFront(colour, Repeat("&gt; ", level) + Unwrapped(text, Repeat("> ", level), encode, cc));
    }
  }

  lemma {:induction false} ColourInFront(colour: string, html: string)
    ensures StartsWith(Coloured(colour, html), "<font color=\"" + colour + "\">")
  {
    var open := "<font color=\"" + colour + "\">";
    assert Coloured(colour, html) == open + (html + "</font><br>");
    assert (open + (html + "</font><br>"))[..|open|] == open;
  }

  /** A line is coloured exactly if its first character other than a space is a marker. */
  lemma {:induction false} LineColour(line: string, k: nat, colour: string, encode: string -> string)
    requires k <= |line| && (forall i :: 0 <= i < k ==> line[i] == ' ') && (k < |line| ==> line[k] != ' ')
    ensures k < |line| && line[k] == '>' ==> StartsWith(LineHtml(line, colour, encode), "<font color=\"" + colour + "\">")
    ensures k == |line| || line[k] != '>' ==> LineHtml(line, colour, encode) == encode(line) + "<br>"
  {
    hide Coloured;
    MarkersBehindSpaces(line, k);
    ColourInFront(colour, encode(line));
  }

  lemma {:induction false} MarkersBehindSpaces(line: string, k: nat)
    requires k <= |line| && (forall i :: 0 <= i < k ==> line[i] == ' ') && (k < |line| ==> line[k] != ' ')
    ensures Markers(line) > 0 <==> k < |line| && line[k] == '>'
  {
    if k > 0 {
      MarkersBehindSpaces(line[1..], k - 1);
    }
  }
}

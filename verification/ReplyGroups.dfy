/** Grouping the lines of a text by reply level: the first half of `handleReplies`. */
module ReplyGroups {
  import opened Text
  import opened ReplyLevels

  /** Consecutive lines of one level, markers cut off. */
  datatype Run = Run(level: nat, lines: seq<string>)

  /** The lines `handleReplies` looks at: the empty one behind a final newline is skipped. */
  function BodyLines(txt: string): seq<string>
  {
    var p := Split(txt, '\n');
    if EndsWith(txt, "\n") then p[..|p| - 1] else p
  }

  function ItemsOf(lines: seq<string>): (items: seq<Item>)
    ensures |items| == |lines|
    ensures forall i :: 0 <= i < |lines| ==> items[i] == LineItem(lines[i])
  {
    seq(|lines|, i requires 0 <= i < |lines| => LineItem(lines[i]))
  }

  /** The text of a group: each of its lines, terminated. */
  function GroupText(lines: seq<string>): string
  {
    if |lines| == 0 then "" else GroupText(lines[..|lines| - 1]) + lines[|lines| - 1] + "\n"
  }

  /** The runs after one more item. */
  function AddItem(runs: seq<Run>, item: Item): (r: seq<Run>)
    ensures |r| > 0
  {
    var n := |runs|;
    if n > 0 && runs[n - 1].level == item.level
    then runs[..n - 1] + [Run(item.level, runs[n - 1].lines + [item.text])]
    else runs + [Run(item.level, [item.text])]
  }

  function Runs(items: seq<Item>): (runs: seq<Run>)
  {
    if |items| == 0 then [] else AddItem(Runs(items[..|items| - 1]), items[|items| - 1])
  }

  function Tag(run: Run): seq<Item>
  {
    seq(|run.lines|, i requires 0 <= i < |run.lines| => Item(run.level, run.lines[i]))
  }

  function Flatten(runs: seq<Run>): seq<Item>
  {
    if |runs| == 0 then [] else Flatten(runs[..|runs| - 1]) + Tag(runs[|runs| - 1])
  }

  ghost predicate Alternating(runs: seq<Run>)
  {
    && (forall i :: 0 <= i < |runs| ==> runs[i].lines != [])
    && (forall i :: 0 < i < |runs| ==> runs[i - 1].level != runs[i].level)
  }

  /** `runs` cuts `items` into non-empty pieces, changing level at every cut and nowhere else. */
  ghost predicate MaximalRuns(runs: seq<Run>, items: seq<Item>)
  {
    Alternating(runs) && Flatten(runs) == items
  }

  function Texts(runs: seq<Run>): (r: seq<string>)
    ensures |r| == |runs|
    ensures forall i :: 0 <= i < |runs| ==> r[i] == GroupText(runs[i].lines)
  {
    seq(|runs|, i requires 0 <= i < |runs| => GroupText(runs[i].lines))
  }

  function Levels(runs: seq<Run>): (r: seq<nat>)
    ensures |r| == |runs|
    ensures forall i :: 0 <= i < |runs| ==> r[i] == runs[i].level
  {
    seq(|runs|, i requires 0 <= i < |runs| => runs[i].level)
  }

  method GroupReplies(txt: string) returns (out: seq<string>, levelList: seq<nat>)
    ensures out == Texts(Runs(ItemsOf(BodyLines(txt))))
    ensures levelList == Levels(Runs(ItemsOf(BodyLines(txt))))
  {
    var p := Split(txt, '\n');
    // a final newline begins no line of its own
    var offset := 0;
    if EndsWith(txt, "\n") {
      SplitOfTerminated(txt);
      offset := 1;
    }
    assert p[..|p| - offset] == BodyLines(txt);
    out, levelList := GroupLines(p, offset);
  }

  /** The loop over the lines. It ends the current group at a change of level and steps the
      iterator back, so that the same line is looked at again. */
  method GroupLines(p: seq<string>, offset: nat) returns (out: seq<string>, levelList: seq<nat>)
    requires offset <= |p|
    ensures out == Texts(Runs(ItemsOf(p[..|p| - offset])))
    ensures levelList == Levels(Runs(ItemsOf(p[..|p| - offset])))
  {
    hide Rest, Runs, Texts, Levels, Strip, Level, Normalise, ItemsOf, LineItem;
    out, levelList := [], [];
    var it := 0;
    var lastLevel: nat, level: nat := 0, 0;
    var str, line := "", "";
    ghost var items := ItemsOf(p[..|p| - offset]);
    while it + offset != |p|
      invariant 0 <= it <= |items| == |p| - offset
      invariant Rest(out, levelList, lastLevel, str, items, it) == Rest([], [], 0, "", items, 0)
      invariant str != "" ==> level == lastLevel
      decreases |items| - it, if it < |items| && items[it].level != lastLevel then 1 else 0
    {
      line, level := ScanLine(p[it]);
      ItemAt(p, |p| - offset, it);
      RestStep(out, levelList, lastLevel, str, items, it);
      if level != lastLevel {
        if str != "" {
          out := out + [str];
          levelList := levelList + [lastLevel];
        }
        str := "";
        lastLevel := level;
        it := it - 1;
      } else {
        str := str + Strip(line, level) + "\n";
      }
      it := it + 1;
    }
    RestEnd(out, levelList, lastLevel, str, items);
    if str != "" {
      out := out + [str];
      levelList := levelList + [level];
    }
    RestOfAll(items);
  }

  /** Group texts and group levels, in step. */
  datatype Groups = Groups(texts: seq<string>, levels: seq<nat>)

  /** What the loop still has to do from a given state. */
  ghost function Rest(out: seq<string>, levels: seq<nat>, last: nat, str: string,
                      items: seq<Item>, it: nat): Groups
    requires it <= |items|
    decreases |items| - it, if it < |items| && items[it].level != last then 1 else 0
  {
    if it == |items| then
      if str == "" then Groups(out, levels) else Groups(out + [str], levels + [last])
    else if items[it].level != last then
      if str == "" then Rest(out, levels, items[it].level, "", items, it)
      else Rest(out + [str], levels + [last], items[it].level, "", items, it)
    else
      Rest(out, levels, last, str + items[it].text + "\n", items, it + 1)
  }

  lemma {:induction false} ItemAt(p: seq<string>, n: nat, it: nat)
    requires it < n <= |p|
    ensures ItemsOf(p[..n])[it] == Item(Level(p[it]), Strip(Normalise(p[it]), Level(p[it])))
  {}

  lemma {:induction false} RestStep(out: seq<string>, levels: seq<nat>, last: nat, str: string, items: seq<Item>, it: nat)
    requires it < |items|
    ensures Rest(out, levels, last, str, items, it) ==
            if items[it].level == last then Rest(out, levels, last, str + items[it].text + "\n", items, it + 1)
            else if str == "" then Rest(out, levels, items[it].level, "", items, it)
            else Rest(out + [str], levels + [last], items[it].level, "", items, it)
  {}

  lemma {:induction false} RestEnd(out: seq<string>, levels: seq<nat>, last: nat, str: string, items: seq<Item>)
    ensures Rest(out, levels, last, str, items, |items|) ==
            if str == "" then Groups(out, levels) else Groups(out + [str], levels + [last])
  {}

  lemma {:induction false} RestOfAll(items: seq<Item>)
    ensures Rest([], [], 0, "", items, 0) == Groups(Texts(Runs(items)), Levels(Runs(items)))
  {
    RestIsRuns([], 0, [], items, 0);
    RunsFromFront(items, 0);
    assert items[..0] == [];
  }

  ghost function RunsFrom(runs: seq<Run>, items: seq<Item>, it: nat): seq<Run>
    requires it <= |items|
    decreases |items| - it
  {
    if it == |items| then runs else RunsFrom(AddItem(runs, items[it]), items, it + 1)
  }

  lemma {:induction false} RunsFromFront(items: seq<Item>, k: nat)
    requires k <= |items|
    ensures RunsFrom(Runs(items[..k]), items, k) == Runs(items)
    decreases |items| - k
  {
    if k == |items| {
      assert items[..k] == items;
    } else {
      RunsFromFront(items, k + 1);
      assert items[..k + 1][..k] == items[..k];
    }
  }

  /** The finished runs and the one being collected, if it has any lines. */
  ghost function Close(runs: seq<Run>, level: nat, cur: seq<string>): seq<Run>
  {
    if cur == [] then runs else runs + [Run(level, cur)]
  }

  lemma {:induction false} RestIsRuns(runs: seq<Run>, last: nat, cur: seq<string>, items: seq<Item>, it: nat)
    requires it <= |items|
    requires cur == [] && runs != [] ==> it < |items| && items[it].level == last != runs[|runs| - 1].level
    ensures var all := RunsFrom(Close(runs, last, cur), items, it);
            Rest(Texts(runs), Levels(runs), last, GroupText(cur), items, it) == Groups(Texts(all), Levels(all))
    decreases |items| - it, if it < |items| && items[it].level != last then 1 else 0
  {
    hide Rest, RunsFrom, Close, AddItem, Texts, Levels, GroupText;
    CloseGroups(runs, last, cur);
    RunsFromStep(Close(runs, last, cur), items, it);
    if it == |items| {
      RestEnd(Texts(runs), Levels(runs), last, GroupText(cur), items);
    } else if items[it].level != last {
      var level, closed := items[it].level, Close(runs, last, cur);
      RestStep(Texts(runs), Levels(runs), last, GroupText(cur), items, it);
      ClosedLevel(runs, last, cur, level);
      RestIsRuns(closed, level, [], items, it);
    } else {
      var text := items[it].text;
      RestStep(Texts(runs), Levels(runs), last, GroupText(cur), items, it);
      GroupTextStep(cur, text);
      CloseOneMore(runs, last, cur, text);
      assert items[it] == Item(last, text);
      RestIsRuns(runs, last, cur + [text], items, it + 1);
    }
  }

  lemma {:induction false} RunsFromStep(runs: seq<Run>, items: seq<Item>, it: nat)
    requires it <= |items|
    ensures RunsFrom(runs, items, it) ==
            if it == |items| then runs else RunsFrom(AddItem(runs, items[it]), items, it + 1)
  {
    hide AddItem;
  }

  lemma {:induction false} ClosedLevel(runs: seq<Run>, last: nat, cur: seq<string>, level: nat)
    requires level != last && (cur == [] ==> runs == [])
    ensures var closed := Close(runs, last, cur);
            Close(closed, level, []) == closed && (closed != [] ==> closed[|closed| - 1].level != level)
    ensures GroupText([]) == ""
  {}

  lemma {:induction false} CloseGroups(runs: seq<Run>, last: nat, cur: seq<string>)
    ensures GroupText(cur) == "" <==> cur == []
    ensures var closed := Close(runs, last, cur);
            && Texts(closed) == (if cur == [] then Texts(runs) else Texts(runs) + [GroupText(cur)])
            && Levels(closed) == (if cur == [] then Levels(runs) else Levels(runs) + [last])
  {}

  lemma {:induction false} CloseOneMore(runs: seq<Run>, last: nat, cur: seq<string>, text: string)
    requires cur == [] && runs != [] ==> last != runs[|runs| - 1].level
    ensures AddItem(Close(runs, last, cur), Item(last, text)) == Close(runs, last, cur + [text])
  {
    assert [] + [text] == [text];
    if cur != [] {
      assert Close(runs, last, cur)[..|runs|] == runs;
    }
  }

  lemma {:induction false} GroupTextStep(lines: seq<string>, text: string)
    ensures GroupText(lines + [text]) == GroupText(lines) + text + "\n"
  {
    assert (lines + [text])[..|lines|] == lines;
  }

  lemma {:induction false} SplitOfTerminated(txt: string)
    requires EndsWith(txt, "\n")
    ensures |Split(txt, '\n')| >= 2
    ensures Split(txt, '\n') == BodyLines(txt) + [""]
    ensures BodyLines(txt) == Split(txt[..|txt| - 1], '\n')
  {
    var front := txt[..|txt| - 1];
    assert txt == front + ['\n'] + "";
    SplitAtSeparator(front, "", '\n');
    assert (Split(front, '\n') + [""])[..|Split(front, '\n')|] == Split(front, '\n');
  }

  // ----- the runs are the maximal ones, and there are no others

  lemma {:induction false} RunsAreMaximal(items: seq<Item>)
    ensures MaximalRuns(Runs(items), items)
  {
    hide AddItem, Flatten;
    if |items| == 0 {
      EmptyIsMaximal();
    } else {
      var front, item := items[..|items| - 1], items[|items| - 1];
      RunsAreMaximal(front);
      assert items == front + [item];
      StaysMaximal(Runs(front), front, item);
    }
  }

  lemma {:induction false} EmptyIsMaximal()
    ensures MaximalRuns([], [])
  {}

  lemma {:induction false} StaysMaximal(runs: seq<Run>, items: seq<Item>, item: Item)
    requires MaximalRuns(runs, items)
    ensures MaximalRuns(AddItem(runs, item), items + [item])
  {
    AddItemAppends(runs, item);
    AddItemKeepsShape(runs, item);
  }

  lemma {:induction false} AddItemKeepsShape(runs: seq<Run>, item: Item)
    requires Alternating(runs)
    ensures Alternating(AddItem(runs, item))
  {
    var more, n := AddItem(runs, item), |runs|;
    forall i | 0 < i < |more|
      ensures more[i - 1].level != more[i].level
    {
      assert i < n ==> more[i].level == runs[i].level;
      assert more[i - 1].level == runs[i - 1].level;
    }
  }

  lemma {:induction false} AddItemAppends(runs: seq<Run>, item: Item)
    ensures Flatten(AddItem(runs, item)) == Flatten(runs) + [item]
  {
    var more, n := AddItem(runs, item), |runs|;
    var last := more[|more| - 1];
    if n > 0 && runs[n - 1].level == item.level {
      assert more[..n - 1] == runs[..n - 1];
      assert Tag(last) == Tag(runs[n - 1]) + [item];
      assert Flatten(runs[..n - 1]) + (Tag(runs[n - 1]) + [item]) == Flatten(runs) + [item];
    } else {
      assert more[..n] == runs;
      assert Tag(last) == [item];
    }
  }

  lemma {:induction false} MaximalRunsAreUnique(runs: seq<Run>, items: seq<Item>)
    requires MaximalRuns(runs, items)
    ensures runs == Runs(items)
    decreases |items|
  {
    var n := |runs|;
    if n > 0 {
      var shorter, last := DropLast(runs), runs[n - 1];
      var item := Item(last.level, last.lines[|last.lines| - 1]);
      DropThenAdd(runs);
      AddItemAppends(shorter, item);
      assert items[..|items| - 1] == Flatten(shorter) && items[|items| - 1] == item;
      MaximalRunsAreUnique(shorter, Flatten(shorter));
    }
  }

  lemma {:induction false} DropThenAdd(runs: seq<Run>)
    requires |runs| > 0 && Alternating(runs)
    ensures Alternating(DropLast(runs))
    ensures var last := runs[|runs| - 1];
            AddItem(DropLast(runs), Item(last.level, last.lines[|last.lines| - 1])) == runs
  {
    var n, last := |runs|, runs[|runs| - 1];
    var shorter := DropLast(runs);
    var m := |last.lines|;
    if m == 1 {
      assert n > 1 ==> shorter[n - 2] == runs[n - 2];
      assert last.lines == [last.lines[m - 1]];
      assert runs == runs[..n - 1] + [last];
    } else {
      assert last.lines == last.lines[..m - 1] + [last.lines[m - 1]];
      assert shorter[..n - 1] == runs[..n - 1];
      assert runs == runs[..n - 1] + [last];
    }
  }

  /** `runs` without its very last line. */
  function DropLast(runs: seq<Run>): seq<Run>
    requires |runs| > 0 && runs[|runs| - 1].lines != []
  {
    var n, last := |runs|, runs[|runs| - 1];
    if |last.lines| == 1 then runs[..n - 1]
    else runs[..n - 1] + [Run(last.level, last.lines[..|last.lines| - 1])]
  }

  // ----- the lines of a text

  /** Behind a final newline nothing is looked at; all other lines are. */
  lemma {:induction false} BodyLinesExactly(txt: string)
    ensures if txt != "" && txt[|txt| - 1] == '\n' then Split(txt, '\n') == BodyLines(txt) + [""]
            else BodyLines(txt) == Split(txt, '\n')
  {
    if txt != "" && txt[|txt| - 1] == '\n' {
      assert txt == txt[..|txt| - 1] + "\n";
      SplitOfTerminated(txt);
    }
  }

  /** A line with its markers spread has their number as its level, and the rest as its text. */
  lemma {:induction false} SpreadLine(level: nat, text: string)
    requires text == "" || (text[0] != '>' && text[0] != ' ')
    ensures LineItem(Repeat("> ", level) + text) == Item(level, text)
  {
    hide LineItem, Level, Markers, Body;
    if level == 0 {
      PlainLine(text);
      assert Repeat("> ", 0) + text == text;
    } else {
      var inner := Repeat("> ", level - 1) + text;
      SpreadLine(level - 1, text);
      SpreadIsNotIndented(level - 1, text);
      QuoteRaisesLevel(inner);
      ItemLevel(inner);
      RepeatStep("> ", level, text);
    }
  }

  lemma {:induction false} ItemLevel(line: string)
    ensures LineItem(line).level == Level(line)
  {}

  lemma {:induction false} PlainLine(line: string)
    requires line == "" || line[0] != '>'
    ensures LineItem(line) == Item(0, line)
  {}

  lemma {:induction false} SpreadIsNotIndented(level: nat, text: string)
    requires text == "" || (text[0] != '>' && text[0] != ' ')
    ensures !IndentedMarker(Repeat("> ", level) + text)
  {
    if level == 0 {
      assert Repeat("> ", 0) + text == text;
    } else {
      RepeatSpread(level, text);
      assert (Repeat("> ", level) + text)[0] == '>';
    }
  }

  lemma {:induction false} GroupTextCons(first: string, rest: seq<string>)
    ensures GroupText([first] + rest) == first + "\n" + GroupText(rest)
  {
    hide GroupText;
    if rest == [] {
      NoLines();
      GroupTextStep([], first);
      assert [] + [first] == [first] + rest;
      assert "" + first + "\n" == first + "\n" + "";
    } else {
      var n := |rest| - 1;
      var front, last := rest[..n], rest[n];
      assert rest == front + [last];
      assert [first] + rest == ([first] + front) + [last];
      GroupTextCons(first, front);
      GroupTextStep(front, last);
      GroupTextStep([first] + front, last);
      Shift(first + "\n", GroupText(front), last);
      Shift(first + "\n", GroupText(front) + last, "\n");
    }
  }

  lemma {:induction false} NoLines()
    ensures GroupText([]) == ""
  {}

  /** The lines of a text, each terminated, are the text, terminated. */
  lemma {:induction false} GroupTextOfSplit(txt: string)
    ensures GroupText(Split(txt, '\n')) == txt + "\n"
  {
    JoinSplit(txt, '\n');
    GroupTextIsJoin(Split(txt, '\n'));
  }

  lemma {:induction false} GroupTextIsJoin(lines: seq<string>)
    requires |lines| > 0
    ensures GroupText(lines) == Join(lines, '\n') + "\n"
  {
    hide GroupText, Join;
    var first, rest := lines[0], lines[1..];
    assert lines == [first] + rest;
    GroupTextCons(first, rest);
    JoinStep(first, rest, '\n');
    if rest == [] {
      NoLines();
      assert first + "\n" + "" == first + "\n";
    } else {
      GroupTextIsJoin(rest);
      Shift(first, "\n", Join(rest, '\n'));
      Shift(first + "\n", Join(rest, '\n'), "\n");
    }
  }
}

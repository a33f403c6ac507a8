/** Reply markers of one line: how `handleReplies` measures and normalises them. */
module ReplyLevels {
  import opened Text

  datatype Item = Item(level: nat, text: string)

  predicate IsMarker(c: char) { c == '>' || c == ' ' }

  /** The number of '>' before the first character that is neither '>' nor a space. */
  function Markers(s: string): nat
  {
    if s == "" || !IsMarker(s[0]) then 0
    else (if s[0] == '>' then 1 else 0) + Markers(s[1..])
  }

  /** What follows the leading run of '>' and spaces. */
  function Body(s: string): string
  {
    if s == "" || !IsMarker(s[0]) then s else Body(s[1..])
  }

  /** Markers only count in a line that begins with one. */
  function Level(line: string): nat
  {
    if StartsWith(line, ">") then Markers(line) else 0
  }

  /** Whether a space is missing between the character `prev` and the next one, `c`. */
  predicate Missing(prev: char, c: char)
  {
    prev != ' ' && c != ' '
  }

  /** `s`, preceded by the character `prev`, with every missing space put after a '>'. */
  function Spaced(prev: char, s: string): string
    decreases |s|, 1
  {
    if s == "" then ""
    else if Missing(prev, s[0]) then " " + SpacedRest(s)
    else SpacedRest(s)
  }

  function SpacedRest(s: string): string
    requires s != ""
    decreases |s|, 0
  {
    if IsMarker(s[0]) then [s[0]] + Spaced(s[0], s[1..]) else s
  }

  function Normalise(line: string): string
  {
    if StartsWith(line, ">") then Spaced(' ', line) else line
  }

  /** The columns that `level` markers take, each with its space. */
  function Width(level: nat): nat
  {
    level + level
  }

  /** What is left of a normalised line of the given level. */
  function Strip(line: string, level: nat): string
  {
    Mid(line, Width(level))
  }

  /** The level of a line and the text left when its markers are cut off. */
  function LineItem(line: string): Item
  {
    Item(Level(line), Strip(Normalise(line), Level(line)))
  }

  /** The scan of `handleReplies`, which inserts into the line it is scanning. */
  method ScanLine(input: string) returns (line: string, level: nat)
    ensures line == Normalise(input)
    ensures level == Level(input)
    ensures LineItem(input) == Item(level, Strip(line, level))
  {
    line := input;
    level := 0;
    if StartsWith(line, ">") {
      ghost var done, prev, rest := "", ' ', line;
      var x := 0;
      assert line == done + rest && Normalise(input) == done + Spaced(prev, rest);
      while x < |line|
        invariant x == |done| && line == done + rest
        invariant x == 0 <==> level == 0
        invariant x == 0 ==> prev == ' ' && rest != "" && rest[0] == '>'
        invariant x > 0 ==> prev == line[x - 1]
        invariant Normalise(input) == done + Spaced(prev, rest)
        invariant level + Markers(rest) == Level(input)
        decreases |rest|
      {
        ghost var c, later := rest[0], rest[1..];
        assert line[x] == c && rest == [c] + later;
        if line[x] == ' ' {
          // spaces do not count
        } else if line[x] == '>' {
          level := level + 1;
          if level > 1 && line[x - 1] != ' ' {
            InsertAt(done, rest, SpacedRest(rest));
            line := Insert(line, x, " ");
            x := x + 1;
            done := done + " ";
          }
        } else {
          if line[x - 1] != ' ' {
            InsertAt(done, rest, SpacedRest(rest));
            line := Insert(line, x, " ");
          }
          break;
        }
        Shift(done, [c], later);
        Shift(done, [c], Spaced(c, later));
        done, prev, rest := done + [c], c, later;
        x := x + 1;
      }
    }
  }

  function Insert(s: string, at: nat, t: string): string
    requires at <= |s|
  {
    s[..at] + t + s[at..]
  }

  lemma {:induction false} InsertAt(a: string, b: string, c: string)
    ensures Insert(a + b, |a|, " ") == (a + " ") + b
    ensures a + (" " + c) == (a + " ") + c
  {
    assert (a + b)[..|a|] == a && (a + b)[|a|..] == b;
  }

  // ----- what normalisation keeps

  /** The part of `Spaced(prev, s)` in front of the body. */
  function Prefix(prev: char, s: string): string
    decreases |s|, 1
  {
    if s == "" then ""
    else if Missing(prev, s[0]) then " " + PrefixRest(s)
    else PrefixRest(s)
  }

  function PrefixRest(s: string): string
    requires s != ""
    decreases |s|, 0
  {
    if IsMarker(s[0]) then [s[0]] + Prefix(s[0], s[1..]) else ""
  }

  lemma {:induction false} SpacedIsPrefixAndBody(prev: char, s: string)
    ensures Spaced(prev, s) == Prefix(prev, s) + Body(s)
    decreases |s|
  {
    if s != "" {
      if IsMarker(s[0]) {
        SpacedIsPrefixAndBody(s[0], s[1..]);
        Shift([s[0]], Prefix(s[0], s[1..]), Body(s));
      }
      Shift(" ", PrefixRest(s), Body(s));
    }
  }

  lemma {:induction false} PrefixIsMarkers(prev: char, s: string)
    ensures forall i :: 0 <= i < |Prefix(prev, s)| ==> IsMarker(Prefix(prev, s)[i])
    ensures Body(s) != "" ==> |Prefix(prev, s)| >= Width(Markers(s)) + (if prev == ' ' then 0 else 1)
    decreases |s|
  {
    if s != "" && IsMarker(s[0]) {
      PrefixIsMarkers(s[0], s[1..]);
      var rest := PrefixRest(s);
      assert rest == [s[0]] + Prefix(s[0], s[1..]);
      assert forall i :: 0 <= i < |rest| ==> IsMarker(rest[i]);
      assert forall i :: 0 <= i < |" " + rest| ==> IsMarker((" " + rest)[i]);
    }
  }

  lemma {:induction false} SpacedKeepsMarkers(prev: char, s: string)
    ensures Markers(Spaced(prev, s)) == Markers(s)
    ensures Body(Spaced(prev, s)) == Body(s)
    decreases |s|
  {
    if s != "" {
      if IsMarker(s[0]) {
        SpacedKeepsMarkers(s[0], s[1..]);
        assert SpacedRest(s)[1..] == Spaced(s[0], s[1..]);
      }
      assert (" " + SpacedRest(s))[1..] == SpacedRest(s);
    }
  }

  lemma {:induction false} SpacedTwice(prev: char, s: string)
    ensures Spaced(prev, Spaced(prev, s)) == Spaced(prev, s)
    decreases |s|
  {
    if s != "" {
      var rest := SpacedRest(s);
      if IsMarker(s[0]) {
        SpacedTwice(s[0], s[1..]);
        assert rest[1..] == Spaced(s[0], s[1..]);
      }
      assert SpacedRest(rest) == rest;
      SpacedGap(prev, rest);
    }
  }

  lemma {:induction false} SpacedGap(prev: char, s: string)
    requires s != "" && SpacedRest(s) == s
    ensures Missing(prev, s[0]) ==> Spaced(prev, " " + s) == " " + s
    ensures !Missing(prev, s[0]) ==> Spaced(prev, s) == s
  {
    SpacedSpace(prev, s);
  }

  lemma {:induction false} SpacedSpace(prev: char, s: string)
    ensures Spaced(prev, " " + s) == " " + Spaced(' ', s)
  {
    assert (" " + s)[1..] == s;
  }

  lemma {:induction false} SpacedMarker(s: string)
    ensures Spaced(' ', ">" + s) == ">" + Spaced('>', s)
  {
    assert (">" + s)[1..] == s;
  }

  /** Inserting spaces changes neither the reply level nor the text behind the markers. */
  lemma {:induction false} NormaliseKeepsLevel(line: string)
    ensures Level(Normalise(line)) == Level(line)
    ensures Body(Normalise(line)) == Body(line)
  {
    if StartsWith(line, ">") {
      SpacedKeepsMarkers(' ', line);
    }
  }

  lemma {:induction false} NormaliseIdempotent(line: string)
    ensures Normalise(Normalise(line)) == Normalise(line)
  {
    if StartsWith(line, ">") {
      SpacedTwice(' ', line);
    }
  }

  /** The first `n` characters of `s` are its leading run of markers and spaces. */
  predicate LeadingRun(s: string, n: nat)
  {
    && n <= |s|
    && (forall i :: 0 <= i < n ==> s[i] == '>' || s[i] == ' ')
    && (n < |s| ==> s[n] != '>' && s[n] != ' ')
  }

  lemma {:induction false} MarkersExactly(s: string, n: nat)
    requires LeadingRun(s, n)
    ensures Markers(s) == multiset(s[..n])['>'] && Body(s) == s[n..]
  {
    hide Markers, Body, LeadingRun;
    RunStep(s, n);
    if n > 0 {
      MarkersExactly(s[1..], n - 1);
      CutStep(s, n);
    } else {
      assert s[..0] == "" && s[0..] == s;
    }
  }

  lemma {:induction false} RunStep(s: string, n: nat)
    requires LeadingRun(s, n)
    ensures n <= |s|
    ensures n == 0 ==> Markers(s) == 0 && Body(s) == s
    ensures n > 0 ==>
              && LeadingRun(s[1..], n - 1)
              && Markers(s) == (if s[0] == '>' then 1 else 0) + Markers(s[1..]) && Body(s) == Body(s[1..])
  {}

  lemma {:induction false} CutStep(s: string, n: nat)
    requires 0 < n <= |s|
    ensures multiset(s[..n])['>'] == (if s[0] == '>' then 1 else 0) + multiset(s[1..][..n - 1])['>']
    ensures s[n..] == s[1..][n - 1..]
  {
    var front := s[1..][..n - 1];
    assert s[..n] == [s[0]] + front;
    assert multiset([s[0]] + front) == multiset{s[0]} + multiset(front);
  }

  /** The level of a line that begins with a marker is the number of those in its leading run, and
      its body is what follows the run. */
  lemma {:induction false} LevelExactly(line: string, n: nat)
    requires LeadingRun(line, n)
    ensures Level(line) == (if line != "" && line[0] == '>' then multiset(line[..n])['>'] else 0)
    ensures Body(line) == line[n..]
  {
    MarkersExactly(line, n);
  }

  /** The cut at twice the level removes nothing but markers and spaces: the text that
      follows the markers is always still there, at the end of what is kept. */
  lemma {:induction false} StripKeepsBody(line: string)
    ensures forall i :: 0 <= i < Width(Level(line)) && i < |Normalise(line)| ==> IsMarker(Normalise(line)[i])
    ensures Level(line) > 0 ==> EndsWith(LineItem(line).text, Body(line))
    ensures Level(line) == 0 ==> LineItem(line).text == line
  {
    if StartsWith(line, ">") {
      StripKeepsReplyBody(line);
    }
  }

  lemma {:induction false} StripKeepsReplyBody(line: string)
    requires StartsWith(line, ">")
    ensures forall i :: 0 <= i < Width(Level(line)) && i < |Normalise(line)| ==> IsMarker(Normalise(line)[i])
    ensures EndsWith(LineItem(line).text, Body(line))
  {
    hide Spaced, Prefix, Body, IsMarker, EndsWith;
    var front, body, n := Prefix(' ', line), Body(line), Width(Level(line));
    SpacedIsPrefixAndBody(' ', line);
    PrefixIsMarkers(' ', line);
    CutInFront(front, body, n);
  }

  lemma {:induction false} CutInFront(front: string, body: string, n: nat)
    requires forall i :: 0 <= i < |front| ==> IsMarker(front[i])
    requires body != "" ==> n <= |front|
    ensures forall i :: 0 <= i < n && i < |front + body| ==> IsMarker((front + body)[i])
    ensures EndsWith(Mid(front + body, n), body)
  {
    if body != "" {
      assert (front + body)[n..] == front[n..] + body;
      assert (front[n..] + body)[..|front| - n] == front[n..];
    }
  }

  lemma {:induction false} RepeatStep(unit: string, k: nat, t: string)
    requires k > 0
    ensures Repeat(unit, k) + t == unit + (Repeat(unit, k - 1) + t)
  {
    Shift(unit, Repeat(unit, k - 1), t);
  }

  lemma {:induction false} RepeatSpread(k: nat, t: string)
    requires k > 0
    ensures Repeat("> ", k) + t == ">" + (" " + (Repeat("> ", k - 1) + t))
  {
    RepeatStep("> ", k, t);
    Shift(">", " ", Repeat("> ", k - 1) + t);
  }

  lemma {:induction false} SpacedSpread(k: nat, t: string)
    requires t == "" || !IsMarker(t[0])
    ensures Spaced(' ', Repeat("> ", k) + t) == Repeat("> ", k) + t
  {
    var more := if k > 0 then Repeat("> ", k - 1) + t else "";
    if k > 0 {
      SpacedSpread(k - 1, t);
      RepeatSpread(k, t);
      SpacedMarker(" " + more);
      SpacedSpace('>', more);
    } else {
      assert Repeat("> ", k) + t == t;
    }
  }

  lemma {:induction false} SpacedSolid(k: nat, t: string)
    requires t != "" && !IsMarker(t[0])
    ensures Spaced(' ', Repeat(">", k) + t) == Repeat("> ", k) + t
    ensures Spaced('>', Repeat(">", k) + t) == " " + (Repeat("> ", k) + t)
  {
    if k > 0 {
      var more := Repeat(">", k - 1) + t;
      SpacedSolid(k - 1, t);
      RepeatStep(">", k, t);
      RepeatSpread(k, t);
      SpacedMarker(more);
      AfterMarker(">" + more);
    } else {
      assert Repeat("> ", k) + t == t && Repeat(">", k) + t == t;
    }
  }

  lemma {:induction false} AfterMarker(s: string)
    requires s != "" && s[0] != ' '
    ensures Spaced('>', s) == " " + Spaced(' ', s)
  {}

  lemma {:induction false} BareLengths(k: nat)
    ensures |Repeat("> ", k)| == Width(k)
    ensures |Spaced(' ', Repeat(">", k))| == if k == 0 then 0 else Width(k) - 1
  {
    if k > 0 {
      var more := Repeat(">", k - 1);
      BareLengths(k - 1);
      SpacedMarker(more);
      if k > 1 {
        AfterMarker(more);
      }
    }
  }

  /** Solid markers (">>>t") and spread ones ("> > > t") become the same line, as long as
      some text follows; without text the spread form keeps one space more. */
  lemma {:induction false} SolidAndSpreadMarkersAgree(k: nat, t: string)
    requires k > 0
    requires t == "" || !IsMarker(t[0])
    ensures Normalise(Repeat(">", k) + t) == Normalise(Repeat("> ", k) + t) <==> t != ""
    ensures t != "" ==> Normalise(Repeat(">", k) + t) == Repeat("> ", k) + t
  {
    RepeatStep(">", k, t);
    RepeatSpread(k, t);
    SpacedSpread(k, t);
    if t != "" {
      SpacedSolid(k, t);
    } else {
      assert Repeat(">", k) + t == Repeat(">", k) && Repeat("> ", k) + t == Repeat("> ", k);
      BareLengths(k);
    }
  }

  // ----- quoting a line once more

  /** A marker hidden behind leading spaces: not a reply marker by itself, but one as soon
      as the line is quoted. */
  predicate IndentedMarker(line: string)
  {
    StartsWith(line, " ") && Markers(line) > 0
  }

  lemma {:induction false} SpacedNoMarkers(s: string)
    requires Markers(s) == 0
    ensures Spaced(' ', s) == s
  {
    if s != "" && s[0] == ' ' {
      SpacedNoMarkers(s[1..]);
      assert s == " " + s[1..];
      SpacedSpace(' ', s[1..]);
    }
  }

  lemma {:induction false} QuotedMarkers(line: string)
    ensures Markers("> " + line) == 1 + Markers(line)
  {
    assert ("> " + line)[1..] == " " + line && (" " + line)[1..] == line;
  }

  lemma {:induction false} QuotedForm(line: string)
    ensures Spaced(' ', "> " + line) == "> " + Spaced(' ', line)
  {
    var quoted := " " + line;
    SpacedSpace('>', line);
    SpacedMarker(quoted);
    assert "> " + line == ">" + quoted;
    Shift(">", " ", Spaced(' ', line));
  }

  lemma {:induction false} MidBehind(front: string, s: string, n: nat)
    ensures Mid(front + s, |front| + n) == Mid(s, n)
  {
    if n <= |s| {
      assert (front + s)[|front| + n..] == s[n..];
    }
  }

  /** Quoting a line raises its level by one and keeps its text, for every line except
      those with an indented marker. */
  lemma {:induction false} QuoteRaisesLevel(line: string)
    ensures LineItem("> " + line) == Item(Level(line) + 1, LineItem(line).text) <==> !IndentedMarker(line)
    ensures Level("> " + line) == Level(line) + 1 <==> !IndentedMarker(line)
    ensures !IndentedMarker("> " + line)
  {
    QuotedLevel(line);
    if !IndentedMarker(line) {
      QuotedText(line);
    }
  }

  lemma {:induction false} QuotedLevel(line: string)
    ensures Level("> " + line) == 1 + Markers(line)
    ensures Markers(line) == Level(line) <==> !IndentedMarker(line)
    ensures !IndentedMarker("> " + line)
  {
    QuotedMarkers(line);
    LevelsAgree(line);
  }

  lemma {:induction false} QuotedText(line: string)
    requires !IndentedMarker(line)
    ensures LineItem("> " + line).text == LineItem(line).text
  {
    QuotedLevel(line);
    QuotedForm(line);
    assert Spaced(' ', line) == Normalise(line) by {
      if !StartsWith(line, ">") {
        SpacedNoMarkers(line);
      }
    }
    MidBehind("> ", Normalise(line), Width(Level(line)));
  }

  /** `noBreakReplies` counts markers behind leading spaces too. */
  method CountMarkers(line: string) returns (level: nat)
    ensures level == Markers(line)
  {
    var x := 0;
    level := 0;
    while x < |line|
      invariant 0 <= x <= |line|
      invariant level + Markers(line[x..]) == Markers(line)
    {
      if line[x] == '>' {
        level := level + 1;
      } else if line[x] == ' ' {
      } else {
        break;
      }
      assert line[x..][1..] == line[x + 1..];
      x := x + 1;
    }
  }

  /** The two ways of displaying replies agree on a line exactly when it has no indented marker. */
  lemma {:induction false} LevelsAgree(line: string)
    ensures Markers(line) == Level(line) <==> !IndentedMarker(line)
  {
    if line != "" && !IsMarker(line[0]) {
      assert Markers(line) == 0;
    }
  }
}

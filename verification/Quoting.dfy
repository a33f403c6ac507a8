/** The quoting of a replied-to text in the composer, and what `handleReplies` makes of it. */
module Quoting {
  import opened Text
  import opened ReplyLevels
  import opened ReplyGroups

  const QUOTE_PREFIX := "> "

  /** The first position at or after `from` that holds `c`, or -1. */
  function IndexOf(s: string, c: char, from: nat): (pos: int)
    requires from <= |s|
    ensures pos == -1 || (from <= pos < |s| && s[pos] == c)
    ensures forall i :: from <= i < (if pos == -1 then |s| else pos) ==> s[i] != c
    decreases |s| - from
  {
    if from == |s| then -1 else if s[from] == c then from else IndexOf(s, c, from + 1)
  }

  function QuoteLines(lines: seq<string>): (r: seq<string>)
    ensures |r| == |lines|
    ensures forall i :: 0 <= i < |lines| ==> r[i] == QUOTE_PREFIX + lines[i]
  {
    if |lines| == 0 then [] else [QUOTE_PREFIX + lines[0]] + QuoteLines(lines[1..])
  }

  /** The body of a reply: an introduction, then every line of the original behind the prefix. */
  function Reply(intro: string, original: string): string
  {
    intro + Join(QuoteLines(Split(original, '\n')), '\n') + "\n"
  }

  /** The loop of `respond`, which inserts the prefix behind every newline in place. */
  method Quote(intro: string, original: string) returns (bodyText: string)
    ensures bodyText == Reply(intro, original)
  {
    hide Tail, Quoted, Reply, NoneIn, IndexOf;
    bodyText := intro + QUOTE_PREFIX;
    var pos := |bodyText|;
    bodyText := bodyText + original;

    // what is finished, and what of the original is left
    ghost var done, rest := intro + QUOTE_PREFIX, original;
    QuotedTail(rest);
    Shift(intro, QUOTE_PREFIX, Tail(rest));
    PrefixIsClean(intro);
    while true
      invariant 0 <= pos <= |done| && bodyText == done + rest
      invariant NoneIn(done, pos)
      invariant intro + Quoted(original) == done + Tail(rest)
      decreases |rest|
    {
      var found := IndexOf(bodyText, '\n', pos);
      FoundInRest(done, rest, pos);
      if found == -1 {
        LastLine(done, rest);
        break;
      }
      ghost var k := found - |done|;
      ghost var before, later := done + rest[..k + 1], rest[k + 1..];
      NextLine(done, rest, k);
      CutBehind(done, rest, k + 1);
      pos := found + 1;
      bodyText := bodyText[..pos] + QUOTE_PREFIX + bodyText[pos..];
      PrefixIsClean(before);
      done, rest := before + QUOTE_PREFIX, later;
    }
    ReplyIs(intro, original);
    bodyText := bodyText + "\n";
  }

  /** No newline in `s` from position `pos` on. */
  predicate NoneIn(s: string, pos: nat)
  {
    forall i :: pos <= i < |s| ==> s[i] != '\n'
  }

  lemma {:induction false} PrefixIsClean(s: string)
    ensures NoneIn(s + QUOTE_PREFIX, |s|) && NoneIn(s + QUOTE_PREFIX, |s + QUOTE_PREFIX|)
  {}

  lemma {:induction false} ReplyIs(intro: string, original: string)
    ensures Reply(intro, original) == intro + Quoted(original) + "\n"
  {}

  /** A search that begins behind the last newline of what is finished finds one of the rest. */
  lemma {:induction false} FoundInRest(done: string, rest: string, pos: nat)
    requires pos <= |done| && NoneIn(done, pos)
    ensures var found := IndexOf(done + rest, '\n', pos);
            if found == -1 then NoneIn(done + rest, |done|)
            else
              && |done| <= found < |done| + |rest| && rest[found - |done|] == '\n'
              && forall i :: |done| <= i < found ==> (done + rest)[i] != '\n'
  {
    assert forall i :: pos <= i < |done| ==> (done + rest)[i] == done[i];
  }

  lemma {:induction false} CutBehind(done: string, rest: string, k: nat)
    requires k <= |rest|
    ensures var s, at := done + rest, |done| + k;
            s[..at] == done + rest[..k] && s[at..] == rest[k..]
  {}

  ghost function Quoted(s: string): string
  {
    Join(QuoteLines(Split(s, '\n')), '\n')
  }

  /** The quoted form of `s` without the prefix of its first line. */
  ghost function Tail(s: string): string
  {
    var parts := Split(s, '\n');
    if |parts| == 1 then parts[0] else parts[0] + "\n" + Join(QuoteLines(parts[1..]), '\n')
  }

  lemma {:induction false} LastLine(done: string, rest: string)
    requires NoneIn(done + rest, |done|)
    ensures Tail(rest) == rest
  {
    assert forall i :: 0 <= i < |rest| ==> rest[i] == (done + rest)[|done| + i];
    SplitClean(rest, '\n');
  }

  /** Going on behind the newline at position `k` of what is left. */
  lemma {:induction false} NextLine(done: string, rest: string, k: nat)
    requires k < |rest| && rest[k] == '\n'
    requires forall i :: |done| <= i < |done| + k ==> (done + rest)[i] != '\n'
    ensures done + Tail(rest) == (done + rest[..k + 1] + QUOTE_PREFIX) + Tail(rest[k + 1..])
  {
    var line, later := rest[..k], rest[k + 1..];
    assert forall i :: 0 <= i < k ==> line[i] == (done + rest)[|done| + i];
    TailStep(line, later);
    assert rest == line + ['\n'] + later;
    assert rest[..k + 1] == line + "\n";
    Shift(done, line + "\n", QUOTE_PREFIX + Tail(later));
    Shift(done + (line + "\n"), QUOTE_PREFIX, Tail(later));
  }

  lemma {:induction false} TailStep(line: string, later: string)
    requires '\n' !in line
    ensures Tail(line + ['\n'] + later) == (line + "\n") + (QUOTE_PREFIX + Tail(later))
  {
    var s := line + ['\n'] + later;
    SplitAtSeparator(line, later, '\n');
    SplitClean(line, '\n');
    var parts := Split(s, '\n');
    assert parts == [line] + Split(later, '\n');
    assert parts[1..] == Split(later, '\n');
    QuotedTail(later);
  }

  lemma {:induction false} QuotedTail(s: string)
    ensures Quoted(s) == QUOTE_PREFIX + Tail(s)
  {
    var parts := Split(s, '\n');
    if |parts| > 1 {
      var more := Join(QuoteLines(parts[1..]), '\n');
      assert QuoteLines(parts)[1..] == QuoteLines(parts[1..]);
      Shift(QUOTE_PREFIX, parts[0] + "\n", more);
      Shift(QUOTE_PREFIX, parts[0], "\n");
    }
  }

  // ----- printing and parsing

  /** Parsing a reply gives the introduction's own lines and then every line of the original,
      one level higher and with its text unchanged: for exactly the originals without an
      indented marker. */
  lemma {:induction false} ParseOfReply(intro: string, original: string)
    ensures var lines := Split(original, '\n');
            ItemsOf(BodyLines(Reply(intro + "\n", original))) ==
              ItemsOf(Split(intro, '\n')) + Raise(ItemsOf(lines), 1)
            <==> forall i :: 0 <= i < |lines| ==> !IndentedMarker(lines[i])
  {
    var lines := Split(original, '\n');
    LinesOfReply(intro, original);
    ItemsOfAppend(Split(intro, '\n'), QuoteLines(lines));
    QuotedItems(lines);
    SameTail(ItemsOf(Split(intro, '\n')), ItemsOf(QuoteLines(lines)), Raise(ItemsOf(lines), 1));
  }

  lemma {:induction false} QuotedItems(lines: seq<string>)
    ensures ItemsOf(QuoteLines(lines)) == Raise(ItemsOf(lines), 1)
            <==> forall i :: 0 <= i < |lines| ==> !IndentedMarker(lines[i])
  {
    var quoted, raised := ItemsOf(QuoteLines(lines)), Raise(ItemsOf(lines), 1);
    forall i | 0 <= i < |lines|
      ensures quoted[i] == raised[i] <==> !IndentedMarker(lines[i])
    {
      QuoteRaisesLevel(lines[i]);
    }
  }

  lemma {:induction false} ItemsOfAppend(a: seq<string>, b: seq<string>)
    ensures ItemsOf(a + b) == ItemsOf(a) + ItemsOf(b)
  {}

  lemma {:induction false} SameTail<T>(front: seq<T>, a: seq<T>, b: seq<T>)
    ensures front + a == front + b <==> a == b
  {
    assert (front + a)[|front|..] == a && (front + b)[|front|..] == b;
  }

  /** The items, `n` levels further up. */
  function Raise(items: seq<Item>, n: nat): seq<Item>
  {
    seq(|items|, i requires 0 <= i < |items| => Item(items[i].level + n, items[i].text))
  }

  /** A reply consists of the lines of its introduction and the quoted lines of the original. */
  lemma {:induction false} LinesOfReply(intro: string, original: string)
    ensures BodyLines(Reply(intro + "\n", original)) ==
            Split(intro, '\n') + QuoteLines(Split(original, '\n'))
  {
    var quoted := QuoteLines(Split(original, '\n'));
    var txt, joined := Reply(intro + "\n", original), Join(quoted, '\n');
    SplitPartsAreClean(original, '\n');
    SplitJoin(quoted, '\n');
    SplitAtSeparator(intro, joined, '\n');
    var front := intro + ['\n'] + joined;
    assert txt == front + "\n";
    assert txt[..|txt| - 1] == front;
    SplitOfTerminated(txt);
  }

  /** A text replied to once for every introduction in `intros`, the last one outermost. */
  function Nested(intros: seq<string>, original: string): string
  {
    var n := |intros|;
    if n == 0 then original else Reply(intros[n - 1] + "\n", Nested(intros[..n - 1], original))
  }

  /** How many lines the introductions put in front of the original. */
  function IntroLines(intros: seq<string>): nat
  {
    var n := |intros|;
    if n == 0 then 0 else |Split(intros[n - 1], '\n')| + IntroLines(intros[..n - 1])
  }

  /** After n nested replies, n > 0, a line of the original is found n levels further up with its
      text unchanged, exactly if it has no indented marker; its level is its number of markers
      and n in any case. */
  lemma {:induction false} NestedReplies(intros: seq<string>, original: string, i: nat)
    requires i < |Split(original, '\n')|
    ensures var line, lines, n := Split(original, '\n')[i], Split(Nested(intros, original), '\n'), |intros|;
            && IntroLines(intros) + i < |lines|
            && (n == 0 ==> lines[IntroLines(intros) + i] == line)
            && (n > 0 ==> QuotedBy(line, lines[IntroLines(intros) + i], n))
    decreases |intros|
  {
    hide Split, Reply, QuotedBy;
    var n := |intros|;
    if n > 0 {
      var inner, k := Nested(intros[..n - 1], original), IntroLines(intros[..n - 1]) + i;
      NestedReplies(intros[..n - 1], original, i);
      ReplyLine(intros[n - 1], inner, k);
      QuotedAgain(Split(original, '\n')[i], Split(inner, '\n')[k], n - 1);
    }
  }

  /** What is known of a line that was quoted `n` times. */
  predicate QuotedBy(line: string, outer: string, n: nat)
  {
    && Level(outer) == Markers(line) + n
    && !IndentedMarker(outer)
    && (RaisedBy(line, outer, n) <==> !IndentedMarker(line))
  }

  lemma {:induction false} QuotedAgain(line: string, outer: string, n: nat)
    requires if n == 0 then outer == line else QuotedBy(line, outer, n)
    ensures QuotedBy(line, QUOTE_PREFIX + outer, n + 1)
  {
    hide Level, Markers, Strip, Normalise, IndentedMarker;
    QuotedLevel(line);
    QuotedLevel(outer);
    QuoteRaisesLevel(outer);
  }

  /** `outer` has the text of `line`, `n` levels further up. */
  predicate RaisedBy(line: string, outer: string, n: nat)
  {
    LineItem(outer) == Item(Level(line) + n, LineItem(line).text) && !IndentedMarker(outer)
  }

  lemma {:induction false} ReplyLine(intro: string, original: string, k: nat)
    requires k < |Split(original, '\n')|
    ensures var lines := Split(Reply(intro + "\n", original), '\n');
            var at := |Split(intro, '\n')| + k;
            at < |lines| && lines[at] == QUOTE_PREFIX + Split(original, '\n')[k]
  {
    LinesOfReply(intro, original);
    SplitOfTerminated(Reply(intro + "\n", original));
  }
}

/** Cutting surrounding brackets and punctuation off a matched URL. */
module UrlTrimming {
  import opened Text

  /** A URL and what was cut off its two ends. */
  datatype Trimming = Trimming(leading: string, url: string, trailing: string)

  /** The four kinds of bracket, in the order in which they are looked at. */
  function Opening(i: nat): char
    requires i < 4
  {
    if i == 0 then '(' else if i == 1 then '[' else if i == 2 then '{' else '<'
  }

  function Closing(i: nat): char
    requires i < 4
  {
    if i == 0 then ')' else if i == 1 then ']' else if i == 2 then '}' else '>'
  }

  predicate IsTrimmable(c: char)
  {
    || c == '(' || c == '[' || c == '{' || c == '<'
    || c == ')' || c == ']' || c == '}' || c == '>'
    || IsPunctuation(c)
  }

  predicate IsPunctuation(c: char) { c == '.' || c == ',' || c == ';' }

  /** Every URL match contains its host, which begins with a letter or digit. */
  predicate HasHost(url: string)
  {
    exists i :: 0 <= i < |url| && !IsTrimmable(url[i])
  }

  function Count(s: string, c: char): nat
  {
    if s == "" then 0 else (if s[0] == c then 1 else 0) + Count(s[1..], c)
  }

  /** One kind of bracket: an unbalanced one at an end is not part of the URL. */
  function TrimPair(t: Trimming, open: char, close: char): Trimming
  {
    if t.url == "" then t
    else
      var first, last := t.url[0], t.url[|t.url| - 1];
      var left, right := Count(t.url, open), Count(t.url, close);
      if right > left && last == close then
        Trimming(t.leading, t.url[..|t.url| - 1], t.trailing + [last])
      else if right < left && first == open then
        Trimming(t.leading + [first], t.url[1..], t.trailing)
      else t
  }

  function TrimPairs(t: Trimming, pairs: nat): Trimming
    requires pairs <= 4
  {
    if pairs == 0 then t else TrimPair(TrimPairs(t, pairs - 1), Opening(pairs - 1), Closing(pairs - 1))
  }

  /** Punctuation at the end. What had been cut off behind it is forgotten. */
  function TrimPunctuation(t: Trimming): Trimming
  {
    if t.url != "" && IsPunctuation(t.url[|t.url| - 1])
    then Trimming(t.leading, t.url[..|t.url| - 1], [t.url[|t.url| - 1]])
    else t
  }

  function Brackets(url: string): Trimming { TrimPairs(Trimming("", url, ""), 4) }

  function Trimmed(url: string): Trimming { TrimPunctuation(Brackets(url)) }

  /** How many characters are cut off the end of a URL. */
  function CutAtEnd(url: string): nat
  {
    |Brackets(url).trailing| + if Trimmed(url) == Brackets(url) then 0 else 1
  }

  method Trim(match0: string) returns (leading: string, url: string, trailing: string)
    requires HasHost(match0)
    ensures Trimming(leading, url, trailing) == Trimmed(match0)
    ensures HasHost(url)
  {
    var lastChar;
    leading, url, trailing, lastChar := TrimBrackets(match0);
    hide Brackets, HasHost;
    if lastChar == '.' || lastChar == ',' || lastChar == ';' {
      HostStays(url);
      PunctuationIsTrimmable(lastChar);
      url := url[..|url| - 1];
      trailing := [lastChar];
    }
  }

  /** The loop over the kinds of bracket. */
  method TrimBrackets(match0: string) returns (leading: string, url: string, trailing: string, lastChar: char)
    requires HasHost(match0)
    ensures Trimming(leading, url, trailing) == Brackets(match0)
    ensures HasHost(url) && url != "" && lastChar == url[|url| - 1]
  {
    hide HasHost, Count, Opening, Closing, IsTrimmable, TrimPairs, TrimPair, Brackets;
    leading, url, trailing := "", match0, "";
    HostStays(url);
    var firstChar := url[0];
    lastChar := url[|url| - 1];
    ghost var start := Trimming("", match0, "");
    AllBrackets(match0);
    for i := 0 to 4
      invariant HasHost(url)
      invariant url != "" && firstChar == url[0] && lastChar == url[|url| - 1]
      invariant Trimming(leading, url, trailing) == TrimPairs(start, i)
    {
      PairStep(start, i);
      PairCases(Trimming(leading, url, trailing), Opening(i), Closing(i));
      HostStays(url);
      BracketsAreTrimmable(i);
      if firstChar == Opening(i) || lastChar == Closing(i) {
        var left := Count(url, Opening(i));
        var right := Count(url, Closing(i));
        if right > left && lastChar == Closing(i) {
          KeptEnds(url);
          url := url[..|url| - 1];
          trailing := trailing + [lastChar];
          lastChar := url[|url| - 1];
        } else if right < left && firstChar == Opening(i) {
          KeptEnds(url);
          url := url[1..];
          leading := leading + [firstChar];
          firstChar := url[0];
        }
      }
    }
  }

  lemma {:induction false} KeptEnds(url: string)
    requires |url| > 1
    ensures var front, rest := url[..|url| - 1], url[1..];
            front != "" && front[0] == url[0] && rest != "" && rest[|rest| - 1] == url[|url| - 1]
  {}

  lemma {:induction false} AllBrackets(url: string)
    ensures TrimPairs(Trimming("", url, ""), 0) == Trimming("", url, "")
    ensures Brackets(url) == TrimPairs(Trimming("", url, ""), 4)
  {}

  lemma {:induction false} PairCases(t: Trimming, open: char, close: char)
    requires t.url != ""
    ensures var n, left, right := |t.url| - 1, Count(t.url, open), Count(t.url, close);
            TrimPair(t, open, close) ==
              if right > left && t.url[n] == close then Trimming(t.leading, t.url[..n], t.trailing + [t.url[n]])
              else if right < left && t.url[0] == open then Trimming(t.leading + [t.url[0]], t.url[1..], t.trailing)
              else t
  {}

  lemma {:induction false} PairStep(t: Trimming, i: nat)
    requires i < 4
    ensures TrimPairs(t, i + 1) == TrimPair(TrimPairs(t, i), Opening(i), Closing(i))
  {}

  lemma {:induction false} BracketsAreTrimmable(i: nat)
    requires i < 4
    ensures IsTrimmable(Opening(i)) && IsTrimmable(Closing(i))
  {}

  lemma {:induction false} PunctuationIsTrimmable(c: char)
    ensures IsPunctuation(c) ==> IsTrimmable(c)
  {}

  /** No trimming ever reaches the host, so the URL never becomes empty. */
  lemma {:induction false} HostStays(url: string)
    requires HasHost(url)
    ensures url != ""
    ensures IsTrimmable(url[0]) ==> |url| > 1 && HasHost(url[1..])
    ensures IsTrimmable(url[|url| - 1]) ==> |url| > 1 && HasHost(url[..|url| - 1])
  {
    var i :| 0 <= i < |url| && !IsTrimmable(url[i]);
    if IsTrimmable(url[0]) {
      assert url[1..][i - 1] == url[i];
    }
    if IsTrimmable(url[|url| - 1]) {
      assert url[..|url| - 1][i] == url[i];
    }
  }

  // ----- what trimming loses

  function Reverse(s: string): string
  {
    if s == "" then "" else Reverse(s[1..]) + [s[0]]
  }

  lemma {:induction false} ReverseAppend(s: string, c: char)
    ensures Reverse(s + [c]) == [c] + Reverse(s)
  {
    if s != "" {
      ReverseAppend(s[1..], c);
      assert (s + [c])[0] == s[0] && (s + [c])[1..] == s[1..] + [c];
      assert ([c] + Reverse(s[1..])) + [s[0]] == [c] + Reverse(s);
    } else {
      assert s + [c] == [c] && Reverse([c]) == [c];
    }
  }

  lemma {:induction false} ReverseEnds(s: string)
    ensures |Reverse(s)| == |s|
    ensures |s| == 1 ==> Reverse(s) == s
    ensures s != "" ==> Reverse(s)[|s| - 1] == s[0]
  {
    if s != "" {
      ReverseEnds(s[1..]);
    }
  }

  /** Brackets come off in text order in front and in reverse order behind. */
  lemma {:induction false} BracketsKept(url: string, pairs: nat)
    requires pairs <= 4
    ensures var t := TrimPairs(Trimming("", url, ""), pairs);
            url == t.leading + t.url + Reverse(t.trailing)
  {
    if pairs == 0 {
      assert url == "" + url + "";
    } else {
      hide TrimPair;
      BracketsKept(url, pairs - 1);
      PairKept(url, TrimPairs(Trimming("", url, ""), pairs - 1), Opening(pairs - 1), Closing(pairs - 1));
    }
  }

  /** Every kind of bracket comes off at most once. */
  lemma {:induction false} BracketsDiffer(url: string, pairs: nat)
    requires pairs <= 4
    ensures Among(TrimPairs(Trimming("", url, ""), pairs).trailing, pairs)
  {
    if pairs > 0 {
      BracketsDiffer(url, pairs - 1);
      PairDiffers(TrimPairs(Trimming("", url, ""), pairs - 1), pairs - 1);
    }
  }

  lemma {:induction false} PairDiffers(t: Trimming, i: nat)
    requires i < 4 && Among(t.trailing, i)
    ensures Among(TrimPair(t, Opening(i), Closing(i)).trailing, i + 1)
  {}

  /** Different closing brackets of the first `pairs` kinds. */
  predicate Among(brackets: string, pairs: nat)
    requires pairs <= 4
  {
    && (forall i :: 0 <= i < |brackets| ==> Kind(brackets[i]) < pairs)
    && (forall i, j :: 0 <= i < j < |brackets| ==> Kind(brackets[i]) < Kind(brackets[j]))
  }

  function Kind(c: char): nat
  {
    if c == ')' then 0 else if c == ']' then 1 else if c == '}' then 2 else if c == '>' then 3 else 4
  }

  lemma {:induction false} PairKept(url: string, t: Trimming, open: char, close: char)
    requires url == t.leading + t.url + Reverse(t.trailing)
    ensures var u := TrimPair(t, open, close);
            url == u.leading + u.url + Reverse(u.trailing)
  {
    var n := |t.url| - 1;
    if n >= 0 {
      var last := t.url[n];
      ReverseAppend(t.trailing, last);
      CutBehind(t.leading, t.url, t.url[..n], last, Reverse(t.trailing));
      CutInFront(t.leading, t.url, t.url[0], t.url[1..], Reverse(t.trailing));
    }
  }

  lemma {:induction false} CutBehind(a: string, s: string, front: string, last: char, b: string)
    requires s == front + [last]
    ensures a + s + b == a + front + ([last] + b)
  {
    Shift(a, front, [last]);
    Shift(a + front, [last], b);
  }

  lemma {:induction false} CutInFront(a: string, s: string, first: char, rest: string, b: string)
    requires s == [first] + rest
    ensures a + s + b == (a + [first]) + rest + b
  {
    Shift(a, [first], rest);
  }

  /** What is written out is the URL exactly if at most one character was cut off its end: two
      brackets come out in the wrong order, and punctuation makes those behind it disappear. */
  lemma {:induction false} LittleCutKeepsText(url: string)
    ensures Whole(Trimmed(url)) == url <==> CutAtEnd(url) <= 1
    ensures |Whole(Trimmed(url))| <= |url|
  {
    var b := Brackets(url);
    BracketsKept(url, 4);
    BracketsDiffer(url, 4);
    ReverseEnds(b.trailing);
    if b.url != "" && IsPunctuation(b.url[|b.url| - 1]) {
      PunctuationKept(url, b);
    } else {
      SameMiddle(b.leading + b.url, b.trailing, Reverse(b.trailing));
    }
  }

  /** The parts in the order in which they are written out. */
  function Whole(t: Trimming): string { t.leading + t.url + t.trailing }

  lemma {:induction false} PunctuationKept(url: string, b: Trimming)
    requires url == b.leading + b.url + Reverse(b.trailing)
    requires b.url != "" && IsPunctuation(b.url[|b.url| - 1])
    requires |Reverse(b.trailing)| == |b.trailing|
    ensures Whole(TrimPunctuation(b)) == b.leading + b.url
    ensures Whole(TrimPunctuation(b)) == url <==> b.trailing == ""
    ensures TrimPunctuation(b) != b
    ensures |Whole(TrimPunctuation(b))| <= |url|
  {
    var t := TrimPunctuation(b);
    assert b.url == t.url + t.trailing;
    Shift(b.leading, t.url, t.trailing);
    assert |t.url| < |b.url|;
  }

  lemma {:induction false} SameMiddle(front: string, a: string, b: string)
    ensures front + a == front + b <==> a == b
  {
    assert a != b && |a| == |b| ==> exists i :: 0 <= i < |a| && a[i] != b[i];
    if front + a == front + b {
      assert |a| == |b|;
      assert forall i :: 0 <= i < |a| ==> a[i] == (front + a)[|front| + i] && b[i] == (front + b)[|front| + i];
    }
  }

  /** A closing bracket comes off unless an opening one goes with it. */
  lemma {:induction false} TrimClosing(front: string, trailing: string, open: char, close: char)
    requires open != close && open !in front && close !in front
    ensures TrimPair(Trimming("", front + [close], trailing), open, close) == Trimming("", front, trailing + [close])
  {
    var url := front + [close];
    CountLast(front, close);
    NotCounted(url, open);
    assert url[..|url| - 1] == front;
  }

  lemma {:induction false} TrimNothing(t: Trimming, open: char, close: char)
    requires t.url != "" && t.url[0] != open && t.url[|t.url| - 1] != close
    ensures TrimPair(t, open, close) == t
  {}

  /** A bracket behind a final full stop is lost: "a.b/c.)" is written out as "a.b/c.". */
  lemma {:induction false} LosesBracket()
    ensures Trimmed("a.b/c.)") == Trimming("", "a.b/c", ".")
  {
    hide TrimPair, TrimPairs;
    var cut := "a.b/c.";
    assert "a.b/c.)" == cut + ")" && "" + ")" == ")";
    var t, u := Trimming("", "a.b/c.)", ""), Trimming("", cut, ")");
    TrimClosing(cut, "", '(', ')');
    TrimNothing(u, '[', ']'); TrimNothing(u, '{', '}'); TrimNothing(u, '<', '>');
    AllPairs(t, u, u, u, u);
    assert cut == "a.b/c" + ".";
  }

  lemma {:induction false} AllPairs(t0: Trimming, t1: Trimming, t2: Trimming, t3: Trimming, t4: Trimming)
    requires TrimPair(t0, '(', ')') == t1 && TrimPair(t1, '[', ']') == t2
    requires TrimPair(t2, '{', '}') == t3 && TrimPair(t3, '<', '>') == t4
    ensures TrimPairs(t0, 4) == t4
  {
    hide TrimPair;
    assert TrimPairs(t0, 0) == t0;
    assert TrimPairs(t0, 1) == t1;
    assert TrimPairs(t0, 2) == t2;
    assert TrimPairs(t0, 3) == t3;
  }

  /** Two brackets change places: "a.b/c})" is written out as "a.b/c)}". */
  lemma {:induction false} SwapsBrackets()
    ensures Trimmed("a.b/c})") == Trimming("", "a.b/c", ")}")
  {
    hide TrimPair, TrimPairs;
    var cut, bare := "a.b/c}", "a.b/c";
    assert "a.b/c})" == cut + ")" && cut == bare + "}" && "" + ")" == ")" && ")" + "}" == ")}";
    var t, u, v := Trimming("", "a.b/c})", ""), Trimming("", cut, ")"), Trimming("", bare, ")}");
    TrimClosing(cut, "", '(', ')');
    TrimNothing(u, '[', ']');
    TrimClosing(bare, ")", '{', '}');
    TrimNothing(v, '<', '>');
    AllPairs(t, u, u, v, v);
  }

  lemma {:induction false} CountLast(s: string, c: char)
    ensures Count(s + [c], c) == Count(s, c) + 1
  {
    if s == "" {
      assert s + [c] == [c] && Count([c][1..], c) == 0;
    } else {
      CountLast(s[1..], c);
      assert (s + [c])[0] == s[0] && (s + [c])[1..] == s[1..] + [c];
    }
  }

  lemma {:induction false} NotCounted(s: string, c: char)
    requires c !in s
    ensures Count(s, c) == 0
  {
    if s != "" {
      NotCounted(s[1..], c);
    }
  }

  // ----- when that happens

  /** `s` ends with a closing bracket of kind `i` and has more of them than of opening ones. */
  predicate Unbalanced(s: string, i: nat)
    requires i < 4
  {
    s != "" && s[|s| - 1] == Closing(i) && Count(s, Closing(i)) > Count(s, Opening(i))
  }

  /** The URL ends with a bracket too many, behind punctuation or behind one more bracket too many
      of a later kind. */
  predicate LosesEnd(url: string)
  {
    |url| >= 2 && exists i :: 0 <= i < 4 && Unbalanced(url, i) && LosesMore(url[..|url| - 1], i)
  }

  predicate LosesMore(url: string, i: nat)
    requires url != ""
  {
    IsPunctuation(url[|url| - 1]) || Later(url, i, 4)
  }

  /** There is a bracket too many at the end, of one of the kinds behind `i`. */
  predicate Later(url: string, i: int, pairs: nat)
    requires -1 <= i && pairs <= 4
  {
    exists j :: i < j < pairs && Unbalanced(url, j)
  }

  /** There are two, the last one of an earlier kind. */
  predicate Two(url: string, pairs: nat)
    requires pairs <= 4
  {
    |url| >= 2 && exists i :: 0 <= i < pairs && Unbalanced(url, i) && Later(url[..|url| - 1], i, pairs)
  }

  /** `t` is `url` without opening brackets of the first `pairs` kinds in front, and without as
      many characters at the end as were kept for later. */
  predicate IsPart(url: string, t: Trimming, pairs: nat)
    requires pairs <= 4
  {
    && |t.leading| + |t.trailing| <= |url|
    && t.url == url[|t.leading|..|url| - |t.trailing|]
    && forall k :: 0 <= k < |t.leading| ==> OpeningKind(url[k]) < pairs
  }

  function OpeningKind(c: char): nat
  {
    if c == '(' then 0 else if c == '[' then 1 else if c == '{' then 2 else if c == '<' then 3 else 4
  }

  lemma {:induction false} CountAppend(a: string, b: string, c: char)
    ensures Count(a + b, c) == Count(a, c) + Count(b, c)
  {
    if a == "" {
      assert a + b == b;
    } else {
      CountAppend(a[1..], b, c);
      assert (a + b)[0] == a[0] && (a + b)[1..] == a[1..] + b;
    }
  }

  /** The brackets in front do not matter for brackets of a later kind. */
  lemma {:induction false} PartCounts(url: string, t: Trimming, pairs: nat)
    requires pairs < 4 && IsPart(url, t, pairs)
    ensures var left := url[..|url| - |t.trailing|];
            && (t.url == "" || t.url[|t.url| - 1] == left[|left| - 1])
            && (t.url == "" ==> !Unbalanced(left, pairs))
            && Count(t.url, Opening(pairs)) == Count(left, Opening(pairs))
            && Count(t.url, Closing(pairs)) == Count(left, Closing(pairs))
  {
    hide Count, Opening, Closing, Unbalanced;
    var left := url[..|url| - |t.trailing|];
    var front := url[..|t.leading|];
    assert left == front + t.url;
    CountAppend(front, t.url, Opening(pairs));
    CountAppend(front, t.url, Closing(pairs));
    assert forall k :: 0 <= k < |front| ==> OpeningKind(front[k]) < pairs;
    OtherKinds(front, pairs);
    NotCounted(front, Opening(pairs));
    NotCounted(front, Closing(pairs));
    if t.url == "" {
      OpeningsOnly(left, pairs);
    }
  }

  lemma {:induction false} OtherKinds(s: string, pairs: nat)
    requires pairs < 4 && forall k :: 0 <= k < |s| ==> OpeningKind(s[k]) < pairs
    ensures Opening(pairs) !in s && Closing(pairs) !in s
  {}

  lemma {:induction false} OpeningsOnly(s: string, pairs: nat)
    requires pairs < 4 && forall k :: 0 <= k < |s| ==> OpeningKind(s[k]) < pairs
    ensures !Unbalanced(s, pairs)
  {
    hide Count;
    assert s != "" ==> OpeningKind(s[|s| - 1]) < pairs;
  }

  lemma {:induction false} PartStep(url: string, t: Trimming, pairs: nat)
    requires pairs < 4 && IsPart(url, t, pairs)
    ensures var u, left := TrimPair(t, Opening(pairs), Closing(pairs)), url[..|url| - |t.trailing|];
            && IsPart(url, u, pairs + 1)
            && |u.trailing| == |t.trailing| + if Unbalanced(left, pairs) then 1 else 0
  {
    PartCounts(url, t, pairs);
    PartShrinks(url, t, pairs);
    hide Count, Opening, Closing, IsPart;
  }

  lemma {:induction false} PartShrinks(url: string, t: Trimming, pairs: nat)
    requires pairs < 4 && IsPart(url, t, pairs)
    ensures |t.trailing| <= |url| && IsPart(url, t, pairs + 1)
    ensures t.url != "" ==>
              IsPart(url, Trimming(t.leading, t.url[..|t.url| - 1], t.trailing + [t.url[|t.url| - 1]]), pairs + 1)
    ensures t.url != "" && t.url[0] == Opening(pairs) ==>
              IsPart(url, Trimming(t.leading + [t.url[0]], t.url[1..], t.trailing), pairs + 1)
  {}

  lemma {:induction false} LaterStep(url: string, pairs: nat)
    requires pairs < 4
    ensures Later(url, -1, pairs + 1) <==> Later(url, -1, pairs) || Unbalanced(url, pairs)
    ensures |url| >= 2 ==> (Two(url, pairs + 1) <==>
              Two(url, pairs) || (Later(url, -1, pairs) && Unbalanced(url[..|url| - 1], pairs)))
  {
    hide Unbalanced;
    var front := if url == "" then "" else url[..|url| - 1];
    forall i | 0 <= i <= pairs
      ensures Later(front, i, pairs + 1) <==> Later(front, i, pairs) || (i < pairs && Unbalanced(front, pairs))
    {
      if i < pairs && Unbalanced(front, pairs) {
        assert Later(front, i, pairs + 1);
      }
    }
  }

  /** How many brackets come off the end of a URL is decided by its last two characters and the
      numbers of brackets in it. */
  lemma {:induction false} BracketsAtEnd(url: string, pairs: nat)
    requires pairs <= 4
    ensures var t := TrimPairs(Trimming("", url, ""), pairs);
            && IsPart(url, t, pairs)
            && (|t.trailing| >= 1 <==> Later(url, -1, pairs))
            && (|t.trailing| >= 2 <==> Two(url, pairs))
  {
    hide Unbalanced, Later, Two, TrimPair, IsPart;
    if pairs == 0 {
      NoBrackets(url);
    } else {
      var t := TrimPairs(Trimming("", url, ""), pairs - 1);
      BracketsAtEnd(url, pairs - 1);
      PartFits(url, t, pairs - 1);
      PartStep(url, t, pairs - 1);
      LaterStep(url, pairs - 1);
      Short(url, pairs - 1);
      assert url[..|url|] == url;
    }
  }

  lemma {:induction false} NoBrackets(url: string)
    ensures IsPart(url, Trimming("", url, ""), 0)
    ensures !Later(url, -1, 0) && !Two(url, 0)
  {
    assert url[0..|url|] == url;
  }

  lemma {:induction false} PartFits(url: string, t: Trimming, pairs: nat)
    requires pairs <= 4 && IsPart(url, t, pairs)
    ensures |t.trailing| <= |url|
  {}

  lemma {:induction false} Short(url: string, i: nat)
    requires i < 4
    ensures !Unbalanced("", i)
    ensures |url| < 2 ==> !Two(url, i) && !Two(url, i + 1)
    ensures |url| == 1 ==> !Unbalanced(url[..0], i)
  {}

  lemma {:induction false} EndIsLost(url: string)
    ensures CutAtEnd(url) <= 1 <==> !LosesEnd(url)
  {
    hide Unbalanced, TrimPairs;
    var b, n := Brackets(url), |url|;
    BracketsAtEnd(url, 4);
    PunctuationAtEnd(url, b);
    if |b.trailing| == 1 && n >= 2 {
      var i :| 0 <= i < 4 && Unbalanced(url, i);
      assert LosesMore(url[..n - 1], i) <==> IsPunctuation(url[n - 2]) || Later(url[..n - 1], i, 4);
    }
  }

  lemma {:induction false} PunctuationAtEnd(url: string, b: Trimming)
    requires IsPart(url, b, 4)
    ensures TrimPunctuation(b) != b <==> b.url != "" && IsPunctuation(b.url[|b.url| - 1])
    ensures TrimPunctuation(b) != b <==> |url| > |b.trailing| && IsPunctuation(url[|url| - |b.trailing| - 1])
  {
    if b.url != "" && IsPunctuation(b.url[|b.url| - 1]) {
      assert |TrimPunctuation(b).url| < |b.url|;
    }
  }

  /** The three parts put together are the URL that was matched, for exactly the URLs that do not
      end with a bracket too many behind punctuation or behind another bracket too many. */
  lemma {:induction false} TrimmingKeepsText(url: string)
    ensures Whole(Trimmed(url)) == url <==> !LosesEnd(url)
    ensures |Whole(Trimmed(url))| <= |url|
  {
    hide *;
    LittleCutKeepsText(url);
    EndIsLost(url);
  }

  // ----- exactly what is trimmed

  /** The bracket that closes `c`, if that is an opening one, and `c` otherwise. */
  function Partner(c: char): char
  {
    match c
    case '(' => ')'
    case '[' => ']'
    case '{' => '}'
    case '<' => '>'
    case _ => c
  }

  /** `s` begins with an opening bracket and has more of them than of its partner. */
  predicate OpensTooMuch(s: string)
  {
    s != "" && s[0] in "([{<" && multiset(s)[s[0]] > multiset(s)[Partner(s[0])]
  }

  /** `s` ends with the bracket that closes `open` and has more of them than of `open`. */
  predicate ClosesTooMuch(s: string, open: char)
  {
    s != "" && open in "([{<" && s[|s| - 1] == Partner(open) && multiset(s)[Partner(open)] > multiset(s)[open]
  }

  lemma {:induction false} CountIsMultiset(s: string, c: char)
    ensures Count(s, c) == multiset(s)[c]
  {
    if s != "" {
      CountIsMultiset(s[1..], c);
      assert s == [s[0]] + s[1..];
    }
  }

  lemma {:induction false} KindsExactly(c: char)
    ensures OpeningKind(c) < 4 <==> c in "([{<"
    ensures OpeningKind(c) < 4 ==> Opening(OpeningKind(c)) == c && Closing(OpeningKind(c)) == Partner(c)
    ensures Kind(c) < 4 ==> Closing(Kind(c)) == c && Partner(Opening(Kind(c))) == c
  {}

  lemma {:induction false} UnbalancedExactly(s: string, i: nat)
    requires i < 4
    ensures Unbalanced(s, i) <==> ClosesTooMuch(s, Opening(i))
  {
    CountIsMultiset(s, Opening(i));
    CountIsMultiset(s, Closing(i));
  }

  /** How many brackets of the first kinds come off in front, and behind. */
  function FrontCut(url: string, pairs: nat): (a: nat)
    requires pairs <= 4
    ensures a <= |url|
  {
    if pairs == 0 then 0
    else
      var a := FrontCut(url, pairs - 1);
      if a < |url| && OpeningKind(url[a]) == pairs - 1 && OpensTooMuch(url[a..]) then a + 1 else a
  }

  function EndCut(url: string, pairs: nat): (b: nat)
    requires pairs <= 4
    ensures b <= |url|
  {
    if pairs == 0 then 0
    else
      var b := EndCut(url, pairs - 1);
      if b < |url| && ClosesTooMuch(url[..|url| - b], Opening(pairs - 1)) then b + 1 else b
  }

  /** `t` is `url`, cut into three, with brackets of the first kinds at both ends. */
  predicate IsCut(url: string, t: Trimming, pairs: nat)
    requires pairs <= 4
  {
    && IsPart(url, t, pairs)
    && t.leading == url[..|t.leading|]
    && (forall k :: 0 <= k < |t.trailing| ==> t.trailing[k] == url[|url| - 1 - k])
    && forall k :: 0 <= k < |t.trailing| ==> Kind(t.trailing[k]) < pairs
  }

  /** What was cut off behind, as it stands in the URL. */
  lemma {:induction false} EndShape(url: string, t: Trimming, pairs: nat)
    requires pairs <= 4 && IsCut(url, t, pairs)
    ensures |t.leading| + |t.trailing| <= |url|
    ensures var right, end := url[|t.leading|..], url[|url| - |t.trailing|..];
            && right == t.url + end
            && (forall k :: 0 <= k < |end| ==> Kind(end[k]) < pairs)
            && (t.url != "" ==> right != "" && right[0] == t.url[0])
            && (t.url == "" ==> right == end)
  {
    var right, end := url[|t.leading|..], url[|url| - |t.trailing|..];
    forall k | 0 <= k < |end| ensures Kind(end[k]) < pairs {
      assert end[k] == t.trailing[|end| - 1 - k];
    }
    hide Kind;
    assert right == t.url + end;
  }

  lemma {:induction false} EndNotCounted(end: string, pairs: nat)
    requires pairs < 4 && forall k :: 0 <= k < |end| ==> Kind(end[k]) < pairs
    ensures Count(end, Opening(pairs)) == 0 && Count(end, Closing(pairs)) == 0
    ensures end != "" ==> OpeningKind(end[0]) == 4
  {
    NotCounted(end, Opening(pairs));
    NotCounted(end, Closing(pairs));
  }

  lemma {:induction false} OpensExactly(s: string, i: nat)
    requires i < 4 && s != ""
    ensures OpeningKind(s[0]) == i && OpensTooMuch(s) <==>
            s[0] == Opening(i) && Count(s, Opening(i)) > Count(s, Closing(i))
  {
    CountIsMultiset(s, Opening(i));
    CountIsMultiset(s, Closing(i));
    KindsExactly(s[0]);
  }

  /** A bracket comes off in front exactly if too many of its kind are opened from there on. */
  lemma {:induction false} FrontStep(url: string, t: Trimming, pairs: nat)
    requires pairs < 4 && IsCut(url, t, pairs)
    ensures var u, a := TrimPair(t, Opening(pairs), Closing(pairs)), |t.leading|;
            && a <= |url|
            && |u.leading| == a + if a < |url| && OpeningKind(url[a]) == pairs && OpensTooMuch(url[a..]) then 1 else 0
  {
    hide IsCut, Count, OpensTooMuch, OpeningKind, Opening, Closing, Kind, TrimPair;
    EndShape(url, t, pairs);
    var a := |t.leading|;
    var right, end := url[a..], url[|url| - |t.trailing|..];
    EndNotCounted(end, pairs);
    if right != "" {
      assert right[0] == url[a];
      OpensExactly(right, pairs);
      CountAppend(t.url, end, Opening(pairs));
      CountAppend(t.url, end, Closing(pairs));
    }
    if t.url != "" {
      PairCases(t, Opening(pairs), Closing(pairs));
    } else {
      NothingToTrim(t, Opening(pairs), Closing(pairs));
    }
  }

  lemma {:induction false} NothingToTrim(t: Trimming, open: char, close: char)
    requires t.url == ""
    ensures TrimPair(t, open, close) == t
  {}

  lemma {:induction false} CutStep(url: string, t: Trimming, pairs: nat)
    requires pairs < 4 && IsCut(url, t, pairs)
    ensures IsCut(url, TrimPair(t, Opening(pairs), Closing(pairs)), pairs + 1)
  {
    hide TrimPair, IsPart, Count;
    CutIsPart(url, t, pairs);
    PartStep(url, t, pairs);
    if t.url != "" {
      PairCases(t, Opening(pairs), Closing(pairs));
      CutShape(url, t, pairs);
      ClosingKind(pairs);
    } else {
      NothingToTrim(t, Opening(pairs), Closing(pairs));
    }
  }

  lemma {:induction false} ClosingKind(i: nat)
    requires i < 4
    ensures Kind(Closing(i)) == i && OpeningKind(Opening(i)) == i
  {}

  lemma {:induction false} CutIsPart(url: string, t: Trimming, pairs: nat)
    requires pairs <= 4 && IsCut(url, t, pairs)
    ensures IsPart(url, t, pairs) && |t.leading| + |t.trailing| <= |url|
  {}

  lemma {:induction false} CutShape(url: string, t: Trimming, pairs: nat)
    requires pairs < 4 && IsCut(url, t, pairs) && t.url != ""
    ensures |t.leading| + |t.trailing| < |url|
    ensures t.leading + [t.url[0]] == url[..|t.leading| + 1]
    ensures t.url[|t.url| - 1] == url[|url| - 1 - |t.trailing|]
  {}

  /** The brackets come off as `FrontCut` and `EndCut` say. */
  lemma {:induction false} BracketsAreCut(url: string, pairs: nat)
    requires pairs <= 4
    ensures var t := TrimPairs(Trimming("", url, ""), pairs);
            IsCut(url, t, pairs) && |t.leading| == FrontCut(url, pairs) && |t.trailing| == EndCut(url, pairs)
  {
    hide IsCut, IsPart, OpensTooMuch, ClosesTooMuch, TrimPair, TrimPairs, Unbalanced, OpeningKind, FrontCut, EndCut,
         Opening, Closing;
    var start := Trimming("", url, "");
    CutsStep(url, pairs);
    if pairs == 0 {
      NothingCut(url);
      AllBrackets(url);
    } else {
      var t := TrimPairs(start, pairs - 1);
      PairStep(start, pairs - 1);
      BracketsAreCut(url, pairs - 1);
      CutIsPart(url, t, pairs - 1);
      FrontStep(url, t, pairs - 1);
      PartStep(url, t, pairs - 1);
      CutStep(url, t, pairs - 1);
      UnbalancedExactly(url[..|url| - |t.trailing|], pairs - 1);
      NoneUnbalanced(url, |t.trailing|, pairs - 1);
    }
  }

  lemma {:induction false} CutsStep(url: string, pairs: nat)
    requires pairs <= 4
    ensures pairs == 0 ==> FrontCut(url, pairs) == 0 && EndCut(url, pairs) == 0
    ensures pairs > 0 ==>
              var a, b := FrontCut(url, pairs - 1), EndCut(url, pairs - 1);
              && FrontCut(url, pairs) ==
                   a + (if a < |url| && OpeningKind(url[a]) == pairs - 1 && OpensTooMuch(url[a..]) then 1 else 0)
              && EndCut(url, pairs) ==
                   b + (if b < |url| && ClosesTooMuch(url[..|url| - b], Opening(pairs - 1)) then 1 else 0)
  {
    hide OpensTooMuch, ClosesTooMuch, OpeningKind, Opening;
  }

  lemma {:induction false} NoneUnbalanced(url: string, b: nat, i: nat)
    requires b <= |url| && i < 4
    ensures Unbalanced(url[..|url| - b], i) ==> b < |url|
  {}

  lemma {:induction false} NothingCut(url: string)
    ensures IsCut(url, Trimming("", url, ""), 0)
  {
    assert url[0..|url|] == url && url[..0] == "";
  }

  // ----- the ends, from outside in

  /** The first `a` characters are opening brackets of which there are too many from each on, their
      kinds rise, and the next character is none whose turn could still come. */
  predicate IsFront(url: string, a: nat, pairs: nat)
  {
    && a <= |url|
    && (forall k :: 0 <= k < a ==> OpensHere(url, k) && FrontKind(url, k) < pairs)
    && (forall k :: 0 < k < a ==> FrontKind(url, k - 1) < FrontKind(url, k))
    && (a < |url| && OpensHere(url, a) && FrontKind(url, a) < pairs ==>
          a > 0 && FrontKind(url, a) <= FrontKind(url, a - 1))
  }

  predicate OpensHere(url: string, a: nat)
    requires a < |url|
  {
    OpensTooMuch(url[a..])
  }

  function FrontKind(url: string, a: nat): nat
    requires a < |url|
  {
    OpeningKind(url[a])
  }

  lemma {:induction false} FrontIsCut(url: string, pairs: nat)
    requires pairs <= 4
    ensures IsFront(url, FrontCut(url, pairs), pairs)
  {
    hide OpensHere, FrontKind, FrontCut, IsFront;
    FrontCutStep(url, pairs);
    if pairs > 0 {
      FrontIsCut(url, pairs - 1);
      FrontGrows(url, FrontCut(url, pairs - 1), pairs - 1);
    } else {
      EmptyFront(url);
    }
  }

  lemma {:induction false} FrontCutStep(url: string, pairs: nat)
    requires pairs <= 4
    ensures pairs == 0 ==> FrontCut(url, pairs) == 0
    ensures pairs > 0 ==>
              var a := FrontCut(url, pairs - 1);
              FrontCut(url, pairs) ==
                a + if a < |url| && FrontKind(url, a) == pairs - 1 && OpensHere(url, a) then 1 else 0
  {
    hide OpensTooMuch, OpeningKind;
  }

  lemma {:induction false} EmptyFront(url: string)
    ensures IsFront(url, 0, 0)
  {
    hide OpensHere, FrontKind;
  }

  lemma {:induction false} FrontGrows(url: string, a: nat, pairs: nat)
    requires IsFront(url, a, pairs)
    ensures IsFront(url, a + if a < |url| && FrontKind(url, a) == pairs && OpensHere(url, a) then 1 else 0, pairs + 1)
  {
    hide OpensHere, FrontKind;
  }

  /** The same behind, for closing brackets. */
  predicate IsEnd(url: string, b: nat, pairs: nat)
  {
    && b <= |url|
    && (forall k :: 0 <= k < b ==> ClosesHere(url, k) && EndKind(url, k) < pairs)
    && (forall k :: 0 < k < b ==> EndKind(url, k - 1) < EndKind(url, k))
    && (b < |url| && ClosesHere(url, b) && EndKind(url, b) < pairs ==>
          b > 0 && EndKind(url, b) <= EndKind(url, b - 1))
  }

  function EndKind(url: string, b: nat): nat
    requires b < |url|
  {
    Kind(url[|url| - 1 - b])
  }

  /** Without its last `b` characters, the URL ends with a closing bracket of which it has too many. */
  predicate ClosesHere(url: string, b: nat)
    requires b < |url|
  {
    exists i :: 0 <= i < 4 && ClosesTooMuch(url[..|url| - b], Opening(i))
  }

  lemma {:induction false} ClosesOneKind(url: string, b: nat, i: nat)
    requires b < |url| && i < 4
    ensures ClosesTooMuch(url[..|url| - b], Opening(i)) <==> ClosesHere(url, b) && EndKind(url, b) == i
  {
    hide Kind, Opening, Closing, Partner, ClosesTooMuch;
    var s := url[..|url| - b];
    assert s[|s| - 1] == url[|url| - 1 - b];
    forall j | 0 <= j < 4 && ClosesTooMuch(s, Opening(j)) ensures Kind(s[|s| - 1]) == j {
      ClosingLast(s, j);
    }
  }

  lemma {:induction false} ClosingLast(s: string, i: nat)
    requires i < 4 && ClosesTooMuch(s, Opening(i))
    ensures s != "" && Kind(s[|s| - 1]) == i
  {}

  lemma {:induction false} EndIsCut(url: string, pairs: nat)
    requires pairs <= 4
    ensures IsEnd(url, EndCut(url, pairs), pairs)
  {
    hide ClosesHere, EndKind, EndCut, IsEnd;
    EndCutStep(url, pairs);
    if pairs > 0 {
      EndIsCut(url, pairs - 1);
      EndGrows(url, EndCut(url, pairs - 1), pairs - 1);
    } else {
      EmptyEnd(url);
    }
  }

  lemma {:induction false} EndCutStep(url: string, pairs: nat)
    requires pairs <= 4
    ensures pairs == 0 ==> EndCut(url, pairs) == 0
    ensures pairs > 0 ==>
              var b := EndCut(url, pairs - 1);
              EndCut(url, pairs) ==
                b + if b < |url| && EndKind(url, b) == pairs - 1 && ClosesHere(url, b) then 1 else 0
  {
    hide ClosesTooMuch, ClosesHere, EndKind, Opening;
    if pairs > 0 && EndCut(url, pairs - 1) < |url| {
      ClosesOneKind(url, EndCut(url, pairs - 1), pairs - 1);
    }
  }

  lemma {:induction false} EmptyEnd(url: string)
    ensures IsEnd(url, 0, 0)
  {
    hide ClosesHere, EndKind;
  }

  lemma {:induction false} EndGrows(url: string, b: nat, pairs: nat)
    requires IsEnd(url, b, pairs)
    ensures IsEnd(url, b + if b < |url| && EndKind(url, b) == pairs && ClosesHere(url, b) then 1 else 0, pairs + 1)
  {
    hide ClosesHere, EndKind;
  }

  lemma {:induction false} CutInThree(url: string, t: Trimming, pairs: nat)
    requires pairs <= 4 && IsCut(url, t, pairs)
    ensures |t.leading| + |t.trailing| <= |url|
    ensures t.leading == url[..|t.leading|]
    ensures t.url == url[|t.leading|..|url| - |t.trailing|]
    ensures forall k :: 0 <= k < |t.trailing| ==> t.trailing[k] == url[|url| - 1 - k]
  {}

  lemma {:induction false} PunctuationExactly(t: Trimming)
    ensures TrimPunctuation(t) ==
              if t.url != "" && t.url[|t.url| - 1] in ".,;"
              then Trimming(t.leading, t.url[..|t.url| - 1], [t.url[|t.url| - 1]]) else t
  {}

  /** A URL is cut into the brackets that are opened too much in front, those closed too much
      behind, in reverse, and the rest; then a full stop, comma or semicolon at the end of the rest
      takes the place of what was cut off behind. */
  lemma {:induction false} TrimmedExactly(url: string)
    ensures var b := Brackets(url);
            && IsFront(url, |b.leading|, 4) && IsEnd(url, |b.trailing|, 4)
            && |b.leading| + |b.trailing| <= |url|
            && b.leading == url[..|b.leading|]
            && b.url == url[|b.leading|..|url| - |b.trailing|]
            && (forall k :: 0 <= k < |b.trailing| ==> b.trailing[k] == url[|url| - 1 - k])
            && Trimmed(url) ==
                 if b.url != "" && b.url[|b.url| - 1] in ".,;"
                 then Trimming(b.leading, b.url[..|b.url| - 1], [b.url[|b.url| - 1]]) else b
  {
    hide IsFront, IsEnd, FrontCut, EndCut, TrimPairs, IsCut, TrimPunctuation;
    BracketsAreCut(url, 4);
    FrontIsCut(url, 4);
    EndIsCut(url, 4);
    CutInThree(url, Brackets(url), 4);
    PunctuationExactly(Brackets(url));
  }
}

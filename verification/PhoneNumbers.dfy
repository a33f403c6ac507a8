/** Finding the phone numbers in the recipients of a short message. */
module PhoneNumbers {
  import opened Text

  predicate IsNumberChar(c: char)
  {
    '0' <= c <= '9' || c == '+' || c == '#' || c == '*' || c == '-' || c == '(' || c == ')' || c == ' '
  }

  predicate EndsNumber(c: char) { c == ',' || c == '<' || c == '>' }

  predicate EndsToken(c: char) { c == ' ' || c == ',' }

  // ----- what a phone number is

  /** Whether a number might stand at position `i`: a token with any other character is no number
      from that character on. */
  predicate MightBeNumber(s: string, i: nat)
    requires i <= |s|
  {
    i == 0 ||
    if MightBeNumber(s, i - 1) then IsNumberChar(s[i - 1]) || EndsNumber(s[i - 1]) else EndsToken(s[i - 1])
  }

  /** A number may begin at `i`, and none is going on. */
  predicate Begins(s: string, i: nat)
    requires i <= |s|
  {
    MightBeNumber(s, i) && (i > 0 ==> !(MightBeNumber(s, i - 1) && IsNumberChar(s[i - 1])))
  }

  /** A character that makes the rest of its token no number. */
  predicate SpoilsToken(c: char) { c !in "0123456789+#*-() " && c !in ",<>" }

  lemma {:induction false} CharactersExactly(c: char)
    ensures IsNumberChar(c) <==> c in "0123456789+#*-() "
    ensures EndsNumber(c) <==> c in ",<>"
    ensures EndsToken(c) <==> c in " ,"
  {}

  /** A space or a comma stands between positions `j` and `i`. */
  predicate TokenEndsBetween(s: string, j: nat, i: nat)
    requires i <= |s|
  {
    exists k :: j < k < i && s[k] in " ,"
  }

  predicate NoneSpoils(s: string, i: nat)
    requires i <= |s|
  {
    forall j :: 0 <= j < i && SpoilsToken(s[j]) ==> TokenEndsBetween(s, j, i)
  }

  /** A number might stand where a space or a comma has followed every character that spoils its
      token. */
  lemma {:induction false} MightExactly(s: string, i: nat)
    requires i <= |s|
    ensures MightBeNumber(s, i) <==> NoneSpoils(s, i)
  {
    hide MightBeNumber, SpoilsToken, EndsToken, NoneSpoils;
    MightAtStart(s);
    if i > 0 {
      MightExactly(s, i - 1);
      MightStep(s, i - 1);
      NoneSpoilsStep(s, i - 1);
    }
  }

  lemma {:induction false} MightAtStart(s: string)
    ensures MightBeNumber(s, 0) && NoneSpoils(s, 0)
  {
    hide SpoilsToken;
  }

  lemma {:induction false} SpoilsExactly(c: char)
    ensures SpoilsToken(c) <==> !IsNumberChar(c) && !EndsNumber(c)
    ensures EndsToken(c) <==> c in " ,"
    ensures EndsToken(c) ==> !SpoilsToken(c)
  {}

  lemma {:induction false} MightStep(s: string, i: nat)
    requires i < |s|
    ensures MightBeNumber(s, i + 1) <==> EndsToken(s[i]) || (MightBeNumber(s, i) && !SpoilsToken(s[i]))
  {
    hide IsNumberChar, EndsNumber, SpoilsToken, EndsToken;
    SpoilsExactly(s[i]);
  }

  lemma {:induction false} NoneSpoilsStep(s: string, i: nat)
    requires i < |s|
    ensures NoneSpoils(s, i + 1) <==> EndsToken(s[i]) || (NoneSpoils(s, i) && !SpoilsToken(s[i]))
  {
    hide SpoilsToken, TokenEndsBetween, EndsToken;
    SpoilsExactly(s[i]);
    BetweenStep(s, i, i);
    if EndsToken(s[i]) || (NoneSpoils(s, i) && !SpoilsToken(s[i])) {
      forall j | 0 <= j < i + 1 && SpoilsToken(s[j]) ensures TokenEndsBetween(s, j, i + 1) {
        BetweenStep(s, j, i);
      }
    } else if NoneSpoils(s, i + 1) {
      forall j | 0 <= j < i && SpoilsToken(s[j]) ensures TokenEndsBetween(s, j, i) {
        BetweenStep(s, j, i);
      }
    }
  }

  lemma {:induction false} BetweenStep(s: string, j: nat, i: nat)
    requires j <= i < |s|
    ensures TokenEndsBetween(s, j, i + 1) <==> j < i && (EndsToken(s[i]) || TokenEndsBetween(s, j, i))
  {
    SpoilsExactly(s[i]);
    hide EndsToken;
    if j < i && EndsToken(s[i]) {
      assert s[i] in " ,";
    }
    if j < i && TokenEndsBetween(s, j, i) {
      var k :| j < k < i && s[k] in " ,";
      assert TokenEndsBetween(s, j, i + 1);
    }
  }

  datatype Span = Span(from: nat, to: nat)

  predicate IsNumber(s: string, n: Span)
  {
    && n.from < n.to <= |s|
    && Begins(s, n.from)
    && (forall k :: n.from <= k < n.to ==> IsNumberChar(s[k]))
    && (n.to < |s| ==> EndsNumber(s[n.to]))
  }

  // ----- finding them

  /** The numbers found from position `i` on, when the one going on has begun at `a`. */
  function Found(s: string, i: nat, a: nat, might: bool): seq<Span>
    requires a <= i <= |s|
    decreases |s| - i
  {
    if i == |s| then Ended(a, i)
    else if !might then Found(s, i + 1, i + 1, EndsToken(s[i]))
    else if IsNumberChar(s[i]) then Found(s, i + 1, a, true)
    else if EndsNumber(s[i]) then Ended(a, i) + Found(s, i + 1, i + 1, true)
    else Found(s, i + 1, i + 1, false)
  }

  function Ended(a: nat, i: nat): seq<Span>
  {
    if a < i then [Span(a, i)] else []
  }

  predicate Inside(s: string, spans: seq<Span>)
  {
    forall k :: 0 <= k < |spans| ==> spans[k].from <= spans[k].to <= |s|
  }

  function Texts(s: string, spans: seq<Span>): seq<string>
    requires Inside(s, spans)
  {
    if |spans| == 0 then [] else [s[spans[0].from..spans[0].to]] + Texts(s, spans[1..])
  }

  lemma {:induction false} FoundInside(s: string, i: nat, a: nat, might: bool)
    requires a <= i <= |s|
    ensures Inside(s, Found(s, i, a, might))
    ensures forall k :: 0 <= k < |Found(s, i, a, might)| ==> Found(s, i, a, might)[k].from >= a
    decreases |s| - i
  {
    if i < |s| {
      if !might {
        FoundInside(s, i + 1, i + 1, EndsToken(s[i]));
      } else {
        FoundInside(s, i + 1, if IsNumberChar(s[i]) then a else i + 1, IsNumberChar(s[i]) || EndsNumber(s[i]));
      }
    }
  }

  /** The phone numbers of a text, in order. */
  function Numbers(s: string): seq<string>
  {
    FoundInside(s, 0, 0, true);
    Texts(s, Found(s, 0, 0, true))
  }

  lemma {:induction false} TextsAppend(s: string, x: seq<Span>, y: seq<Span>)
    requires Inside(s, x) && Inside(s, y)
    ensures Inside(s, x + y) && Texts(s, x + y) == Texts(s, x) + Texts(s, y)
  {
    if x == [] {
      assert x + y == y;
    } else {
      TextsAppend(s, x[1..], y);
      assert (x + y)[0] == x[0] && (x + y)[1..] == x[1..] + y;
    }
  }

  function TextsFrom(s: string, i: nat, a: nat, might: bool): seq<string>
    requires a <= i <= |s|
  {
    FoundInside(s, i, a, might);
    Texts(s, Found(s, i, a, might))
  }

  /** One step of the scan. */
  lemma {:induction false} TextsStep(s: string, i: nat, a: nat, might: bool)
    requires a <= i < |s|
    ensures TextsFrom(s, i, a, might) ==
            if !might then TextsFrom(s, i + 1, i + 1, EndsToken(s[i]))
            else if IsNumberChar(s[i]) then TextsFrom(s, i + 1, a, true)
            else if EndsNumber(s[i]) then
              (if a < i then [s[a..i]] else []) + TextsFrom(s, i + 1, i + 1, true)
            else TextsFrom(s, i + 1, i + 1, false)
  {
    if might && EndsNumber(s[i]) {
      FoundInside(s, i + 1, i + 1, true);
      TextsAppend(s, Ended(a, i), Found(s, i + 1, i + 1, true));
    }
  }

  method GetNumbers(number: string) returns (numbers: seq<string>)
    ensures numbers == Numbers(number)
  {
    hide Numbers, TextsFrom, IsNumberChar;
    var n := "";
    numbers := [];
    var mightBeNumber := true;
    ghost var a := 0;
    assert [] + TextsFrom(number, 0, 0, true) == TextsFrom(number, 0, 0, true);
    for posn := 0 to |number|
      invariant a <= posn && n == number[a..posn] && (!mightBeNumber ==> n == "")
      invariant numbers + TextsFrom(number, posn, a, mightBeNumber) == TextsFrom(number, 0, 0, true)
    {
      var ch := number[posn];
      TextsStep(number, posn, a, mightBeNumber);
      Grows(number, a, posn);
      if !mightBeNumber {
        if ch == ' ' || ch == ',' {
          mightBeNumber := true;
        }
        a := posn + 1;
        continue;
      }
      if IsNumberChar(ch) {
        n := n + [ch];
      } else if ch == ',' || ch == '<' || ch == '>' {
        ListShift(numbers, n, TextsFrom(number, posn + 1, posn + 1, true));
        if n != "" {
          numbers := numbers + [n];
        }
        n, a := "", posn + 1;
      } else {
        mightBeNumber := false;
        n, a := "", posn + 1;
      }
    }
    TextsEnd(number, a, mightBeNumber);
    NumbersAre(number);
    assert number[a..|number|] == number[a..];
    if n != "" {
      numbers := numbers + [n];
    } else {
      assert numbers + [] == numbers;
    }
  }

  lemma {:induction false} Grows(s: string, a: nat, i: nat)
    requires a <= i < |s|
    ensures s[a..i] + [s[i]] == s[a..i + 1]
    ensures s[i + 1..i + 1] == ""
    ensures s[a..i] == "" <==> a == i
  {}

  lemma {:induction false} ListShift(a: seq<string>, b: string, c: seq<string>)
    ensures a + ([b] + c) == (a + [b]) + c
    ensures a + ([] + c) == a + c
  {
    assert [] + c == c;
  }

  lemma {:induction false} NumbersAre(s: string)
    ensures Numbers(s) == TextsFrom(s, 0, 0, true)
  {}

  lemma {:induction false} TextsEnd(s: string, a: nat, might: bool)
    requires a <= |s|
    ensures TextsFrom(s, |s|, a, might) == if a < |s| then [s[a..]] else []
  {
    if a < |s| {
      var last := [Span(a, |s|)];
      assert Found(s, |s|, a, might) == last && last[1..] == [];
      assert Texts(s, last[1..]) == [];
      assert Texts(s, last) == [s[a..|s|]] + Texts(s, last[1..]);
      assert s[a..|s|] == s[a..];
    }
  }

  // ----- exactly the phone numbers are found

  /** What is known at position `i` of the scan. */
  predicate Reached(s: string, i: nat, a: nat, might: bool)
    requires a <= i <= |s|
  {
    && might == MightBeNumber(s, i)
    && (!might ==> a == i)
    && (might ==> Begins(s, a) && forall k :: a <= k < i ==> IsNumberChar(s[k]))
  }

  lemma {:induction false} ReachedNext(s: string, i: nat, a: nat, might: bool)
    requires a <= i < |s| && Reached(s, i, a, might)
    ensures !might ==> Reached(s, i + 1, i + 1, EndsToken(s[i]))
    ensures might && IsNumberChar(s[i]) ==> Reached(s, i + 1, a, true)
    ensures might && !IsNumberChar(s[i]) ==> Reached(s, i + 1, i + 1, EndsNumber(s[i]))
  {}

  /** Among number characters, no second number begins. */
  lemma {:induction false} BeginsOnce(s: string, a: nat, i: nat, k: nat)
    requires a < k <= i <= |s| && Begins(s, a)
    requires forall j :: a <= j < i ==> IsNumberChar(s[j])
    ensures MightBeNumber(s, k) && !Begins(s, k)
  {
    if k > a + 1 {
      BeginsOnce(s, a, i, k - 1);
    }
  }

  lemma {:induction false} FoundExactly(s: string, i: nat, a: nat, might: bool, n: Span)
    requires a <= i <= |s| && Reached(s, i, a, might)
    ensures n in Found(s, i, a, might) <==> IsNumber(s, n) && n.from >= a
    decreases |s| - i
  {
    if a < n.from <= i {
      BeginsOnce(s, a, i, n.from);
    }
    if i < |s| {
      ReachedNext(s, i, a, might);
      if !might {
        FoundExactly(s, i + 1, i + 1, EndsToken(s[i]), n);
      } else if IsNumberChar(s[i]) {
        FoundExactly(s, i + 1, a, true, n);
      } else {
        FoundExactly(s, i + 1, i + 1, EndsNumber(s[i]), n);
      }
    }
  }

  /** One behind the other, with something in between. */
  predicate Apart(spans: seq<Span>)
  {
    forall j, k :: 0 <= j < k < |spans| ==> spans[j].to < spans[k].from
  }

  /** Behind a number that has ended, the scan goes on behind its end. */
  lemma {:induction false} ApartAfter(a: nat, i: nat, spans: seq<Span>)
    requires Apart(spans) && forall k :: 0 <= k < |spans| ==> spans[k].from >= i + 1
    ensures Apart(Ended(a, i) + spans)
  {
    var all, n := Ended(a, i) + spans, |Ended(a, i)|;
    forall j, k | 0 <= j < k < |all| ensures all[j].to < all[k].from {
      assert all[k] == spans[k - n];
      if j >= n {
        assert all[j] == spans[j - n];
      }
    }
  }

  lemma {:induction false} FoundInOrder(s: string, i: nat, a: nat, might: bool)
    requires a <= i <= |s|
    ensures Apart(Found(s, i, a, might))
    decreases |s| - i
  {
    if i < |s| {
      hide Apart, Ended;
      if !might {
        FoundInOrder(s, i + 1, i + 1, EndsToken(s[i]));
      } else if IsNumberChar(s[i]) {
        FoundInOrder(s, i + 1, a, true);
      } else {
        FoundInOrder(s, i + 1, i + 1, EndsNumber(s[i]));
        FoundInside(s, i + 1, i + 1, EndsNumber(s[i]));
        ApartAfter(a, i, Found(s, i + 1, i + 1, EndsNumber(s[i])));
      }
    }
  }

  /** What is found are the texts of the phone numbers: each of them, in order, once, and nothing
      else. */
  lemma {:induction false} NumbersAreExact(s: string)
    ensures Apart(Found(s, 0, 0, true)) && Inside(s, Found(s, 0, 0, true))
    ensures Numbers(s) == Texts(s, Found(s, 0, 0, true))
    ensures forall n :: n in Found(s, 0, 0, true) <==> IsNumber(s, n)
  {
    FoundInside(s, 0, 0, true);
    FoundInOrder(s, 0, 0, true);
    forall n ensures n in Found(s, 0, 0, true) <==> IsNumber(s, n) {
      FoundExactly(s, 0, 0, true, n);
    }
  }

  // ----- numbers joined by commas

  predicate AreNumbers(numbers: seq<string>)
  {
    forall i :: 0 <= i < |numbers| ==> numbers[i] != "" && forall k :: 0 <= k < |numbers[i]| ==> IsNumberChar(numbers[i][k])
  }

  /** The scan passes over number characters. */
  lemma {:induction false} PassesOver(s: string, i: nat, a: nat, to: nat)
    requires a <= i <= to <= |s| && forall k :: i <= k < to ==> IsNumberChar(s[k])
    ensures TextsFrom(s, i, a, true) == TextsFrom(s, to, a, true)
    decreases |s| - i
  {
    if i < to {
      TextsStep(s, i, a, true);
      PassesOver(s, i + 1, a, to);
    }
  }

  /** Numbers that are joined by commas are found again. */
  lemma {:induction false} JoinedNumbersAreFound(numbers: seq<string>)
    requires AreNumbers(numbers)
    ensures Numbers(Join(numbers, ',')) == numbers
  {
    var s := Join(numbers, ',');
    if |numbers| > 0 {
      assert s[0..] == s;
      FoundFromComma(s, 0, numbers);
    }
  }

  /** The first of several joined numbers, cut out of a text. */
  lemma {:induction false} FirstOfJoined(s: string, i: nat, first: string, rest: string)
    requires i <= |s| && s[i..] == first + [','] + rest
    ensures var to := i + |first|;
            to < |s| && s[to] == ',' && s[i..to] == first && s[to + 1..] == rest
    ensures forall k :: i <= k < i + |first| ==> s[k] == first[k - i]
  {
    var tail := s[i..];
    assert |tail| == |first| + 1 + |rest|;
    assert forall k :: 0 <= k < |tail| ==> tail[k] == s[i + k];
    assert forall k :: 0 <= k < |rest| ==> s[i + |first| + 1 + k] == rest[k];
  }

  lemma {:induction false} FoundFromComma(s: string, i: nat, numbers: seq<string>)
    requires |numbers| > 0 && AreNumbers(numbers)
    requires i <= |s| && s[i..] == Join(numbers, ',')
    ensures TextsFrom(s, i, i, true) == numbers
    decreases |numbers|
  {
    var first, to := numbers[0], i + |numbers[0]|;
    if |numbers| == 1 {
      LastNumber(s, i, first);
      assert numbers == [first];
    } else {
      FirstOfJoined(s, i, first, Join(numbers[1..], ','));
      hide TextsFrom, Join;
      PassesOver(s, i, i, to);
      TextsStep(s, to, i, true);
      FoundFromComma(s, to + 1, numbers[1..]);
      assert numbers == [first] + numbers[1..];
    }
  }

  lemma {:induction false} LastNumber(s: string, i: nat, number: string)
    requires i <= |s| && s[i..] == number && number != "" && forall k :: 0 <= k < |number| ==> IsNumberChar(number[k])
    ensures TextsFrom(s, i, i, true) == [number]
  {
    assert forall k :: i <= k < |s| ==> s[k] == number[k - i];
    PassesOver(s, i, i, |s|);
    TextsEnd(s, i, true);
  }
}

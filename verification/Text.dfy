/** String operations of the toolkit that the modelled code relies on. */
module Text {

  datatype Option<+T> = None | Some(value: T)

  /** Cuts `s` at every occurrence of `sep`, keeping empty parts. */
  function Split(s: string, sep: char): (parts: seq<string>)
    ensures |parts| >= 1
  {
    if s == "" then [""] else Prepend(s[0], sep, Split(s[1..], sep))
  }

  /** The parts of a text that starts with `c`, from the parts of its remainder. */
  function Prepend(c: char, sep: char, parts: seq<string>): (r: seq<string>)
    requires |parts| >= 1
    ensures |r| >= 1
  {
    if c == sep then [""] + parts else [[c] + parts[0]] + parts[1..]
  }

  function Join(parts: seq<string>, sep: char): string
  {
    if |parts| == 0 then ""
    else if |parts| == 1 then parts[0]
    else parts[0] + [sep] + Join(parts[1..], sep)
  }

  function Concat(parts: seq<string>): string
  {
    if |parts| == 0 then "" else parts[0] + Concat(parts[1..])
  }

  predicate StartsWith(s: string, prefix: string)
  {
    |prefix| <= |s| && s[..|prefix|] == prefix
  }

  predicate EndsWith(s: string, suffix: string)
  {
    |suffix| <= |s| && s == s[..|s| - |suffix|] + suffix
  }

  /** The part of `s` from position `n` on; nothing when `n` lies past the end. */
  function Mid(s: string, n: nat): string
  {
    if n <= |s| then s[n..] else ""
  }

  function Repeat(unit: string, n: nat): string
  {
    if n == 0 then "" else unit + Repeat(unit, n - 1)
  }

  lemma {:induction false} Shift(a: string, b: string, c: string)
    ensures a + (b + c) == (a + b) + c
  {}

  lemma {:induction false} RepeatLength(unit: string, k: nat)
    requires |unit| == 1
    ensures |Repeat(unit, k)| == k
  {
    if k > 0 {
      RepeatLength(unit, k - 1);
    }
  }

  lemma {:induction false} ConcatAppend(a: seq<string>, b: seq<string>)
    ensures Concat(a + b) == Concat(a) + Concat(b)
  {
    if a == [] {
      assert a + b == b;
    } else {
      ConcatAppend(a[1..], b);
      var whole := a + b;
      assert whole[0] == a[0] && whole[1..] == a[1..] + b;
      Shift(a[0], Concat(a[1..]), Concat(b));
    }
  }

  /** Cutting never leaves the separator inside a part. */
  lemma {:induction false} SplitPartsAreClean(s: string, sep: char)
    ensures forall i :: 0 <= i < |Split(s, sep)| ==> sep !in Split(s, sep)[i]
  {
    if s != "" {
      SplitPartsAreClean(s[1..], sep);
    }
  }

  lemma {:induction false} SplitClean(s: string, sep: char)
    requires sep !in s
    ensures Split(s, sep) == [s]
  {
    if s != "" {
      SplitClean(s[1..], sep);
      assert [s[0]] + s[1..] == s;
    }
  }

  lemma {:induction false} PrependAppend(c: char, sep: char, a: seq<string>, b: seq<string>)
    requires |a| >= 1
    ensures Prepend(c, sep, a + b) == Prepend(c, sep, a) + b
  {}

  /** A separator between two texts cuts them apart independently. */
  lemma {:induction false} SplitAtSeparator(a: string, b: string, sep: char)
    ensures Split(a + [sep] + b, sep) == Split(a, sep) + Split(b, sep)
  {
    var s := a + [sep] + b;
    if a == "" {
      assert s[1..] == b;
    } else {
      assert s[0] == a[0];
      var rest, more := Split(a[1..], sep), Split(b, sep);
      assert Split(s[1..], sep) == rest + more by {
        assert s[1..] == a[1..] + [sep] + b;
        SplitAtSeparator(a[1..], b, sep);
      }
      PrependAppend(a[0], sep, rest, more);
    }
  }

  lemma {:induction false} SplitJoin(parts: seq<string>, sep: char)
    requires |parts| >= 1
    requires forall i :: 0 <= i < |parts| ==> sep !in parts[i]
    ensures Split(Join(parts, sep), sep) == parts
  {
    SplitClean(parts[0], sep);
    if |parts| > 1 {
      SplitJoin(parts[1..], sep);
      SplitAtSeparator(parts[0], Join(parts[1..], sep), sep);
    }
  }

  /** The parts, joined again, are the text. */
  lemma {:induction false} JoinSplit(s: string, sep: char)
    ensures Join(Split(s, sep), sep) == s
  {
    hide Join;
    if s == "" {
      JoinStep("", [], sep);
      assert [""] + [] == Split("", sep);
    } else {
      var parts := Split(s[1..], sep);
      JoinSplit(s[1..], sep);
      JoinStep(parts[0], parts[1..], sep);
      assert parts == [parts[0]] + parts[1..];
      assert s == [s[0]] + s[1..];
      if s[0] == sep {
        JoinStep("", parts, sep);
        assert "" + ([sep] + s[1..]) == [sep] + s[1..];
      } else {
        JoinStep([s[0]] + parts[0], parts[1..], sep);
        Shift([s[0]], parts[0], [sep] + Join(parts[1..], sep));
      }
    }
  }

  lemma {:induction false} JoinStep(first: string, rest: seq<string>, sep: char)
    ensures Join([first] + rest, sep) == if rest == [] then first else first + ([sep] + Join(rest, sep))
  {
    var parts := [first] + rest;
    assert parts[1..] == rest && parts[0] == first;
    Shift(first, [sep], Join(rest, sep));
  }
}

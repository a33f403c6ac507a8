/** Finding URLs, mail addresses and file links in a text and making them links. */
module LinkTokeniser {
  import opened Text
  import opened Html
  import opened UrlTrimming

  /** A match of the URL pattern: the lengths of its captured parts, one behind the other,
      and whether the host consists of digits and full stops only. */
  datatype UrlMatch = UrlMatch(scheme: nat, credentials: nat, host: nat, rest: nat, numeric: bool)
  {
    function Length(): nat { scheme + credentials + host + rest }

    /** Numbers are no hosts, and credentials need a scheme. */
    predicate Ignored() { scheme == 0 && (numeric || credentials > 0) }
  }

  /** A match of the address pattern, and what the address class makes of it. */
  datatype AddressMatch = AddressMatch(length: nat, printed: string, address: string, linkable: bool)

  /** What the three patterns match at every position of a text; `files` holds lengths, with
      zero for no match. */
  datatype Matches = Matches(urls: seq<Option<UrlMatch>>, addresses: seq<Option<AddressMatch>>, files: seq<nat>)

  datatype Kind = Url | Address | File

  datatype Span = Span(at: nat, length: nat, kind: Kind)

  predicate Hit(m: Matches, kind: Kind, p: nat)
    requires p < |m.urls| == |m.addresses| == |m.files|
  {
    match kind
    case Url => m.urls[p].Some?
    case Address => m.addresses[p].Some?
    case File => m.files[p] > 0
  }

  function Length(m: Matches, kind: Kind, p: nat): nat
    requires p < |m.urls| == |m.addresses| == |m.files|
    requires Hit(m, kind, p)
  {
    match kind
    case Url => m.urls[p].value.Length()
    case Address => m.addresses[p].value.length
    case File => m.files[p]
  }

  /** What any matching gives: non-empty matches inside the text, URLs with a host. */
  predicate Fits(txt: string, m: Matches)
  {
    && |m.urls| == |m.addresses| == |m.files| == |txt|
    && (forall p: nat, kind :: p < |txt| && Hit(m, kind, p) ==> 0 < Length(m, kind, p) <= |txt| - p)
    && (forall p: nat :: p < |txt| && m.urls[p].Some? ==> HostBegins(txt, p, m.urls[p].value))
  }

  predicate HostBegins(txt: string, p: nat, u: UrlMatch)
  {
    && u.host > 0
    && p + u.Length() <= |txt|
    && !IsTrimmable(txt[p + u.scheme + u.credentials])
  }

  /** The first match of a pattern at or after `from`, or -1. */
  function IndexIn(m: Matches, kind: Kind, from: nat): (pos: int)
    requires from <= |m.urls| == |m.addresses| == |m.files|
    ensures pos == -1 || (from <= pos < |m.urls| && Hit(m, kind, pos))
    ensures forall q :: from <= q < (if pos == -1 then |m.urls| else pos) ==> !Hit(m, kind, q)
    decreases |m.urls| - from
  {
    if from == |m.urls| then -1
    else if Hit(m, kind, from) then from
    else IndexIn(m, kind, from + 1)
  }

  // ----- the simple tokeniser

  predicate Acceptable(m: Matches, kind: Kind, p: nat)
    requires p < |m.urls| == |m.addresses| == |m.files|
  {
    Hit(m, kind, p) && !(kind == Url && m.urls[p].value.Ignored())
  }

  /** The pattern to be used at a position. */
  function Best(m: Matches, p: nat): Option<Kind>
    requires p < |m.urls| == |m.addresses| == |m.files|
  {
    if Acceptable(m, Url, p) then Some(Url)
    else if Acceptable(m, Address, p) then Some(Address)
    else if Acceptable(m, File, p) then Some(File)
    else None
  }

  /** From left to right: take an acceptable match where there is one, else go on by one. */
  function Spans(txt: string, m: Matches, p: nat): seq<Span>
    requires Fits(txt, m) && p <= |txt|
    decreases |txt| - p
  {
    if p == |txt| then []
    else
      match Best(m, p)
      case None => Spans(txt, m, p + 1)
      case Some(kind) =>
        var length := Length(m, kind, p);
        [Span(p, length, kind)] + Spans(txt, m, p + length)
  }

  function RefUrl(url: string, scheme: string, leading: string, trailing: string): string
  {
    var escaped := Escape(url);
    var target := if scheme == "" then "http://" + escaped else escaped;
    Escape(leading) + Link(target, escaped) + Escape(trailing)
  }

  function RefMailTo(a: AddressMatch): string
  {
    var name := Escape(a.printed);
    if name == "System" || !a.linkable then name
    else Link("mailto:" + Escape(a.address), name)
  }

  function Replacement(txt: string, m: Matches, span: Span): string
    requires Fits(txt, m) && Belongs(txt, m, span)
  {
    var matched := txt[span.at..span.at + span.length];
    match span.kind
    case Url =>
      var t := Trimmed(matched);
      RefUrl(t.url, matched[..m.urls[span.at].value.scheme], t.leading, t.trailing)
    case Address => RefMailTo(m.addresses[span.at].value)
    case File => RefUrl(matched, "file://", "", "")
  }

  predicate Belongs(txt: string, m: Matches, span: Span)
    requires Fits(txt, m)
  {
    span.at < |txt| && Hit(m, span.kind, span.at) && span.length == Length(m, span.kind, span.at)
  }

  /** `spans` lie one behind the other, from position `p` on. */
  predicate InOrder(txt: string, m: Matches, spans: seq<Span>, p: nat)
    requires Fits(txt, m)
  {
    if |spans| == 0 then p <= |txt|
    else
      && p <= spans[0].at
      && Belongs(txt, m, spans[0])
      && InOrder(txt, m, spans[1..], spans[0].at + spans[0].length)
  }

  /** The text from `last` on, with the given spans replaced. */
  function Encoded(txt: string, m: Matches, spans: seq<Span>, last: nat): string
    requires Fits(txt, m) && InOrder(txt, m, spans, last)
  {
    if |spans| == 0 then Escape(txt[last..])
    else
      Escape(txt[last..spans[0].at]) + Replacement(txt, m, spans[0])
      + Encoded(txt, m, spans[1..], spans[0].at + spans[0].length)
  }

  lemma {:induction false} SpansInOrder(txt: string, m: Matches, last: nat, p: nat)
    requires Fits(txt, m) && last <= p <= |txt|
    ensures InOrder(txt, m, Spans(txt, m, p), last)
    decreases |txt| - p
  {
    if p < |txt| {
      match Best(m, p)
      case None => SpansInOrder(txt, m, last, p + 1);
      case Some(kind) =>
        var end := p + Length(m, kind, p);
        SpansInOrder(txt, m, end, end);
        assert Spans(txt, m, p)[1..] == Spans(txt, m, end);
    }
  }

  /** The text from `p` on with its links. */
  function Linked(txt: string, m: Matches, p: nat): string
    requires Fits(txt, m) && p <= |txt|
  {
    SpansInOrder(txt, m, p, p);
    Encoded(txt, m, Spans(txt, m, p), p)
  }

  // ----- the fast tokeniser

  predicate Nothing(m: Matches, from: nat, to: nat)
    requires to <= |m.urls| == |m.addresses| == |m.files|
  {
    forall q :: from <= q < to ==> Best(m, q).None?
  }

  predicate NoUrl(m: Matches, from: nat, to: nat)
    requires to <= |m.urls| == |m.addresses| == |m.files|
  {
    forall q :: from <= q < to ==> !Acceptable(m, Url, q)
  }

  lemma {:induction false} SkipTo(txt: string, m: Matches, from: nat, to: nat)
    requires Fits(txt, m) && from <= to <= |txt| && Nothing(m, from, to)
    ensures Spans(txt, m, from) == Spans(txt, m, to)
    decreases |txt| - from
  {
    if from < to {
      SkipTo(txt, m, from + 1, to);
    }
  }

  /** A search started later finds the same match, unless it starts behind that match. */
  lemma {:induction false} SearchAgain(m: Matches, kind: Kind, from: nat, to: nat)
    requires from <= to <= |m.urls| == |m.addresses| == |m.files|
    requires IndexIn(m, kind, from) == -1 || IndexIn(m, kind, from) >= to
    ensures IndexIn(m, kind, to) == IndexIn(m, kind, from)
    decreases |m.urls| - from
  {
    if from < to {
      SearchAgain(m, kind, from + 1, to);
    }
  }

  lemma {:induction false} EncodedCons(txt: string, m: Matches, span: Span, more: seq<Span>, last: nat)
    requires Fits(txt, m) && Belongs(txt, m, span) && last <= span.at
    requires InOrder(txt, m, more, span.at + span.length)
    ensures InOrder(txt, m, [span] + more, last)
    ensures Encoded(txt, m, [span] + more, last) == Escape(txt[last..span.at])
            + Replacement(txt, m, span) + Encoded(txt, m, more, span.at + span.length)
  {
    hide Escape, Replacement, Fits;
    var spans := [span] + more;
    assert spans[1..] == more && spans[0] == span;
  }

  lemma {:induction false} FitsAt(txt: string, m: Matches, p: nat, kind: Kind)
    requires Fits(txt, m) && p < |txt| && Best(m, p) == Some(kind)
    ensures Hit(m, kind, p) && 0 < Length(m, kind, p) <= |txt| - p
    ensures |m.urls| == |m.addresses| == |m.files| == |txt|
  {}

  lemma {:induction false} SpansSkip(txt: string, m: Matches, p: nat)
    requires Fits(txt, m) && p < |txt| && Best(m, p).None?
    ensures Spans(txt, m, p) == Spans(txt, m, p + 1)
  {}

  lemma {:induction false} SpansTake(txt: string, m: Matches, p: nat, kind: Kind)
    requires Fits(txt, m) && p < |txt| && Best(m, p) == Some(kind)
    ensures Spans(txt, m, p) == [Span(p, Length(m, kind, p), kind)] + Spans(txt, m, p + Length(m, kind, p))
    ensures Belongs(txt, m, Span(p, Length(m, kind, p), kind))
  {}

  lemma {:induction false} LinkedStep(txt: string, m: Matches, last: nat, p: nat, kind: Kind)
    requires Fits(txt, m) && last <= p < |txt|
    requires Nothing(m, last, p) && Best(m, p) == Some(kind)
    ensures p < p + Length(m, kind, p) <= |txt|
    ensures Linked(txt, m, last) == Escape(txt[last..p])
            + Replacement(txt, m, Span(p, Length(m, kind, p), kind))
            + Linked(txt, m, p + Length(m, kind, p))
  {
    hide Escape, Replacement, Fits, Best, Nothing, Hit, Length, Spans, InOrder, Encoded;
    FitsAt(txt, m, p, kind);
    SkipTo(txt, m, last, p);
    var end := p + Length(m, kind, p);
    SpansTake(txt, m, p, kind);
    SpansInOrder(txt, m, end, end);
    EncodedCons(txt, m, Span(p, Length(m, kind, p), kind), Spans(txt, m, end), last);
  }

  lemma {:induction false} LinkedEnd(txt: string, m: Matches, last: nat)
    requires Fits(txt, m) && last <= |txt| && Nothing(m, last, |txt|)
    ensures Linked(txt, m, last) == Escape(txt[last..])
    ensures last == |txt| ==> Linked(txt, m, last) == ""
  {
    SkipTo(txt, m, last, |txt|);
  }

  /** Every remembered position is what a fresh search would find; URL matches before
      `searched` have been rejected. */
  predicate Cached(m: Matches, last: nat, searched: nat, urlPos: int, addressPos: int, filePos: int)
    requires last <= searched <= |m.urls| == |m.addresses| == |m.files|
  {
    && urlPos == IndexIn(m, Url, searched)
    && addressPos == IndexIn(m, Address, last)
    && filePos == IndexIn(m, File, last)
    && NoUrl(m, last, searched)
  }

  /** Whether position `p` comes no later than the remembered positions `q` and `r`. */
  predicate First(p: int, q: int, r: int)
  {
    p != -1 && (q == -1 || q >= p) && (r == -1 || r >= p)
  }

  lemma {:induction false} FirstIsBest(m: Matches, last: nat, searched: nat, urlPos: int, addressPos: int, filePos: int)
    requires last <= searched <= |m.urls| == |m.addresses| == |m.files|
    requires Cached(m, last, searched, urlPos, addressPos, filePos)
    ensures First(urlPos, addressPos, filePos) && Acceptable(m, Url, urlPos) ==>
              Nothing(m, last, urlPos) && Best(m, urlPos) == Some(Url)
    ensures !First(urlPos, addressPos, filePos) && First(addressPos, urlPos, filePos) ==>
              Nothing(m, last, addressPos) && Best(m, addressPos) == Some(Address)
    ensures !First(urlPos, addressPos, filePos) && !First(addressPos, urlPos, filePos) && First(filePos, urlPos, addressPos) ==>
              Nothing(m, last, filePos) && Best(m, filePos) == Some(File)
    ensures urlPos == addressPos == filePos == -1 ==> Nothing(m, last, |m.urls|)
    ensures urlPos == addressPos == filePos == -1 ||
            First(urlPos, addressPos, filePos) || First(addressPos, urlPos, filePos) || First(filePos, urlPos, addressPos)
  {}

  /** Rejecting a URL match moves on its search only. */
  lemma {:induction false} Rejected(m: Matches, last: nat, searched: nat, urlPos: int, addressPos: int, filePos: int)
    requires last <= searched <= |m.urls| == |m.addresses| == |m.files|
    requires Cached(m, last, searched, urlPos, addressPos, filePos)
    requires urlPos != -1 && !Acceptable(m, Url, urlPos)
    ensures Cached(m, last, urlPos + 1, IndexIn(m, Url, urlPos + 1), addressPos, filePos)
  {}

  function Refresh(m: Matches, kind: Kind, pos: int, last: nat): int
    requires last <= |m.urls| == |m.addresses| == |m.files|
  {
    if pos != -1 && pos < last then IndexIn(m, kind, last) else pos
  }

  /** Searching anew only where a position was passed keeps all of them fresh. */
  lemma {:induction false} Refreshed(m: Matches, last: nat, searched: nat, urlPos: int, addressPos: int, filePos: int, end: nat)
    requires last <= searched <= |m.urls| == |m.addresses| == |m.files|
    requires Cached(m, last, searched, urlPos, addressPos, filePos)
    requires last <= end <= |m.urls|
    ensures Cached(m, end, if searched > end then searched else end,
                   Refresh(m, Url, urlPos, end), Refresh(m, Address, addressPos, end), Refresh(m, File, filePos, end))
  {
    if urlPos == -1 || urlPos >= end {
      SearchAgain(m, Url, searched, if searched > end then searched else end);
    }
    if addressPos == -1 || addressPos >= end {
      SearchAgain(m, Address, last, end);
    }
    if filePos == -1 || filePos >= end {
      SearchAgain(m, File, last, end);
    }
  }

  /** Chooses the pattern whose remembered position comes first. */
  method FirstMatch(urlPos: int, addressPos: int, filePos: int) returns (kind: Kind, matchPos: nat)
    requires urlPos >= -1 && addressPos >= -1 && filePos >= -1
    requires urlPos != -1 || addressPos != -1 || filePos != -1
    ensures match kind
            case Url => matchPos == urlPos && First(urlPos, addressPos, filePos)
            case Address => matchPos == addressPos && First(addressPos, urlPos, filePos) && !First(urlPos, addressPos, filePos)
            case File => matchPos == filePos && First(filePos, urlPos, addressPos) && !First(urlPos, addressPos, filePos)
                         && !First(addressPos, urlPos, filePos)
  {
    if First(urlPos, addressPos, filePos) {
      kind, matchPos := Url, urlPos;
    } else if First(addressPos, urlPos, filePos) {
      kind, matchPos := Address, addressPos;
    } else if First(filePos, urlPos, addressPos) {
      kind, matchPos := File, filePos;
    } else {
      assert false;
    }
  }

  /** Search on behind a match that was replaced, and in front of `lastPos` for no pattern. */
  method SearchOn(m: Matches, kind: Kind, urlPos0: int, addressPos0: int, filePos0: int, lastPos: nat)
    returns (urlPos: int, addressPos: int, filePos: int)
    requires lastPos <= |m.urls| == |m.addresses| == |m.files|
    requires var p := match kind case Url => urlPos0 case Address => addressPos0 case File => filePos0;
             p != -1 && p < lastPos
    ensures urlPos == Refresh(m, Url, urlPos0, lastPos)
    ensures addressPos == Refresh(m, Address, addressPos0, lastPos)
    ensures filePos == Refresh(m, File, filePos0, lastPos)
  {
    urlPos, addressPos, filePos := urlPos0, addressPos0, filePos0;
    match kind {
      case Url => urlPos := IndexIn(m, Url, lastPos);
      case Address => addressPos := IndexIn(m, Address, lastPos);
      case File => filePos := IndexIn(m, File, lastPos);
    }
    if urlPos != -1 && urlPos < lastPos {
      urlPos := IndexIn(m, Url, lastPos);
    }
    if addressPos != -1 && addressPos < lastPos {
      addressPos := IndexIn(m, Address, lastPos);
    }
    if filePos != -1 && filePos < lastPos {
      filePos := IndexIn(m, File, lastPos);
    }
  }

  /** The original keeps the next match of each pattern and searches for it anew only when the
      text in front of it has been used up. */
  method EncodeUrlAndMail(txt: string, m: Matches) returns (html: string)
    requires Fits(txt, m)
    ensures html == Linked(txt, m, 0)
  {
    hide Fits, IndexIn, Refresh, Concat, Acceptable, Best, Nothing, NoUrl, Linked, Escape, Replacement;
    SameLengths(txt, m);
    var result: seq<string> := [];
    var urlPos := IndexIn(m, Url, 0);
    var addressPos := IndexIn(m, Address, 0);
    var filePos := IndexIn(m, File, 0);
    var lastPos := 0;
    ghost var searched := 0;
    NothingSearched(m);
    ghost var spec := Linked(txt, m, 0);
    WrittenNone(spec);
    while urlPos != -1 || addressPos != -1 || filePos != -1
      invariant lastPos <= searched <= |txt|
      invariant Cached(m, lastPos, searched, urlPos, addressPos, filePos)
      invariant Concat(result) + Linked(txt, m, lastPos) == spec
      decreases |txt| - lastPos, if urlPos == -1 then 0 else |txt| - urlPos
    {
      FirstIsBest(m, lastPos, searched, urlPos, addressPos, filePos);
      var kind, matchPos := FirstMatch(urlPos, addressPos, filePos);
      if kind == Url && m.urls[matchPos].value.Ignored() {
        IgnoredIsRejected(m, urlPos);
        Rejected(m, lastPos, searched, urlPos, addressPos, filePos);
        searched := urlPos + 1;
        urlPos := IndexIn(m, Url, urlPos + 1);
        continue;
      }
      if kind == Url {
        IgnoredIsRejected(m, matchPos);
      }
      var replacement := Replace(txt, m, kind, matchPos);
      var text := Escape(txt[lastPos..matchPos]);
      LinkedStep(txt, m, lastPos, matchPos, kind);
      var end := matchPos + Length(m, kind, matchPos);
      Written(result, text, replacement, Linked(txt, m, end));
      result := result + [text];
      result := result + [replacement];
      Refreshed(m, lastPos, searched, urlPos, addressPos, filePos, end);
      lastPos := end;
      urlPos, addressPos, filePos := SearchOn(m, kind, urlPos, addressPos, filePos, lastPos);
      searched := if searched > end then searched else end;
    }
    FirstIsBest(m, lastPos, searched, urlPos, addressPos, filePos);
    LinkedEnd(txt, m, lastPos);
    ghost var done := Concat(result);
    if lastPos < |txt| {
      WrittenLast(result, Escape(txt[lastPos..]));
      result := result + [Escape(txt[lastPos..])];
    } else {
      assert done + "" == done;
    }
    html := Concat(result);
  }

  lemma {:induction false} SameLengths(txt: string, m: Matches)
    requires Fits(txt, m)
    ensures |m.urls| == |m.addresses| == |m.files| == |txt|
  {}

  lemma {:induction false} NothingSearched(m: Matches)
    requires |m.urls| == |m.addresses| == |m.files|
    ensures NoUrl(m, 0, 0)
  {}

  lemma {:induction false} IgnoredIsRejected(m: Matches, p: nat)
    requires p < |m.urls| == |m.addresses| == |m.files| && Hit(m, Url, p)
    ensures Acceptable(m, Url, p) <==> !m.urls[p].value.Ignored()
  {}

  lemma {:induction false} WrittenNone(rest: string)
    ensures Concat([]) + rest == rest
  {}

  lemma {:induction false} WrittenLast(result: seq<string>, a: string)
    ensures Concat(result + [a]) == Concat(result) + a
  {
    ConcatAppend(result, [a]);
    assert [a][1..] == [] && Concat([a]) == a + "" == a;
  }

  lemma {:induction false} Written(result: seq<string>, a: string, b: string, rest: string)
    ensures Concat(result + [a] + [b]) + rest == Concat(result) + (a + b + rest)
  {
    ConcatAppend(result, [a]);
    ConcatAppend(result + [a], [b]);
    Shift(Concat(result), a, b);
    Shift(Concat(result), a + b, rest);
  }

  /** What a match becomes. */
  method Replace(txt: string, m: Matches, kind: Kind, matchPos: nat) returns (replacement: string)
    requires Fits(txt, m) && matchPos < |txt| && Hit(m, kind, matchPos)
    ensures replacement == Replacement(txt, m, Span(matchPos, Length(m, kind, matchPos), kind))
  {
    hide RefUrl, RefMailTo, Trimmed, HasHost, Fits;
    HitFits(txt, m, matchPos, kind);
    var cap := txt[matchPos..matchPos + Length(m, kind, matchPos)];
    if kind == Url {
      HostInMatch(txt, m, matchPos);
      var leading, url, trailing := Trim(cap);
      replacement := RefUrl(url, cap[..m.urls[matchPos].value.scheme], leading, trailing);
    } else if kind == Address {
      replacement := RefMailTo(m.addresses[matchPos].value);
    } else {
      replacement := RefUrl(cap, "file://", "", "");
    }
  }

  lemma {:induction false} HitFits(txt: string, m: Matches, p: nat, kind: Kind)
    requires Fits(txt, m) && p < |txt| && Hit(m, kind, p)
    ensures |m.urls| == |m.addresses| == |m.files| == |txt|
    ensures 0 < Length(m, kind, p) <= |txt| - p
    ensures Belongs(txt, m, Span(p, Length(m, kind, p), kind))
  {}

  lemma {:induction false} HostInMatch(txt: string, m: Matches, p: nat)
    requires Fits(txt, m) && p < |txt| && m.urls[p].Some?
    ensures HasHost(txt[p..p + Length(m, Url, p)])
  {
    var u := m.urls[p].value;
    assert HostBegins(txt, p, u);
    assert txt[p..p + u.Length()][u.scheme + u.credentials] == txt[p + u.scheme + u.credentials];
  }

  // ----- what a reader sees

  function Matched(txt: string, m: Matches, span: Span): string
    requires Fits(txt, m) && Belongs(txt, m, span)
  {
    txt[span.at..span.at + span.length]
  }

  /** The text shown in place of a match. */
  function Shown(txt: string, m: Matches, span: Span): string
    requires Fits(txt, m) && Belongs(txt, m, span)
  {
    match span.kind
    case Url => Whole(Trimmed(Matched(txt, m, span)))
    case Address => m.addresses[span.at].value.printed
    case File => Matched(txt, m, span)
  }

  /** Every address is printed as it was found. */
  predicate PrintsAsMatched(txt: string, m: Matches)
    requires Fits(txt, m)
  {
    forall p: nat :: p < |txt| && m.addresses[p].Some? ==>
      m.addresses[p].value.printed == txt[p..p + Length(m, Address, p)]
  }

  predicate KeepsEnds(txt: string, m: Matches, spans: seq<Span>, last: nat)
    requires Fits(txt, m) && InOrder(txt, m, spans, last)
  {
    |spans| == 0 || (
      && (spans[0].kind == Url ==> !LosesEnd(Matched(txt, m, spans[0])))
      && KeepsEnds(txt, m, spans[1..], spans[0].at + spans[0].length))
  }

  function AllShown(txt: string, m: Matches, spans: seq<Span>, last: nat): string
    requires Fits(txt, m) && InOrder(txt, m, spans, last)
  {
    if |spans| == 0 then txt[last..]
    else
      txt[last..spans[0].at] + (Shown(txt, m, spans[0])
      + AllShown(txt, m, spans[1..], spans[0].at + spans[0].length))
  }

  lemma {:induction false} VisibleUrl(url: string, scheme: string, leading: string, trailing: string, rest: string)
    ensures Visible(RefUrl(url, scheme, leading, trailing) + rest) == leading + url + trailing + Visible(rest)
  {
    hide Escape, Visible, Link;
    var escaped := Escape(url);
    var target := if scheme == "" then "http://" + escaped else escaped;
    EscapeHidesTags(url);
    var behind := Escape(trailing) + rest;
    var link := Link(target, escaped);
    Shift(Escape(leading) + link, Escape(trailing), rest);
    Shift(Escape(leading), link, behind);
    VisibleEscape(leading, link + behind);
    VisibleLink(target, url, behind);
    VisibleEscape(trailing, rest);
    Shift(leading, url, trailing + Visible(rest));
    Shift(leading + url, trailing, Visible(rest));
  }

  /** The attribute of the first link in `html`. */
  function Target(html: string): string
  {
    Before(Behind(html, '\"'), '\"')
  }

  lemma {:induction false} LinkParts(lead: string, target: string, text: string, trail: string)
    ensures lead + Link(target, text) + trail ==
            (lead + "<a href=") + (['\"'] + (target + (['\"'] + (">" + text + "</a>" + trail))))
  {
    var open, close := "<a href=\"", "\">";
    assert open == "<a href=" + ['\"'] && close == ['\"'] + ">";
    assert Link(target, text) == open + (target + (close + (text + "</a>")));
  }

  /** The link leads to the URL, over HTTP unless a scheme is given. */
  lemma {:induction false} TargetOfUrl(url: string, scheme: string, leading: string, trailing: string)
    ensures Target(RefUrl(url, scheme, leading, trailing)) == (if scheme == "" then "http://" else "") + Escape(url)
    ensures Visible(Target(RefUrl(url, scheme, leading, trailing))) == (if scheme == "" then "http://" else "") + url
  {
    hide Escape, Visible, Link, Before, Behind;
    var escaped := Escape(url);
    var target := if scheme == "" then "http://" + escaped else escaped;
    EscapeHidesTags(leading);
    EscapeHidesTags(url);
    LinkParts(Escape(leading), target, escaped, Escape(trailing));
    var front, behind := Escape(leading) + "<a href=", ">" + escaped + "</a>" + Escape(trailing);
    Cut(front, '\"', target + (['\"'] + behind));
    Cut(target, '\"', behind);
    VisibleEscapeAll(url);
    if scheme == "" {
      EscapePlain("http://");
      VisibleEscape("http://", escaped);
    } else {
      assert "" + escaped == escaped && "" + url == url;
    }
  }

  lemma {:induction false} EscapePlain(s: string)
    requires forall i :: 0 <= i < |s| ==> EscapeChar(s[i]) == [s[i]]
    ensures Escape(s) == s
  {
    if s != "" {
      EscapePlain(s[1..]);
      assert s == [s[0]] + s[1..];
    }
  }

  lemma {:induction false} VisibleAddress(a: AddressMatch, rest: string)
    ensures Visible(RefMailTo(a) + rest) == a.printed + Visible(rest)
  {
    if Escape(a.printed) == "System" || !a.linkable {
      VisibleEscape(a.printed, rest);
    } else {
      hide Escape, Visible, Link;
      EscapeHidesTags(a.address);
      VisibleLink("mailto:" + Escape(a.address), a.printed, rest);
    }
  }

  lemma {:induction false} VisibleReplacement(txt: string, m: Matches, span: Span, rest: string)
    requires Fits(txt, m) && Belongs(txt, m, span)
    ensures Visible(Replacement(txt, m, span) + rest) == Shown(txt, m, span) + Visible(rest)
  {
    hide RefUrl, RefMailTo, Visible;
    var matched := txt[span.at..span.at + span.length];
    match span.kind {
      case Url =>
        var t := Trimmed(matched);
        VisibleUrl(t.url, matched[..m.urls[span.at].value.scheme], t.leading, t.trailing, rest);
      case Address =>
        VisibleAddress(m.addresses[span.at].value, rest);
      case File =>
        VisibleUrl(matched, "file://", "", "", rest);
        assert "" + matched + "" == matched;
    }
  }

  lemma {:induction false} VisibleEncoded(txt: string, m: Matches, spans: seq<Span>, last: nat, rest: string)
    requires Fits(txt, m) && InOrder(txt, m, spans, last)
    ensures Visible(Encoded(txt, m, spans, last) + rest) == AllShown(txt, m, spans, last) + Visible(rest)
  {
    hide Escape, Visible, Replacement, Shown;
    if |spans| == 0 {
      VisibleEscape(txt[last..], rest);
    } else {
      var span, end := spans[0], spans[0].at + spans[0].length;
      var front, here, behind := txt[last..span.at], Replacement(txt, m, span), Encoded(txt, m, spans[1..], end);
      Shift(Escape(front) + here, behind, rest);
      Shift(Escape(front), here, behind + rest);
      VisibleEscape(front, here + (behind + rest));
      VisibleReplacement(txt, m, span, behind + rest);
      VisibleEncoded(txt, m, spans[1..], end, rest);
      Shift(Shown(txt, m, span), AllShown(txt, m, spans[1..], end), Visible(rest));
      Shift(front, Shown(txt, m, span) + AllShown(txt, m, spans[1..], end), Visible(rest));
    }
  }

  lemma {:induction false} VisibleEscapeAll(s: string)
    ensures Visible(Escape(s)) == s
  {
    VisibleEscape(s, "");
    assert Escape(s) + "" == Escape(s);
    assert s + "" == s;
  }

  lemma {:induction false} ShownFits(txt: string, m: Matches, span: Span)
    requires Fits(txt, m) && Belongs(txt, m, span) && PrintsAsMatched(txt, m)
    ensures |Shown(txt, m, span)| <= span.length == |Matched(txt, m, span)|
    ensures Shown(txt, m, span) == Matched(txt, m, span) <==>
            (span.kind == Url ==> !LosesEnd(Matched(txt, m, span)))
  {
    TrimmingKeepsText(Matched(txt, m, span));
  }

  lemma {:induction false} ShownStep(txt: string, m: Matches, spans: seq<Span>, last: nat)
    requires Fits(txt, m) && InOrder(txt, m, spans, last) && |spans| > 0
    ensures last <= spans[0].at <= spans[0].at + spans[0].length <= |txt|
    ensures Belongs(txt, m, spans[0]) && InOrder(txt, m, spans[1..], spans[0].at + spans[0].length)
    ensures AllShown(txt, m, spans, last) == txt[last..spans[0].at] +
              (Shown(txt, m, spans[0]) + AllShown(txt, m, spans[1..], spans[0].at + spans[0].length))
    ensures KeepsEnds(txt, m, spans, last) <==>
              (spans[0].kind == Url ==> !LosesEnd(Matched(txt, m, spans[0]))) &&
              KeepsEnds(txt, m, spans[1..], spans[0].at + spans[0].length)
  {
    hide Shown, LosesEnd;
  }

  lemma {:induction false} ShownAfter(txt: string, m: Matches, spans: seq<Span>, last: nat)
    requires Fits(txt, m) && InOrder(txt, m, spans, last) && |spans| > 0 && PrintsAsMatched(txt, m)
    requires var behind := AllShown(txt, m, spans[1..], spans[0].at + spans[0].length);
             && |behind| <= |txt| - (spans[0].at + spans[0].length)
             && (behind == txt[spans[0].at + spans[0].length..] <==>
                 KeepsEnds(txt, m, spans[1..], spans[0].at + spans[0].length))
    ensures |AllShown(txt, m, spans, last)| <= |txt| - last
    ensures AllShown(txt, m, spans, last) == txt[last..] <==> KeepsEnds(txt, m, spans, last)
  {
    hide PrintsAsMatched, Shown, LosesEnd, AllShown, KeepsEnds;
    ShownStep(txt, m, spans, last);
    var span, end := spans[0], spans[0].at + spans[0].length;
    ShownFits(txt, m, span);
    SamePieces(txt, last, span.at, end, Shown(txt, m, span), AllShown(txt, m, spans[1..], end));
  }

  lemma {:induction false} AllShownFits(txt: string, m: Matches, spans: seq<Span>, last: nat)
    requires Fits(txt, m) && InOrder(txt, m, spans, last) && PrintsAsMatched(txt, m)
    ensures |AllShown(txt, m, spans, last)| <= |txt| - last
    ensures AllShown(txt, m, spans, last) == txt[last..] <==> KeepsEnds(txt, m, spans, last)
  {
    hide Fits, InOrder, AllShown, KeepsEnds, PrintsAsMatched;
    if |spans| > 0 {
      ShownStep(txt, m, spans, last);
      AllShownFits(txt, m, spans[1..], spans[0].at + spans[0].length);
      ShownAfter(txt, m, spans, last);
    } else {
      NoneShown(txt, m, spans, last);
    }
  }

  lemma {:induction false} NoneShown(txt: string, m: Matches, spans: seq<Span>, last: nat)
    requires Fits(txt, m) && InOrder(txt, m, spans, last) && |spans| == 0
    ensures last <= |txt| && AllShown(txt, m, spans, last) == txt[last..] && KeepsEnds(txt, m, spans, last)
  {}

  lemma {:induction false} SamePieces(txt: string, a: nat, b: nat, c: nat, here: string, behind: string)
    requires a <= b <= c <= |txt| && |here| <= c - b && |behind| <= |txt| - c
    ensures txt[a..b] + (here + behind) == txt[a..] <==> here == txt[b..c] && behind == txt[c..]
  {
    var s := txt[a..b] + (here + behind);
    if s == txt[a..] {
      assert |here| == c - b && |behind| == |txt| - c;
      assert here == s[b - a..c - a] && behind == s[c - a..];
    }
  }

  /** Making links changes what a reader sees, of the text or of anything behind it, in no other
      way than by losing the end of a URL. */
  lemma {:induction false} VisibleTextPreserved(txt: string, m: Matches, rest: string)
    requires Fits(txt, m) && PrintsAsMatched(txt, m)
    ensures InOrder(txt, m, Spans(txt, m, 0), 0)
    ensures Visible(Linked(txt, m, 0) + rest) == txt + Visible(rest) <==> KeepsEnds(txt, m, Spans(txt, m, 0), 0)
  {
    SpansInOrder(txt, m, 0, 0);
    var shown := AllShown(txt, m, Spans(txt, m, 0), 0);
    VisibleEncoded(txt, m, Spans(txt, m, 0), 0, rest);
    AllShownFits(txt, m, Spans(txt, m, 0), 0);
    assert txt[0..] == txt;
    SameEnd(shown, txt, Visible(rest));
  }

  /** Addresses print as they were found, and no URL loses its end. */
  predicate Harmless(txt: string, m: Matches)
  {
    && Fits(txt, m)
    && PrintsAsMatched(txt, m)
    && (SpansInOrder(txt, m, 0, 0); KeepsEnds(txt, m, Spans(txt, m, 0), 0))
  }

  lemma {:induction false} SameEnd(a: string, b: string, c: string)
    ensures a + c == b + c <==> a == b
  {
    if a + c == b + c {
      assert |a| == |b|;
      assert (a + c)[..|a|] == a && (b + c)[..|a|] == b;
    }
  }

  // ----- where the links lead

  /** Where the link made of a match leads, if there is one. */
  function SpanTarget(txt: string, m: Matches, span: Span): seq<string>
    requires Fits(txt, m) && Belongs(txt, m, span)
  {
    match span.kind
    case Url =>
      [(if m.urls[span.at].value.scheme == 0 then "http://" else "") + Escape(Trimmed(Matched(txt, m, span)).url)]
    case File => [Escape(Matched(txt, m, span))]
    case Address =>
      var a := m.addresses[span.at].value;
      if a.linkable && a.printed != "System" then ["mailto:" + Escape(a.address)] else []
  }

  function SpanTargets(txt: string, m: Matches, spans: seq<Span>, last: nat): seq<string>
    requires Fits(txt, m) && InOrder(txt, m, spans, last)
  {
    if |spans| == 0 then []
    else SpanTarget(txt, m, spans[0]) + SpanTargets(txt, m, spans[1..], spans[0].at + spans[0].length)
  }

  lemma {:induction false} TargetsOfUrl(url: string, scheme: string, leading: string, trailing: string, rest: string)
    ensures Targets(RefUrl(url, scheme, leading, trailing) + rest) ==
            [(if scheme == "" then "http://" else "") + Escape(url)] + Targets(rest)
  {
    hide Escape, Link, Targets;
    var escaped := Escape(url);
    var target := if scheme == "" then "http://" + escaped else escaped;
    EscapeHidesTags(leading);
    EscapeHidesTags(url);
    EscapeHidesTags(trailing);
    var link, behind := Link(target, escaped), Escape(trailing) + rest;
    Shift(Escape(leading) + link, Escape(trailing), rest);
    Shift(Escape(leading), link, behind);
    TargetsOfText(Escape(leading), link + behind);
    TargetsOfLink(target, escaped, behind);
    TargetsOfText(Escape(trailing), rest);
    assert "" + escaped == escaped;
  }

  lemma {:induction false} TargetsOfAddress(a: AddressMatch, rest: string)
    ensures Targets(RefMailTo(a) + rest) ==
            (if a.linkable && a.printed != "System" then ["mailto:" + Escape(a.address)] else []) + Targets(rest)
  {
    hide Escape, Link, Targets;
    EscapeHidesTags(a.printed);
    EscapeHidesTags(a.address);
    SystemIsPlain(a.printed);
    assert [] + Targets(rest) == Targets(rest);
    if Escape(a.printed) == "System" || !a.linkable {
      TargetsOfText(Escape(a.printed), rest);
    } else {
      TargetsOfLink("mailto:" + Escape(a.address), Escape(a.printed), rest);
    }
  }

  lemma {:induction false} SystemIsPlain(name: string)
    ensures Escape(name) == "System" <==> name == "System"
  {
    hide Escape;
    var plain := "System";
    PlainSystem();
    if Escape(name) == plain {
      EscapedAlike(name, plain);
    }
  }

  lemma {:induction false} PlainSystem()
    ensures Escape("System") == "System"
  {
    var s := "System";
    assert forall i :: 0 <= i < |s| ==> EscapeChar(s[i]) == [s[i]];
    hide Escape;
    EscapePlain(s);
  }

  lemma {:induction false} EscapedAlike(a: string, b: string)
    requires Escape(a) == Escape(b)
    ensures a == b
  {
    hide Escape;
    VisibleEscapeAll(a);
    VisibleEscapeAll(b);
  }

  lemma {:induction false} TargetsOfSpan(txt: string, m: Matches, span: Span, rest: string)
    requires Fits(txt, m) && Belongs(txt, m, span)
    ensures Targets(Replacement(txt, m, span) + rest) == SpanTarget(txt, m, span) + Targets(rest)
  {
    hide RefUrl, RefMailTo, Targets, Trimmed, Escape, Fits;
    HitFits(txt, m, span.at, span.kind);
    var matched := Matched(txt, m, span);
    match span.kind {
      case Url =>
        var t, scheme := Trimmed(matched), m.urls[span.at].value.scheme;
        assert |matched[..scheme]| == scheme;
        TargetsOfUrl(t.url, matched[..scheme], t.leading, t.trailing, rest);
      case Address => TargetsOfAddress(m.addresses[span.at].value, rest);
      case File =>
        TargetsOfUrl(matched, "file://", "", "", rest);
        assert "" + Escape(matched) == Escape(matched);
    }
  }

  lemma {:induction false} TargetsEncoded(txt: string, m: Matches, spans: seq<Span>, last: nat, rest: string)
    requires Fits(txt, m) && InOrder(txt, m, spans, last)
    ensures Targets(Encoded(txt, m, spans, last) + rest) == SpanTargets(txt, m, spans, last) + Targets(rest)
  {
    hide Escape, Targets, Replacement, SpanTarget, Fits;
    if |spans| == 0 {
      EscapeHidesTags(txt[last..]);
      TargetsOfText(Escape(txt[last..]), rest);
      assert [] + Targets(rest) == Targets(rest);
    } else {
      var span, end := spans[0], spans[0].at + spans[0].length;
      var front, here, behind := Escape(txt[last..span.at]), Replacement(txt, m, span), Encoded(txt, m, spans[1..], end);
      EscapeHidesTags(txt[last..span.at]);
      Shift(front + here, behind, rest);
      Shift(front, here, behind + rest);
      TargetsOfText(front, here + (behind + rest));
      TargetsOfSpan(txt, m, span, behind + rest);
      TargetsEncoded(txt, m, spans[1..], end, rest);
      ListShift(SpanTarget(txt, m, span), SpanTargets(txt, m, spans[1..], end), Targets(rest));
    }
  }

  lemma {:induction false} ListShift(a: seq<string>, b: seq<string>, c: seq<string>)
    ensures a + (b + c) == (a + b) + c
  {}

  /** The links of the html lead where the spans that were taken lead, in order: a URL without a
      scheme over HTTP, another one and a file to itself, an address to its mailbox if it has one. */
  lemma {:induction false} LinksLeadToSpans(txt: string, m: Matches)
    requires Fits(txt, m)
    ensures InOrder(txt, m, Spans(txt, m, 0), 0)
    ensures Targets(Linked(txt, m, 0)) == SpanTargets(txt, m, Spans(txt, m, 0), 0)
  {
    hide Targets, Encoded, SpanTargets;
    SpansInOrder(txt, m, 0, 0);
    var html, targets := Encoded(txt, m, Spans(txt, m, 0), 0), SpanTargets(txt, m, Spans(txt, m, 0), 0);
    TargetsEncoded(txt, m, Spans(txt, m, 0), 0, "");
    NoTargets();
    assert html + "" == html && targets + [] == targets;
  }

  lemma {:induction false} NoTargets()
    ensures Targets("") == []
  {}

  // ----- the simple tokeniser takes the leftmost matches

  /** From `p` on, `spans` are all leftmost: before each of them and behind the last one there is
      no match to be taken, and each is the one to be taken where it begins. */
  predicate Leftmost(txt: string, m: Matches, spans: seq<Span>, p: nat)
    requires Fits(txt, m) && p <= |txt|
  {
    if |spans| == 0 then Nothing(m, p, |txt|)
    else
      && p <= spans[0].at
      && Belongs(txt, m, spans[0])
      && Nothing(m, p, spans[0].at)
      && Best(m, spans[0].at) == Some(spans[0].kind)
      && Leftmost(txt, m, spans[1..], spans[0].at + spans[0].length)
  }

  /** Where nothing is to be taken, leftmost spans begin further on. */
  lemma {:induction false} LeftmostSkip(txt: string, m: Matches, spans: seq<Span>, p: nat)
    requires Fits(txt, m) && p < |txt| && Best(m, p).None?
    ensures Leftmost(txt, m, spans, p) <==> Leftmost(txt, m, spans, p + 1)
  {
    SameLengths(txt, m);
    hide Fits, Hit, Best, Nothing;
    NothingFrom(m, p, |txt|);
    if |spans| > 0 && p <= spans[0].at < |txt| {
      NothingFrom(m, p, spans[0].at);
    }
  }

  /** Where something is to be taken, they begin with that. */
  lemma {:induction false} LeftmostTake(txt: string, m: Matches, spans: seq<Span>, p: nat, kind: Kind)
    requires Fits(txt, m) && p < |txt| && Best(m, p) == Some(kind)
    ensures p + Length(m, kind, p) <= |txt|
    ensures Leftmost(txt, m, spans, p) <==>
            |spans| > 0 && spans[0] == Span(p, Length(m, kind, p), kind)
            && Leftmost(txt, m, spans[1..], p + Length(m, kind, p))
  {
    FitsAt(txt, m, p, kind);
    hide Fits, Best, Nothing;
    NothingFrom(m, p, |txt|);
    NothingFrom(m, p, p);
    if |spans| > 0 && p <= spans[0].at < |txt| {
      NothingFrom(m, p, spans[0].at);
    }
  }

  /** The simple tokeniser finds leftmost spans, and there is only one such list. */
  lemma {:induction false} SpansAreLeftmost(txt: string, m: Matches, spans: seq<Span>, p: nat)
    requires Fits(txt, m) && p <= |txt|
    ensures Leftmost(txt, m, spans, p) <==> spans == Spans(txt, m, p)
    decreases |txt| - p
  {
    hide Fits, Hit, Leftmost, Length, Best, Spans;
    SameLengths(txt, m);
    if p == |txt| {
      SpansAtEnd(txt, m, spans);
    } else {
      match Best(m, p)
      case None =>
        LeftmostSkip(txt, m, spans, p);
        SpansSkip(txt, m, p);
        SpansAreLeftmost(txt, m, spans, p + 1);
      case Some(kind) =>
        LeftmostTake(txt, m, spans, p, kind);
        FitsAt(txt, m, p, kind);
        SpansTake(txt, m, p, kind);
        var end := p + Length(m, kind, p);
        if |spans| > 0 {
          SpansAreLeftmost(txt, m, spans[1..], end);
          ConsIs(spans, Span(p, Length(m, kind, p), kind), Spans(txt, m, end));
        }
    }
  }

  lemma {:induction false} SpansAtEnd(txt: string, m: Matches, spans: seq<Span>)
    requires Fits(txt, m)
    ensures Leftmost(txt, m, spans, |txt|) <==> spans == Spans(txt, m, |txt|)
  {}

  lemma {:induction false} ConsIs(spans: seq<Span>, first: Span, rest: seq<Span>)
    requires |spans| > 0
    ensures spans == [first] + rest <==> spans[0] == first && spans[1..] == rest
  {
    assert spans == [spans[0]] + spans[1..];
  }

  /** What can be made a link at position `p`: a URL match, but no numbers and no credentials without
      a scheme; an address; a file. */
  predicate LinkableAt(m: Matches, kind: Kind, p: nat)
    requires p < |m.urls| == |m.addresses| == |m.files|
  {
    match kind
    case Url =>
      && m.urls[p].Some?
      && (m.urls[p].value.scheme > 0 || (!m.urls[p].value.numeric && m.urls[p].value.credentials == 0))
    case Address => m.addresses[p].Some?
    case File => m.files[p] > 0
  }

  /** A span is taken for a URL before an address and for an address before a file. */
  predicate TakenFirst(m: Matches, kind: Kind, p: nat)
    requires p < |m.urls| == |m.addresses| == |m.files|
  {
    match kind
    case Url => LinkableAt(m, Url, p)
    case Address => LinkableAt(m, Address, p) && !LinkableAt(m, Url, p)
    case File => LinkableAt(m, File, p) && !LinkableAt(m, Url, p) && !LinkableAt(m, Address, p)
  }

  lemma {:induction false} BestExactly(m: Matches, p: nat, kind: Kind)
    requires p < |m.urls| == |m.addresses| == |m.files|
    ensures Best(m, p) == Some(kind) <==> TakenFirst(m, kind, p)
    ensures Best(m, p).None? <==> !LinkableAt(m, Url, p) && !LinkableAt(m, Address, p) && !LinkableAt(m, File, p)
  {}

  /** Wherever something could be made a link, the tokeniser is inside a span or begins one there;
      and what it begins is what comes first. */
  lemma {:induction false} SpansCover(txt: string, m: Matches, p: nat, q: nat, kind: Kind)
    requires Fits(txt, m) && p <= q < |txt| && LinkableAt(m, kind, q)
    ensures exists i :: 0 <= i < |Spans(txt, m, p)| && Covers(txt, m, Spans(txt, m, p)[i], q)
    decreases |txt| - p
  {
    hide Fits, Spans, Best, LinkableAt, TakenFirst, Length;
    SameLengths(txt, m);
    match Best(m, p) {
      case None =>
        BestExactly(m, p, kind);
        NoneLinkable(m, p, kind);
        SpansSkip(txt, m, p);
        SpansCover(txt, m, p + 1, q, kind);
      case Some(first) =>
        FitsAt(txt, m, p, first);
        var span := Span(p, Length(m, first, p), first);
        BestExactly(m, p, first);
        SpansTake(txt, m, p, first);
        var spans, rest := Spans(txt, m, p), Spans(txt, m, p + span.length);
        if q < p + span.length {
          assert spans[0] == span && Covers(txt, m, span, q);
        } else {
          SpansCover(txt, m, p + span.length, q, kind);
          var i :| 0 <= i < |rest| && Covers(txt, m, rest[i], q);
          assert spans[i + 1] == rest[i];
        }
    }
  }

  /** Position `q` belongs to the span, which begins with what comes first where it begins. */
  predicate Covers(txt: string, m: Matches, span: Span, q: nat)
    requires |m.urls| == |m.addresses| == |m.files| == |txt|
  {
    span.at <= q < span.at + span.length && span.at < |txt| && TakenFirst(m, span.kind, span.at)
  }

  lemma {:induction false} NoneLinkable(m: Matches, p: nat, kind: Kind)
    requires p < |m.urls| == |m.addresses| == |m.files|
    requires Best(m, p).None?
    ensures !LinkableAt(m, kind, p)
  {}

  /** A span is as long as all parts of its match together. */
  lemma {:induction false} LengthExactly(m: Matches, kind: Kind, p: nat)
    requires p < |m.urls| == |m.addresses| == |m.files| && Hit(m, kind, p)
    ensures match kind
            case Url => var u := m.urls[p].value; Length(m, kind, p) == u.scheme + u.credentials + u.host + u.rest
            case Address => Length(m, kind, p) == m.addresses[p].value.length
            case File => Length(m, kind, p) == m.files[p]
  {}

  lemma {:induction false} NothingFrom(m: Matches, from: nat, to: nat)
    requires from <= to <= |m.urls| == |m.addresses| == |m.files|
    ensures from < to ==> (Nothing(m, from, to) <==> Best(m, from).None? && Nothing(m, from + 1, to))
  {}
}

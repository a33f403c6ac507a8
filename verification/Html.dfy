/** Escaping for HTML, and the text a reader sees of simple HTML. */
module Html {
  import opened Text

  const NO_BREAK_SPACE: char := '\U{00A0}'

  function EscapeChar(c: char): string
  {
    if c == '<' then "&lt;"
    else if c == '>' then "&gt;"
    else if c == '&' then "&amp;"
    else if c == '\"' then "&quot;"
    else [c]
  }

  function Escape(s: string): string
  {
    if s == "" then "" else EscapeChar(s[0]) + Escape(s[1..])
  }

  /** What precedes and what follows the first `c` in `s`. */
  function Before(s: string, c: char): string
  {
    if s == "" || s[0] == c then "" else [s[0]] + Before(s[1..], c)
  }

  function Behind(s: string, c: char): (r: string)
    ensures s == "" || |r| < |s|
  {
    if s == "" then "" else if s[0] == c then s[1..] else Behind(s[1..], c)
  }

  function Resolve(entity: string): string
  {
    if entity == "lt" then "<"
    else if entity == "gt" then ">"
    else if entity == "amp" then "&"
    else if entity == "quot" then "\""
    else if entity == "nbsp" then [NO_BREAK_SPACE]
    else "&" + entity + ";"
  }

  /** What a tag does to the text: a line break begins a new line. */
  function TagText(tag: string): string
  {
    if tag == "br" then "\n" else ""
  }

  /** The text of `html` without its tags, with its lines and with its entities resolved. */
  function Visible(html: string): string
    decreases |html|
  {
    if html == "" then ""
    else if html[0] == '<' then
      if '>' in html[1..] then TagText(Before(html[1..], '>')) + Visible(Behind(html[1..], '>')) else ""
    else if html[0] == '&' then Resolve(Before(html[1..], ';')) + Visible(Behind(html[1..], ';'))
    else [html[0]] + Visible(html[1..])
  }

  function Link(target: string, text: string): string
  {
    "<a href=\"" + target + "\">" + text + "</a>"
  }

  lemma {:induction false} CutStep(first: char, rest: string, c: char)
    ensures Before([first] + rest, c) == if first == c then "" else [first] + Before(rest, c)
    ensures Behind([first] + rest, c) == if first == c then rest else Behind(rest, c)
  {
    assert ([first] + rest)[1..] == rest;
  }

  lemma {:induction false} Cut(a: string, c: char, b: string)
    requires c !in a
    ensures Before(a + ([c] + b), c) == a
    ensures Behind(a + ([c] + b), c) == b
  {
    hide Before, Behind;
    if a == "" {
      assert a + ([c] + b) == [c] + b;
      CutStep(c, b, c);
    } else {
      var rest := a[1..] + ([c] + b);
      Cut(a[1..], c, b);
      CutStep(a[0], rest, c);
      assert a == [a[0]] + a[1..];
      Shift([a[0]], a[1..], [c] + b);
    }
  }

  lemma {:induction false} VisibleTag(tag: string, rest: string)
    requires '>' !in tag
    ensures Visible("<" + (tag + (">" + rest))) == TagText(tag) + Visible(rest)
  {
    var behind := tag + (">" + rest);
    Cut(tag, '>', rest);
    assert behind[|tag|] == '>';
    assert ("<" + behind)[1..] == behind;
  }

  lemma {:induction false} VisibleEntity(name: string, rest: string)
    requires ';' !in name
    ensures Visible("&" + (name + (";" + rest))) == Resolve(name) + Visible(rest)
  {
    var behind := name + (";" + rest);
    Cut(name, ';', rest);
    assert ("&" + behind)[1..] == behind;
  }

  lemma {:induction false} EscapedEntity(name: string, rest: string)
    ensures "&" + (name + (";" + rest)) == ("&" + name + ";") + rest
  {}

  lemma {:induction false} VisibleChar(c: char, rest: string)
    ensures Visible(EscapeChar(c) + rest) == [c] + Visible(rest)
  {
    if EscapeChar(c) == [c] {
      assert ([c] + rest)[1..] == rest;
    } else {
      var name := if c == '<' then "lt" else if c == '>' then "gt" else if c == '&' then "amp" else "quot";
      assert EscapeChar(c) == "&" + name + ";";
      EscapedEntity(name, rest);
      VisibleEntity(name, rest);
    }
  }

  lemma {:induction false} VisibleEscape(s: string, rest: string)
    ensures Visible(Escape(s) + rest) == s + Visible(rest)
  {
    if s == "" {
      assert Escape(s) + rest == rest && s + Visible(rest) == Visible(rest);
    } else {
      var later := Escape(s[1..]) + rest;
      VisibleEscape(s[1..], rest);
      VisibleChar(s[0], later);
      Shift(EscapeChar(s[0]), Escape(s[1..]), rest);
      Shift([s[0]], s[1..], Visible(rest));
      assert s == [s[0]] + s[1..];
    }
  }

  lemma {:induction false} EscapeHidesTags(s: string)
    ensures '>' !in Escape(s) && '\"' !in Escape(s) && '<' !in Escape(s)
  {
    if s != "" {
      EscapeHidesTags(s[1..]);
    }
  }

  lemma {:induction false} OtherTag(tag: string, rest: string)
    requires '>' !in tag && tag != "br"
    ensures Visible("<" + (tag + (">" + rest))) == Visible(rest)
  {
    hide Visible;
    VisibleTag(tag, rest);
    assert "" + Visible(rest) == Visible(rest);
  }

  /** A link shows its text and nothing else. */
  lemma {:induction false} VisibleLink(target: string, text: string, rest: string)
    requires '>' !in target
    ensures Visible(Link(target, Escape(text)) + rest) == text + Visible(rest)
  {
    hide Visible, Escape, Link;
    var tag := "a href=\"" + target + "\"";
    var behind := "<" + ("/a" + (">" + rest));
    LinkShape(target, Escape(text), rest);
    assert tag[0] == 'a' && "/a"[0] == '/';
    OtherTag(tag, Escape(text) + behind);
    VisibleEscape(text, behind);
    OtherTag("/a", rest);
  }

  lemma {:induction false} LinkShape(target: string, text: string, rest: string)
    ensures Link(target, text) + rest ==
            "<" + (("a href=\"" + target + "\"") + (">" + (text + ("<" + ("/a" + (">" + rest))))))
  {
    var front, tag := "<a href=\"" + target + "\">", "a href=\"" + target + "\"";
    assert front == "<" + tag + ">";
    assert "</a>" == "<" + "/a" + ">";
    assert "</a>" + rest == "<" + ("/a" + (">" + rest));
    assert Link(target, text) + rest == front + (text + ("</a>" + rest));
  }

  // ----- line breaks at the end

  /** Whether `html` ends inside an entity, so that what is put behind it belongs to the entity. */
  predicate InEntity(html: string)
    decreases |html|
  {
    if html == "" then false
    else if html[0] == '<' then InEntity(Behind(html[1..], '>'))
    else if html[0] == '&' then ';' !in html[1..] || InEntity(Behind(html[1..], ';'))
    else InEntity(html[1..])
  }

  lemma {:induction false} CutAppend(s: string, c: char, more: string)
    requires c in s
    ensures Before(s + more, c) == Before(s, c)
    ensures Behind(s + more, c) == Behind(s, c) + more
  {
    assert (s + more)[0] == s[0] && (s + more)[1..] == s[1..] + more;
    if s[0] != c {
      CutAppend(s[1..], c, more);
    }
  }

  lemma {:induction false} CutAbsent(s: string, c: char)
    requires c !in s
    ensures Before(s, c) == s
    ensures Behind(s, c) == ""
  {
    if s != "" {
      CutAbsent(s[1..], c);
      assert s == [s[0]] + s[1..];
    }
  }

  /** A line break behind `html` begins a new line, unless `html` ends inside a tag. */
  lemma {:induction false} BreakSeen(html: string)
    requires !InEntity(html)
    ensures Visible(html + "<br>") == Visible(html) + "\n" || Visible(html + "<br>") == Visible(html)
    decreases |html|
  {
    hide Before, Behind;
    if html == "" {
      VisibleTag("br", "");
      assert "<" + ("br" + (">" + "")) == "<br>" == html + "<br>";
    } else {
      var rest := html[1..];
      var longer := html + "<br>";
      assert longer[0] == html[0] && longer[1..] == rest + "<br>";
      if html[0] == '<' {
        if '>' in rest {
          assert '>' in rest + "<br>";
          CutAppend(rest, '>', "<br>");
          BreakSeen(Behind(rest, '>'));
          Shift(TagText(Before(rest, '>')), Visible(Behind(rest, '>')), "\n");
        } else {
          BreakCloses(rest);
        }
      } else if html[0] == '&' {
        CutAppend(rest, ';', "<br>");
        BreakSeen(Behind(rest, ';'));
        Shift(Resolve(Before(rest, ';')), Visible(Behind(rest, ';')), "\n");
      } else {
        BreakSeen(rest);
        Shift([html[0]], Visible(rest), "\n");
      }
    }
  }

  lemma {:induction false} BreakCloses(rest: string)
    requires '>' !in rest
    ensures Visible("<" + (rest + "<br>")) == ""
    ensures Before(rest + "<br>", '>') == rest + "<br" && Behind(rest + "<br>", '>') == ""
    ensures '>' in rest + "<br>"
  {
    var s := rest + "<br>";
    Cut(rest + "<br", '>', "");
    assert (rest + "<br") + (['>'] + "") == s;
    assert s[|s| - 1] == '>';
    assert ("<" + s)[1..] == s;
    assert |rest + "<br"| != 2;
  }

  lemma {:induction false} StaysInEntity(html: string)
    requires InEntity(html)
    ensures InEntity(html + "<br>")
    decreases |html|
  {
    var rest := html[1..];
    var longer := html + "<br>";
    assert longer[0] == html[0] && longer[1..] == rest + "<br>";
    if html[0] == '<' {
      if '>' in rest {
        CutAppend(rest, '>', "<br>");
      } else {
        CutAbsent(rest, '>');
      }
      StaysInEntity(Behind(rest, '>'));
    } else if html[0] == '&' {
      if ';' in rest {
        CutAppend(rest, ';', "<br>");
        StaysInEntity(Behind(rest, ';'));
      }
    } else {
      StaysInEntity(rest);
    }
  }

  // ----- links

  const LINK: string := "a href=\""

  /** Where a tag leads, if it is that of a link. */
  function TagTarget(tag: string): seq<string>
  {
    if StartsWith(tag, LINK) then [Before(tag[|LINK|..], '\"')] else []
  }

  /** Where the links of `html` lead, in order. */
  function Targets(html: string): seq<string>
    decreases |html|
  {
    if html == "" then []
    else if html[0] == '<' then TagTarget(Before(html[1..], '>')) + Targets(Behind(html[1..], '>'))
    else Targets(html[1..])
  }

  lemma {:induction false} TargetsOfText(text: string, rest: string)
    requires '<' !in text
    ensures Targets(text + rest) == Targets(rest)
  {
    if text == "" {
      assert text + rest == rest;
    } else {
      TargetsOfText(text[1..], rest);
      assert (text + rest)[0] == text[0] && (text + rest)[1..] == text[1..] + rest;
    }
  }

  lemma {:induction false} TargetsOfTag(tag: string, rest: string)
    requires '>' !in tag
    ensures Targets("<" + (tag + (">" + rest))) == TagTarget(tag) + Targets(rest)
  {
    hide TagTarget;
    var behind := tag + (">" + rest);
    Cut(tag, '>', rest);
    assert ("<" + behind)[1..] == behind;
  }

  lemma {:induction false} TargetOfLinkTag(target: string)
    requires '\"' !in target
    ensures TagTarget("a href=\"" + target + "\"") == [target]
    ensures TagTarget("/a") == []
  {
    var tag := LINK + (target + "\"");
    assert tag == "a href=\"" + target + "\"";
    assert tag[..|LINK|] == LINK && tag[|LINK|..] == target + (['\"'] + "");
    Cut(target, '\"', "");
  }

  /** A link leads to its target and nowhere else. */
  lemma {:induction false} TargetsOfLink(target: string, text: string, rest: string)
    requires '>' !in target && '\"' !in target && '<' !in text
    ensures Targets(Link(target, text) + rest) == [target] + Targets(rest)
  {
    hide Targets, TagTarget, Link;
    var tag := "a href=\"" + target + "\"";
    var behind := "<" + ("/a" + (">" + rest));
    LinkShape(target, text, rest);
    TargetsOfTag(tag, text + behind);
    TargetsOfText(text, behind);
    TargetsOfTag("/a", rest);
    TargetOfLinkTag(target);
    assert [] + Targets(rest) == Targets(rest);
  }
}

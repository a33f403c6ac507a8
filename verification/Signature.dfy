/** The signature under the text of a message that is being written. */
module Signature {
  import opened Text

  /** The text in the editor, the signature, and where the cursor shall go (-1 for nowhere). */
  datatype Draft = Draft(text: string, signature: string, cursorIndex: int)

  function Chopped(s: string, n: nat): string
  {
    if n >= |s| then "" else s[..|s| - n]
  }

  function WithText(d: Draft, text: string, signature: string): Draft
  {
    if signature == "" then d.(text := text)
    else if EndsWith(text, signature) then d.(text := text, cursorIndex := |text| - (|signature| + 1))
    else d.(text := text + "\n" + signature, cursorIndex := |text|)
  }

  function WithSignature(d: Draft, signature: string): Draft
  {
    var bare :=
      if d.text != "" && d.signature != "" && EndsWith(d.text, d.signature) then Chopped(d.text, |d.signature| + 1)
      else d.text;
    WithText(d.(signature := signature), bare, signature)
  }

  /** The editor shows `body`, above the signature if there is one. */
  predicate Shows(d: Draft, body: string)
  {
    d.text == if d.signature == "" then body else body + "\n" + d.signature
  }

  lemma {:induction false} SignatureBehind(body: string, signature: string)
    ensures EndsWith(body + "\n" + signature, signature)
    ensures Chopped(body + "\n" + signature, |signature| + 1) == body
  {
    var text := body + "\n" + signature;
    assert text[..|text| - |signature|] == body + "\n";
    assert text[..|text| - (|signature| + 1)] == body;
  }

  /** Changing the signature leaves the body alone exactly if the body does not already end with
      the new one, and then the cursor goes to the end of the body. */
  lemma {:induction false} ChangeKeepsBody(d: Draft, body: string, signature: string)
    requires Shows(d, body)
    ensures Shows(WithSignature(d, signature), body) <==> signature == "" || !EndsWith(body, signature)
    ensures signature != "" && !EndsWith(body, signature) ==> WithSignature(d, signature).cursorIndex == |body|
    ensures signature != "" && EndsWith(body, signature) ==> WithSignature(d, signature).text == body
  {
    SignatureBehind(body, d.signature);
    if signature != "" {
      assert |body + "\n" + signature| > |body|;
    }
  }

  /** A text that is signed already is left alone, and the cursor goes to the end of what stands above
      its signature; a text that is nothing but the signature has no such place. */
  lemma {:induction false} CursorAboveSignature(d: Draft, text: string, body: string, signature: string)
    requires signature != ""
    ensures EndsWith(text, signature) ==>
              WithText(d, text, signature).text == text
              && WithText(d, text, signature).cursorIndex == |text| - |signature| - 1
    ensures WithText(d, body + "\n" + signature, signature) ==
              d.(text := body + "\n" + signature, cursorIndex := |body|)
    ensures WithText(d, signature, signature) == d.(text := signature, cursorIndex := -1)
  {
    SignatureBehind(body, signature);
  }

  /** A body that ends with the signature is taken to be signed already: the next change then
      removes the end of the body, and one character more. */
  lemma {:induction false} ChangeEatsBody(d: Draft, body: string, signature: string, next: string)
    requires Shows(d, body) && signature != "" && EndsWith(body, signature)
    ensures var eaten := WithSignature(WithSignature(d, signature), next);
            var rest := Chopped(body, |signature| + 1);
            && |rest| < |body|
            && (next == "" || !EndsWith(rest, next) ==> Shows(eaten, rest))
  {
    hide Chopped, EndsWith, Shows;
    ChangeKeepsBody(d, body, signature);
    TextOfSigned(d, signature);
    EndChopped(body, signature);
    var rest, signed := Chopped(body, |signature| + 1), WithSignature(d, signature);
    TextShows(signed.(signature := next), rest, next);
  }

  lemma {:induction false} TextOfSigned(d: Draft, signature: string)
    ensures WithSignature(d, signature).signature == signature
  {
    hide Chopped, EndsWith;
  }

  lemma {:induction false} EndChopped(body: string, signature: string)
    requires signature != "" && EndsWith(body, signature)
    ensures body != "" && |Chopped(body, |signature| + 1)| < |body|
  {}

  lemma {:induction false} TextShows(d: Draft, body: string, signature: string)
    requires d.signature == signature
    ensures signature == "" || !EndsWith(body, signature) ==> Shows(WithText(d, body, signature), body)
  {
    hide EndsWith;
  }

  /** The drafts after every change of the signature. Between two changes the timer may have moved
      the cursor. */
  ghost predicate IsRun(drafts: seq<Draft>, signatures: seq<string>)
  {
    && |drafts| == |signatures| + 1
    && forall i {:trigger signatures[i]} :: 0 <= i < |signatures| ==> IsChange(drafts[i], signatures[i], drafts[i + 1])
  }

  predicate IsChange(d: Draft, signature: string, next: Draft)
  {
    next == WithSignature(d, signature) || next == WithSignature(d.(cursorIndex := -1), signature)
  }

  lemma {:induction false} ChangeInRun(d: Draft, body: string, signature: string, next: Draft)
    requires Shows(d, body) && IsChange(d, signature, next)
    ensures Shows(next, body) <==> signature == "" || !EndsWith(body, signature)
    ensures signature != "" && !EndsWith(body, signature) ==> next.cursorIndex == |body|
  {
    ChangeKeepsBody(d, body, signature);
    ChangeKeepsBody(d.(cursorIndex := -1), body, signature);
  }

  /** Through any sequence of signatures the editor shows the body, and every cursor target is
      its end, exactly if the body ends with none of the signatures that are not empty. */
  lemma {:induction false} BodyIsKept(drafts: seq<Draft>, signatures: seq<string>, body: string)
    requires IsRun(drafts, signatures) && Shows(drafts[0], body)
    ensures (forall i :: 0 <= i < |drafts| ==> Shows(drafts[i], body)) <==> Harmless(signatures, body, |signatures|)
    ensures Harmless(signatures, body, |signatures|) ==>
              forall i :: 0 <= i < |signatures| && signatures[i] != "" ==> drafts[i + 1].cursorIndex == |body|
  {
    if Harmless(signatures, body, |signatures|) {
      forall i | 0 <= i < |drafts| ensures Shows(drafts[i], body) {
        KeptSoFar(drafts, signatures, body, i);
      }
      forall i | 0 <= i < |signatures| && signatures[i] != "" ensures drafts[i + 1].cursorIndex == |body| {
        ChangeInRun(drafts[i], body, signatures[i], drafts[i + 1]);
      }
    } else if forall i :: 0 <= i < |drafts| ==> Shows(drafts[i], body) {
      forall i | 0 <= i < |signatures| ensures signatures[i] == "" || !EndsWith(body, signatures[i]) {
        assert Shows(drafts[i], body) && Shows(drafts[i + 1], body);
        ChangeInRun(drafts[i], body, signatures[i], drafts[i + 1]);
      }
    }
  }

  /** The body ends with none of the first `n` signatures, unless they are empty. */
  predicate Harmless(signatures: seq<string>, body: string, n: nat)
    requires n <= |signatures|
  {
    forall i :: 0 <= i < n ==> signatures[i] == "" || !EndsWith(body, signatures[i])
  }

  lemma {:induction false} KeptSoFar(drafts: seq<Draft>, signatures: seq<string>, body: string, i: nat)
    requires IsRun(drafts, signatures) && i < |drafts| && Shows(drafts[0], body)
    requires Harmless(signatures, body, i)
    ensures Shows(drafts[i], body)
  {
    if i > 0 {
      KeptSoFar(drafts, signatures, body, i - 1);
      ChangeInRun(drafts[i - 1], body, signatures[i - 1], drafts[i]);
    }
  }

  class Composer {
    var m_bodyEdit: string
    var m_signature: string
    var m_cursorIndex: int
    /** Where the editor's cursor is. */
    var position: int

    function State(): Draft
      reads this`m_bodyEdit, this`m_signature, this`m_cursorIndex
    {
      Draft(m_bodyEdit, m_signature, m_cursorIndex)
    }

    constructor ()
      ensures State() == Draft("", "", -1) && Shows(State(), "")
    {
      m_bodyEdit, m_signature, m_cursorIndex, position := "", "", -1, 0;
    }

    method SetPlainText(text: string, signature: string)
      modifies this`m_bodyEdit, this`m_cursorIndex
      ensures State() == WithText(old(State()), text, signature)
    {
      if signature != "" {
        var msgText := text;
        if EndsWith(msgText, signature) {
          m_cursorIndex := |msgText| - (|signature| + 1);
        } else {
          msgText := msgText + "\n" + signature;
          m_cursorIndex := |text|;
        }
        m_bodyEdit := msgText;
      } else {
        m_bodyEdit := text;
      }
    }

    method SetSignature(signature: string)
      modifies this`m_bodyEdit, this`m_signature, this`m_cursorIndex
      ensures State() == WithSignature(old(State()), signature)
    {
      var msgText := m_bodyEdit;
      if msgText != "" && m_signature != "" {
        if EndsWith(msgText, m_signature) {
          msgText := Chopped(msgText, |m_signature| + 1);
        }
      }
      m_signature := signature;
      SetPlainText(msgText, m_signature);
    }

    /** A timer moves the cursor once the text has been set. */
    method SetCursorPosition()
      modifies this`m_cursorIndex, this`position
      ensures m_cursorIndex == -1
      ensures position == if old(m_cursorIndex) == -1 then old(position) else old(m_cursorIndex)
    {
      if m_cursorIndex != -1 {
        position := m_cursorIndex;
        m_cursorIndex := -1;
      }
    }
  }
}

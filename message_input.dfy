/**
 * The message box under the chat: it submits the typed text only when the
 * text is not blank, clears itself after a submission, submits on
 * Ctrl+Enter or Cmd+Enter as on a click of Send, and offers the Done button
 * only once the exchange is completed.
 */
module MessageInput {
  import opened Types

  /**
   * The characters `String.prototype.trim` removes: the WhiteSpace and
   * LineTerminator code points of ECMA-262 (sections 12.2 and 12.3 of the
   * 2023 edition).
   */
  predicate IsJsWhitespace(c: char)
  {
    c == '\U{0009}' || c == '\U{000B}' || c == '\U{000C}' || c == '\U{0020}' || c == '\U{00A0}'
    || c == '\U{FEFF}' || c == '\U{1680}' || ('\U{2000}' <= c <= '\U{200A}') || c == '\U{202F}'
    || c == '\U{205F}' || c == '\U{3000}'
    || c == '\U{000A}' || c == '\U{000D}' || c == '\U{2028}' || c == '\U{2029}'
  }

  predicate AllWhitespace(s: string)
  {
    forall k :: 0 <= k < |s| ==> IsJsWhitespace(s[k])
  }

  /** The text without its leading whitespace. */
  function TrimStart(s: string): (r: string)
    ensures |r| <= |s| && r == s[|s| - |r|..]
    ensures AllWhitespace(s[..|s| - |r|])
    ensures r == "" || !IsJsWhitespace(r[0])
    decreases |s|
  {
    if |s| > 0 && IsJsWhitespace(s[0]) then
      var r := TrimStart(s[1..]);
      assert s[..|s| - |r|] == [s[0]] + s[1..][..|s[1..]| - |r|];
      AllWhitespaceConcat([s[0]], s[1..][..|s[1..]| - |r|]);
      r
    else s
  }

  /** The text without its trailing whitespace. */
  function TrimEnd(s: string): (r: string)
    ensures |r| <= |s| && r == s[..|r|]
    ensures AllWhitespace(s[|r|..])
    ensures r == "" || !IsJsWhitespace(r[|r| - 1])
    decreases |s|
  {
    if |s| > 0 && IsJsWhitespace(s[|s| - 1]) then
      var r := TrimEnd(s[..|s| - 1]);
      assert s[|r|..] == s[..|s| - 1][|r|..] + [s[|s| - 1]];
      AllWhitespaceConcat(s[..|s| - 1][|r|..], [s[|s| - 1]]);
      r
    else s
  }

  /** `r` sits in `s` at offset `i` with only whitespace before and after it. */
  predicate TrimmedAt(s: string, r: string, i: int)
  {
    0 <= i <= |s| - |r| && r == s[i..i + |r|] && AllWhitespace(s[..i]) && AllWhitespace(s[i + |r|..])
  }

  /** `text.trim()`: the text without leading and trailing whitespace. */
  function Trim(s: string): (r: string)
    ensures exists i :: TrimmedAt(s, r, i)
    ensures r == "" || (!IsJsWhitespace(r[0]) && !IsJsWhitespace(r[|r| - 1]))
  {
    var t := TrimStart(s);
    var r := TrimEnd(t);
    TrimEndOfSuffix(s, |s| - |t|, r);
    r
  }

  /** Trimming the end of a suffix whose prefix is whitespace leaves a trimmed slice. */
  lemma TrimEndOfSuffix(s: string, i: nat, r: string)
    requires i <= |s| && AllWhitespace(s[..i])
    requires |r| <= |s| - i && r == s[i..][..|r|] && AllWhitespace(s[i..][|r|..])
    ensures TrimmedAt(s, r, i)
  {
    assert s[i + |r|..] == s[i..][|r|..];
  }

  lemma AllWhitespaceConcat(a: string, b: string)
    requires AllWhitespace(a) && AllWhitespace(b)
    ensures AllWhitespace(a + b)
  {
    forall k | 0 <= k < |a + b| ensures IsJsWhitespace((a + b)[k]) {
      if k < |a| {
        assert (a + b)[k] == a[k];
      } else {
        assert (a + b)[k] == b[k - |a|];
      }
    }
  }

  /** Trimming leaves nothing exactly when the text is all whitespace. */
  lemma TrimEmptyIffBlank(s: string)
    ensures Trim(s) == "" <==> AllWhitespace(s)
  {
    var t := TrimStart(s);
    if TrimEnd(t) == "" {
      assert t[0..] == t;
      assert s == s[..|s| - |t|] + t;
      AllWhitespaceConcat(s[..|s| - |t|], t);
    }
    BlankTrimsToEmpty(s);
  }

  /** Leading-whitespace removal consumes a text that is all whitespace. */
  lemma {:induction false} BlankTrimsToEmpty(s: string)
    ensures AllWhitespace(s) ==> TrimStart(s) == ""
    decreases |s|
  {
    if |s| > 0 && AllWhitespace(s) {
      assert IsJsWhitespace(s[0]);
      BlankTrimsToEmpty(s[1..]);
    }
  }

  /**
   * `handleClick`: blank text submits nothing and stays as it is; other text
   * is submitted as typed, untrimmed, and the field is cleared.
   */
  function Click(text: string): (r: (string, Option<string>))
    ensures AllWhitespace(text) ==> r == (text, None)
    ensures !AllWhitespace(text) ==> r == ("", Some(text))
  {
    TrimEmptyIffBlank(text);
    if Trim(text) != "" then ("", Some(text)) else (text, None)
  }

  /** What is submitted is never blank, and a second click right after a submission submits nothing. */
  lemma ClickNeverSubmitsBlank(text: string)
    ensures Click(text).1.Some? ==> exists k :: 0 <= k < |text| && !IsJsWhitespace(text[k])
    ensures Click(Click(text).0).1 == None
  {
  }

  /** Appending a text that is not blank to texts that are not blank keeps them all non-blank. */
  lemma AppendNonBlank(xs: seq<string>, x: string)
    requires forall k :: 0 <= k < |xs| ==> !AllWhitespace(xs[k])
    requires !AllWhitespace(x)
    ensures forall k :: 0 <= k < |xs + [x]| ==> !AllWhitespace((xs + [x])[k])
  {
    forall k | 0 <= k < |xs + [x]| ensures !AllWhitespace((xs + [x])[k]) {
      if k < |xs| {
        assert (xs + [x])[k] == xs[k];
      }
    }
  }

  /** The key chord that submits: Enter with the Meta or the Ctrl key held. */
  predicate SubmitChord(key: string, metaKey: bool, ctrlKey: bool)
  {
    key == "Enter" && (metaKey || ctrlKey)
  }

  /**
   * The message box: its text, the completed flag it is given, and ghost logs
   * of what it has submitted and of how often the exchange was dismissed.
   */
  class InputBox {
    const exchangeCompleted: bool
    var textAreaValue: string
    ghost var submitted: seq<string>
    ghost var dismissals: nat

    /** Every submitted text is non-blank. */
    ghost predicate Valid()
      reads this
    {
      forall k :: 0 <= k < |submitted| ==> !AllWhitespace(submitted[k])
    }

    constructor(exchangeCompleted: bool)
      ensures Valid()
      ensures this.exchangeCompleted == exchangeCompleted && textAreaValue == "" && submitted == [] && dismissals == 0
    {
      this.exchangeCompleted := exchangeCompleted;
      textAreaValue := "";
      submitted := [];
      dismissals := 0;
    }

    /** Typing: the field takes the new value. */
    method HandleChange(value: string)
      requires Valid()
      modifies this
      ensures Valid()
      ensures textAreaValue == value && submitted == old(submitted) && dismissals == old(dismissals)
    {
      textAreaValue := value;
    }

    /** A click on Send. */
    method HandleClick()
      requires Valid()
      modifies this
      ensures Valid()
      ensures textAreaValue == Click(old(textAreaValue)).0
      ensures submitted == old(submitted) + (if Click(old(textAreaValue)).1.Some? then [old(textAreaValue)] else [])
      ensures dismissals == old(dismissals)
    {
      TrimEmptyIffBlank(textAreaValue);
      if Trim(textAreaValue) != "" {
        AppendNonBlank(submitted, textAreaValue);
        submitted := submitted + [textAreaValue];
        textAreaValue := "";
      }
    }

    /** A key press in the field: the submit chord acts exactly as a click on Send; any other key does nothing here. */
    method HandleKeyDown(key: string, metaKey: bool, ctrlKey: bool)
      requires Valid()
      modifies this
      ensures Valid()
      ensures SubmitChord(key, metaKey, ctrlKey) ==>
        textAreaValue == Click(old(textAreaValue)).0
        && submitted == old(submitted) + (if Click(old(textAreaValue)).1.Some? then [old(textAreaValue)] else [])
      ensures !SubmitChord(key, metaKey, ctrlKey) ==> textAreaValue == old(textAreaValue) && submitted == old(submitted)
      ensures dismissals == old(dismissals)
    {
      if key == "Enter" && (metaKey || ctrlKey) {
        HandleClick();
      }
    }

    /** Whether the Done button is rendered. */
    function DoneButtonShown(): (b: bool)
      reads this
      ensures b <==> exchangeCompleted
    {
      exchangeCompleted
    }

    /** A click on Done, which exists only once the exchange is completed. */
    method HandleDismiss()
      requires Valid() && DoneButtonShown()
      modifies this
      ensures Valid()
      ensures dismissals == old(dismissals) + 1
      ensures textAreaValue == old(textAreaValue) && submitted == old(submitted)
    {
      dismissals := dismissals + 1;
    }
  }
}

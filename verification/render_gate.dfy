/**
 * The check the diagram canvas makes before it hands code to the Mermaid renderer:
 * leading `%%` directives are stripped, and what is left must be empty or start with a
 * diagram keyword. Rendering itself is not modelled; the gate decides whether it is
 * attempted.
 */
module RenderGate {
  import opened JsText

  const Mark: string := "%%"

  /** One round of the loop on a text that starts with `%%`: cut just past the next
      `%%` at index 2 or later; failing that, drop the first line; failing that, give up
      with the empty text. What is left is trimmed. */
  function StripOnce(t: string): (r: string)
    requires StartsWith(t, Mark)
    ensures |r| < |t|
    ensures IndexOfFrom(t, Mark, 2).Some? ==> var e := IndexOfFrom(t, Mark, 2).value; r == Trim(t[e + 2..])
    ensures IndexOfFrom(t, Mark, 2).None? && '\n' in t ==> r == Trim(t[IndexOfChar(t, '\n').value + 1..])
    ensures IndexOfFrom(t, Mark, 2).None? && '\n' !in t ==> r == []
  {
    match IndexOfFrom(t, Mark, 2)
    case Some(e) => Trim(t[e + 2..])
    case None =>
      match IndexOfChar(t, '\n')
      case Some(nl) => Trim(t[nl + 1..])
      case None => []
  }

  /** Repeat `StripOnce` while the text starts with `%%`. */
  function Strip(t: string): (r: string)
    ensures !StartsWith(r, Mark) && |r| <= |t|
    decreases |t|
  {
    if StartsWith(t, Mark) then Strip(StripOnce(t)) else t
  }

  /** Stripping changes a text exactly when it starts with `%%`, and a stripped text
      strips to itself. */
  lemma StripFixpoint(t: string)
    ensures Strip(t) == t <==> !StartsWith(t, Mark)
    ensures Strip(Strip(t)) == Strip(t)
  {
  }

  /** The loop as written, with its `break`. */
  method StripDirectives(input: string) returns (t: string)
    ensures t == Strip(input)
    ensures !StartsWith(t, Mark) && |t| <= |input|
  {
    t := input;
    while StartsWith(t, Mark)
      invariant Strip(t) == Strip(input) && |t| <= |input|
      decreases |t|
    {
      ghost var next := StripOnce(t);
      assert Strip(t) == Strip(next);
      match IndexOfFrom(t, Mark, 2)
      case Some(e) =>
        t := Trim(t[e + 2..]);
        assert t == next;
      case None =>
        match IndexOfChar(t, '\n')
        case Some(nl) =>
          assert Trim(t[nl + 1..]) == next;
          if EndsWith(Trim(t[..nl]), Mark) {
            t := Trim(t[nl + 1..]);
          } else {
            t := Trim(t[nl + 1..]);
          }
        case None =>
          t := [];
          break;
    }
  }

  /** The diagram types the canvas recognises. */
  const DiagramKeywords: seq<string> := [
    "graph", "sequenceDiagram", "classDiagram", "stateDiagram", "erDiagram", "journey",
    "gantt", "pie", "flowchart", "mindmap", "timeline"
  ]

  /** `/^\s*(graph|…|timeline)/i.test(t)` read as the regex reads it: some run of white
      space at the front, then one of the keywords, letter case ignored. */
  ghost predicate MatchesKeywordPattern(t: string) {
    exists k, w :: 0 <= k <= |t| && 0 <= w < |DiagramKeywords| && AllSpace(t[..k])
                   && StartsWithIgnoreCase(t[k..], DiagramKeywords[w])
  }

  /** `isLikelyMermaid`: skip the leading white space and look for a keyword. */
  function IsLikelyMermaid(t: string): (b: bool)
    ensures b <==> MatchesKeywordPattern(t)
  {
    var s := TrimStart(t);
    KeywordsStartWithLetters();
    assert forall k, w :: (0 <= k <= |t| && 0 <= w < |DiagramKeywords| && AllSpace(t[..k])
                           && StartsWithIgnoreCase(t[k..], DiagramKeywords[w])) ==> k == LeadingSpace(t) by {
      forall k, w | 0 <= k <= |t| && 0 <= w < |DiagramKeywords| && AllSpace(t[..k])
                    && StartsWithIgnoreCase(t[k..], DiagramKeywords[w])
        ensures k == LeadingSpace(t)
      {
        KeywordStart(t[k..], DiagramKeywords[w]);
        assert t[k..][0] == t[k];
        LeadingSpaceAt(t, k);
      }
    }
    exists w :: 0 <= w < |DiagramKeywords| && StartsWithIgnoreCase(s, DiagramKeywords[w])
  }

  predicate IsAsciiLetter(c: char) {
    'a' <= c <= 'z' || 'A' <= c <= 'Z'
  }

  lemma KeywordsStartWithLetters()
    ensures forall w :: 0 <= w < |DiagramKeywords| ==> |DiagramKeywords[w]| > 0 && IsAsciiLetter(DiagramKeywords[w][0])
  {
  }

  /** A text that starts with a keyword, letter case ignored, starts with no space. */
  lemma KeywordStart(s: string, word: string)
    requires |word| > 0 && IsAsciiLetter(word[0]) && StartsWithIgnoreCase(s, word)
    ensures |s| > 0 && !IsSpace(s[0])
  {
    assert LowerAsciiString(s[..|word|])[0] == LowerAscii(s[0]);
    assert LowerAsciiString(word)[0] == LowerAscii(word[0]);
  }

  /** What the canvas does with new code. */
  datatype Gate =
    | Cleared                                 // no code: picture, error and spinner all cleared
    | Rejected(processed: string, original: string)  // not Mermaid: error shown, picture cleared
    | Render(code: string)                    // error cleared, spinner on, renderer called with `code`
  {
    /** The error a rejection shows. */
    function Message(): string
      requires Rejected?
    {
      RejectionMessage(processed, original)
    }
  }

  /** `s.substring(0, 100)` */
  function Head(s: string): (r: string)
    ensures |r| <= 100 && StartsWith(s, r)
    ensures |s| <= 100 ==> r == s
  {
    if |s| <= 100 then s else s[..100]
  }

  /** The two fixed parts of the error text. */
  const RejectionLead: string := "Content does not appear to be valid Mermaid syntax after initial directives. Ensure it includes a valid diagram type (e.g., 'graph TD', 'erDiagram'). Processed for check: \n"
  const OriginalLead: string := "...\n\nOriginal input started with:\n"

  /** The error a rejection shows: at most 100 characters of the stripped code and of the
      trimmed original, each followed by `...`. */
  function RejectionMessage(stripped: string, data: string): (r: string)
    ensures StartsWith(r, RejectionLead)
    ensures |r| <= |RejectionLead| + |OriginalLead| + 203
    ensures |stripped| <= 100 && |Trim(data)| <= 100 ==> r == RejectionLead + stripped + OriginalLead + Trim(data) + "..."
  {
    var r := RejectionLead + Head(stripped) + OriginalLead + Head(Trim(data)) + "...";
    assert r[..|RejectionLead|] == RejectionLead;
    r
  }

  /** The render effect up to the call of the renderer. */
  function Check(data: Option<string>): (g: Gate)
    ensures g == Cleared <==> data.None? || data.value == []
    ensures g.Render? ==> g.code == data.value
    ensures data.Some? && data.value != [] ==>
              var s := Strip(Trim(data.value));
              (g.Rejected? <==> s != [] && !MatchesKeywordPattern(s))
    ensures g.Rejected? ==> g.processed == Strip(Trim(data.value)) && g.original == data.value
  {
    if data.None? || data.value == [] then Cleared
    else
      var s := Strip(Trim(data.value));
      if !IsLikelyMermaid(s) && s != [] then Rejected(s, data.value)
      else Render(data.value)
  }

  /** Code made of directives and white space only is never rejected. */
  lemma DirectivesOnlyRender(data: string)
    requires data != [] && Strip(Trim(data)) == []
    ensures Check(Some(data)) == Render(data)
  {
  }

  /** Code that starts with a diagram keyword after white space is handed to the
      renderer as it is. */
  lemma KeywordRenders(data: string, w: nat)
    requires w < |DiagramKeywords| && StartsWithIgnoreCase(Trim(data), DiagramKeywords[w])
    ensures Check(Some(data)) == Render(data)
  {
    var t := Trim(data);
    KeywordsStartWithLetters();
    KeywordStart(t, DiagramKeywords[w]);
    assert !StartsWith(t, Mark) by {
      assert LowerAscii(t[0]) == LowerAsciiString(t[..|DiagramKeywords[w]|])[0];
    }
    assert Strip(t) == t;
    assert AllSpace(t[..0]);
    assert t[0..] == t;
    assert MatchesKeywordPattern(t);
  }
}

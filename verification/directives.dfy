/**
 * The Mermaid directive lines both markup editors recognise, and the classification of
 * a snippet before it is spliced into a buffer. Every test is made on the `trim()`med
 * line, as both editors do.
 */
module Directives {
  import opened JsText

  /** The start of a theme directive, `%%{init: {'theme': 'dark'}}%%`. */
  const ThemePrefix: string := "%%{init: {'theme':"
  /** The first line of a configuration block `%% @config` … `%%`. */
  const ConfigPrefix: string := "%% @config"
  /** What every directive starts with, and what closes a configuration block. */
  const Mark: string := "%%"

  predicate IsThemeLine(line: string) {
    StartsWith(Trim(line), ThemePrefix)
  }

  predicate StartsConfig(line: string) {
    StartsWith(Trim(line), ConfigPrefix)
  }

  predicate EndsWithMark(line: string) {
    EndsWith(Trim(line), Mark)
  }

  /** `TD|LR|RL|BT`, letter case ignored. */
  predicate IsDirection(d: string) {
    var l := LowerAsciiString(d);
    l == "td" || l == "lr" || l == "rl" || l == "bt"
  }

  /** `/^keyword(\s+(TD|LR|RL|BT))?$/i`: the keyword alone, or the keyword, white space
      and a direction, with nothing after it. */
  predicate IsHeader(keyword: string, t: string) {
    && |keyword| <= |t|
    && EqualsIgnoreCase(t[..|keyword|], keyword)
    && DirectionTail(t[|keyword|..])
  }

  predicate DirectionTail(rest: string) {
    || rest == []
    || (|rest| >= 3 && AllSpace(rest[..|rest| - 2]) && IsDirection(rest[|rest| - 2..]))
  }

  /** How both editors sort a trimmed snippet: the tests are made in this order, so a
      comment is a `%%` line that is neither a theme nor a config directive. */
  datatype SnippetKind = Theme | Config | Layout | Comment | Generic {
    predicate IsDirective() {
      this == Theme || this == Config || this == Layout
    }
  }

  function Classify(st: string, keyword: string): (k: SnippetKind)
    requires |keyword| > 0 && !IsSpace(keyword[0]) && keyword[0] != '%'
    ensures k == Theme <==> StartsWith(st, ThemePrefix)
    ensures k == Config <==> StartsWith(st, ConfigPrefix)
    ensures k == Layout <==> IsHeader(keyword, st)
    ensures k == Comment <==> StartsWith(st, Mark) && !StartsWith(st, ThemePrefix) && !StartsWith(st, ConfigPrefix)
  {
    HeaderIsNoDirective(keyword, st);
    ThemeIsNoConfig(st);
    if StartsWith(st, ThemePrefix) then Theme
    else if StartsWith(st, ConfigPrefix) then Config
    else if IsHeader(keyword, st) then Layout
    else if StartsWith(st, Mark) then Comment
    else Generic
  }

  /** A theme directive never reads as a header, a configuration start or the reverse. */
  lemma HeaderIsNoDirective(keyword: string, t: string)
    requires |keyword| > 0 && keyword[0] != '%'
    ensures IsHeader(keyword, t) ==>
              !StartsWith(t, ThemePrefix) && !StartsWith(t, ConfigPrefix) && !StartsWith(t, Mark)
  {
    if IsHeader(keyword, t) {
      assert LowerAscii(t[0]) == LowerAsciiString(t[..|keyword|])[0] == LowerAsciiString(keyword)[0];
      assert t[0] != '%';
    }
  }

  /** The two directive prefixes differ at their third character. */
  lemma ThemeIsNoConfig(t: string)
    ensures !(StartsWith(t, ThemePrefix) && StartsWith(t, ConfigPrefix))
  {
    assert StartsWith(t, ThemePrefix) ==> t[2] == t[..|ThemePrefix|][2] == '{';
    assert StartsWith(t, ConfigPrefix) ==> t[2] == t[..|ConfigPrefix|][2] == ' ';
  }

  /** `trim` is idempotent, so a trimmed line classifies as itself. */
  lemma TrimTwice(s: string)
    ensures Trim(Trim(s)) == Trim(s)
  {
    var t := Trim(s);
    if |t| > 0 {
      assert LeadingSpace(t) == 0;
      assert TrimStart(t) == t;
      assert TrimEnd(t) == t;
    }
  }
}

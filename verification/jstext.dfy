/**
 * The slice of JavaScript's string library that the editor components use:
 * white space as `trim` and the regex class `\s` see it, `trim`/`trimStart`/`trimEnd`,
 * `split` and `join` on a single separator character, `startsWith`/`endsWith`/`includes`,
 * ASCII case folding, and decimal rendering and parsing of natural numbers.
 *
 * A `string` is a sequence of characters; JavaScript counts UTF-16 code units, which
 * agrees with this model for every character of the Basic Multilingual Plane.
 */
module JsText {

  /** JavaScript white space: the WhiteSpace set (TAB, VT, FF, SP, NBSP, ZWNBSP and the
      Zs category) together with the LineTerminator set (LF, CR, LS, PS). `trim` strips
      exactly these characters and the regex class `\s` matches exactly these. */
  predicate IsSpace(c: char) {
    || c == '\t' || c == '\U{B}' || c == '\U{C}' || c == ' ' || c == '\U{A0}' || c == '\U{FEFF}'
    || c == '\U{1680}' || ('\U{2000}' <= c <= '\U{200A}') || c == '\U{202F}' || c == '\U{205F}'
    || c == '\U{3000}'
    || IsLineTerminator(c)
  }

  /** The characters the regex `.` refuses to match. */
  predicate IsLineTerminator(c: char) {
    c == '\n' || c == '\r' || c == '\U{2028}' || c == '\U{2029}'
  }

  predicate AllSpace(s: string) {
    forall i :: 0 <= i < |s| ==> IsSpace(s[i])
  }

  /** The number of white-space characters at the front of `s`. */
  function LeadingSpace(s: string): (n: nat)
    ensures n <= |s| && AllSpace(s[..n])
    ensures n == |s| || !IsSpace(s[n])
  {
    if |s| > 0 && IsSpace(s[0]) then 1 + LeadingSpace(s[1..]) else 0
  }

  /** `s.trimStart()` */
  function TrimStart(s: string): (r: string)
    ensures |r| <= |s| && r == s[|s| - |r|..]
    ensures AllSpace(s[..|s| - |r|])
    ensures r == [] || !IsSpace(r[0])
  {
    s[LeadingSpace(s)..]
  }

  /** `s.trimEnd()` */
  function TrimEnd(s: string): (r: string)
    ensures |r| <= |s| && r == s[..|r|]
    ensures AllSpace(s[|r|..])
    ensures r == [] || !IsSpace(r[|r| - 1])
  {
    if |s| > 0 && IsSpace(s[|s| - 1]) then
      var r := TrimEnd(s[..|s| - 1]);
      assert s[|r|..] == s[..|s| - 1][|r|..] + [s[|s| - 1]];
      r
    else s
  }

  /** `s.trim()` */
  function Trim(s: string): (r: string)
    ensures LeadingSpace(s) + |r| <= |s| && r == s[LeadingSpace(s)..LeadingSpace(s) + |r|]
    ensures r == [] || (!IsSpace(r[0]) && !IsSpace(r[|r| - 1]))
  {
    TrimEnd(TrimStart(s))
  }

  /** A line whose `trim()` is empty. */
  predicate IsBlank(s: string) {
    Trim(s) == []
  }

  lemma {:induction false} BlankIsAllSpace(s: string)
    ensures IsBlank(s) <==> AllSpace(s)
  {
    var n := LeadingSpace(s);
    if !AllSpace(s) {
      assert n < |s|;
    }
  }

  predicate StartsWith(s: string, prefix: string) {
    |prefix| <= |s| && s[..|prefix|] == prefix
  }

  predicate EndsWith(s: string, suffix: string) {
    |suffix| <= |s| && s[|s| - |suffix|..] == suffix
  }

  /** Does `pat` occur in `s` starting at index `i`? */
  predicate OccursAt(s: string, pat: string, i: nat) {
    i + |pat| <= |s| && s[i..i + |pat|] == pat
  }

  /** `s.includes(sub)` */
  predicate Contains(s: string, sub: string) {
    exists i: nat | i <= |s| :: OccursAt(s, sub, i)
  }

  /** The first index at or after `from` where `pat` occurs, like `s.indexOf(pat, from)`. */
  function IndexOfFrom(s: string, pat: string, from: nat): (r: Option<nat>)
    requires |pat| > 0
    ensures r.Some? ==> from <= r.value && OccursAt(s, pat, r.value)
    ensures forall k: nat :: from <= k && (r.None? || k < r.value) ==> !OccursAt(s, pat, k)
    decreases |s| - from
  {
    if from + |pat| > |s| then None
    else if OccursAt(s, pat, from) then Some(from)
    else IndexOfFrom(s, pat, from + 1)
  }

  /** The first index of character `c`, like `s.indexOf(c)`. */
  function IndexOfChar(s: string, c: char): (r: Option<nat>)
    ensures r.Some? ==> r.value < |s| && s[r.value] == c && c !in s[..r.value]
    ensures r.None? ==> c !in s
  {
    if |s| == 0 then None
    else if s[0] == c then Some(0)
    else match IndexOfChar(s[1..], c)
      case None => None
      case Some(k) => assert s[..k + 1] == [s[0]] + s[1..][..k]; Some(k + 1)
  }

  datatype Option<T> = None | Some(value: T)

  /** `s.split(sep)` for a one-character separator: the maximal pieces between separators,
      always at least one (the empty string splits to one empty piece). */
  function Split(s: string, sep: char): (r: seq<string>)
    ensures |r| >= 1
    ensures forall i :: 0 <= i < |r| ==> sep !in r[i]
    decreases |s|
  {
    match IndexOfChar(s, sep)
    case None => [s]
    case Some(k) => [s[..k]] + Split(s[k + 1..], sep)
  }

  /** `parts.join(sep)`; the empty array joins to the empty string. */
  function Join(parts: seq<string>, sep: char): string {
    if |parts| == 0 then []
    else if |parts| == 1 then parts[0]
    else parts[0] + [sep] + Join(parts[1..], sep)
  }

  lemma {:induction false} JoinSplit(s: string, sep: char)
    ensures Join(Split(s, sep), sep) == s
    decreases |s|
  {
    match IndexOfChar(s, sep)
    case None =>
    case Some(k) =>
      var rest := Split(s[k + 1..], sep);
      assert Split(s, sep) == [s[..k]] + rest;
      JoinSplit(s[k + 1..], sep);
      assert Join([s[..k]] + rest, sep) == s[..k] + [sep] + Join(rest, sep) by {
        assert ([s[..k]] + rest)[1..] == rest;
      }
      assert s == s[..k] + [sep] + s[k + 1..];
  }

  lemma {:induction false} SplitJoin(parts: seq<string>, sep: char)
    requires |parts| >= 1
    requires forall i :: 0 <= i < |parts| ==> sep !in parts[i]
    ensures Split(Join(parts, sep), sep) == parts
  {
    if |parts| > 1 {
      var s := Join(parts, sep);
      var tail := Join(parts[1..], sep);
      assert s == parts[0] + [sep] + tail;
      assert s[..|parts[0]|] == parts[0];
      assert s[|parts[0]|] == sep;
      assert IndexOfChar(s, sep) == Some(|parts[0]|);
      assert s[|parts[0]| + 1..] == tail;
      SplitJoin(parts[1..], sep);
      assert [parts[0]] + parts[1..] == parts;
    }
  }

  /** The joined text of non-empty lines is non-empty whenever its first line is. */
  lemma {:induction false} JoinStartsWithFirst(parts: seq<string>, sep: char)
    requires |parts| >= 1
    ensures StartsWith(Join(parts, sep), parts[0])
  {
    if |parts| > 1 {
      assert Join(parts, sep)[..|parts[0]|] == parts[0];
    }
  }

  /** ASCII case folding: what a non-unicode case-insensitive regex applies to letters here. */
  function LowerAscii(c: char): char {
    if 'A' <= c <= 'Z' then (c as int + 32) as char else c
  }

  function LowerAsciiString(s: string): (r: string)
    ensures |r| == |s|
    ensures forall i :: 0 <= i < |s| ==> r[i] == LowerAscii(s[i])
  {
    seq(|s|, i requires 0 <= i < |s| => LowerAscii(s[i]))
  }

  /** Does `s` start with `word` when ASCII letter case is ignored (`/^word/i`)? */
  predicate StartsWithIgnoreCase(s: string, word: string) {
    |word| <= |s| && LowerAsciiString(s[..|word|]) == LowerAsciiString(word)
  }

  predicate EqualsIgnoreCase(a: string, b: string) {
    LowerAsciiString(a) == LowerAsciiString(b)
  }

  predicate IsDigit(c: char) {
    '0' <= c <= '9'
  }

  predicate AllDigits(s: string) {
    forall i :: 0 <= i < |s| ==> IsDigit(s[i])
  }

  /** The decimal numeral of `n` with no leading zeros, as `n.toString()` renders it. */
  function ShowNat(n: nat): (r: string)
    ensures |r| >= 1 && AllDigits(r)
    ensures n > 0 ==> r[0] != '0'
  {
    if n < 10 then [('0' as int + n) as char]
    else ShowNat(n / 10) + [('0' as int + n % 10) as char]
  }

  /** The value of a decimal digit string, as `parseInt(s, 10)` reads one. */
  function ParseDigits(s: string): nat
    requires AllDigits(s)
  {
    if |s| == 0 then 0
    else 10 * ParseDigits(s[..|s| - 1]) + (s[|s| - 1] as int - '0' as int)
  }

  lemma {:induction false} ParseShowNat(n: nat)
    ensures ParseDigits(ShowNat(n)) == n
  {
    if n >= 10 {
      var s := ShowNat(n);
      assert s[..|s| - 1] == ShowNat(n / 10);
      ParseShowNat(n / 10);
    }
  }

  /** Distinct numbers render to distinct numerals. */
  lemma ShowNatInjective(m: nat, n: nat)
    requires ShowNat(m) == ShowNat(n)
    ensures m == n
  {
    ParseShowNat(m);
    ParseShowNat(n);
  }

  /** The maximal run of digits at the end of `s`, which is what `s.match(/\d+$/)` finds
      (empty when there is none). */
  function TrailingDigits(s: string): (r: string)
    ensures |r| <= |s| && r == s[|s| - |r|..]
    ensures AllDigits(r)
    ensures |r| < |s| ==> !IsDigit(s[|s| - |r| - 1])
  {
    if |s| > 0 && IsDigit(s[|s| - 1]) then TrailingDigits(s[..|s| - 1]) + [s[|s| - 1]] else []
  }

  /** The last element of `s.split(' ')`, i.e. `s.split(' ').pop()`. */
  function LastWord(s: string): (r: string)
    ensures EndsWith(s, r) && ' ' !in r
    ensures |r| < |s| ==> s[|s| - |r| - 1] == ' '
  {
    var parts := Split(s, ' ');
    var r := parts[|parts| - 1];
    LastPieceIsSuffix(s, ' ');
    r
  }

  lemma {:induction false} LastPieceIsSuffix(s: string, sep: char)
    ensures var parts := Split(s, sep);
            var r := parts[|parts| - 1];
            EndsWith(s, r) && (|r| < |s| ==> s[|s| - |r| - 1] == sep)
    decreases |s|
  {
    var parts := Split(s, sep);
    match IndexOfChar(s, sep)
    case None =>
      assert parts == [s];
      assert s[|s| - |s|..] == s;
    case Some(k) =>
      var rest := s[k + 1..];
      LastPieceIsSuffix(rest, sep);
      var tail := Split(rest, sep);
      assert parts == [s[..k]] + tail;
      assert parts[|parts| - 1] == tail[|tail| - 1];
      SuffixOfRest(s, k, tail[|tail| - 1]);
  }

  /** A suffix of `s[k + 1..]` is a suffix of `s`, and the character before it is the
      same one, or `s[k]` when the suffix is all of `s[k + 1..]`. */
  lemma SuffixOfRest(s: string, k: nat, r: string)
    requires k < |s| && EndsWith(s[k + 1..], r)
    ensures EndsWith(s, r)
    ensures |r| < |s| - k - 1 ==> s[|s| - |r| - 1] == s[k + 1..][|s| - k - 1 - |r| - 1]
    ensures |r| == |s| - k - 1 ==> s[|s| - |r| - 1] == s[k]
  {
    assert s[|s| - |r|..] == s[k + 1..][|s| - k - 1 - |r|..];
  }

  /** No white space at either end: what `trim` leaves. */
  predicate Trimmed(s: string) {
    s == [] || (!IsSpace(s[0]) && !IsSpace(s[|s| - 1]))
  }

  lemma TrimmedIsOwnTrim(s: string)
    requires Trimmed(s)
    ensures Trim(s) == s
  {
    if s != [] { TrimVisible(s); }
  }

  /** `trim` leaves a text alone that starts and ends with a visible character. */
  lemma TrimVisible(s: string)
    requires |s| > 0 && !IsSpace(s[0]) && !IsSpace(s[|s| - 1])
    ensures Trim(s) == s
  {
    assert LeadingSpace(s) == 0;
    assert TrimStart(s) == s;
  }

  lemma {:induction false} JoinEndsWithLast(parts: seq<string>, sep: char)
    requires |parts| >= 1
    ensures EndsWith(Join(parts, sep), parts[|parts| - 1])
  {
    if |parts| > 1 {
      JoinEndsWithLast(parts[1..], sep);
      var tail := Join(parts[1..], sep);
      var s := Join(parts, sep);
      assert s == parts[0] + [sep] + tail;
      assert s[|s| - |tail|..] == tail;
    }
  }

  /** The first piece of `a + z` is `a` when `a` holds no separator and `z` is empty or
      starts with one. */
  lemma SplitFirst(a: string, z: string, sep: char)
    requires sep !in a && (z == [] || z[0] == sep)
    ensures Split(a + z, sep)[0] == a
  {
    var s := a + z;
    if z == [] {
      assert s == a;
    } else {
      IndexOfCharAt(s, |a|, sep);
      assert s[..|a|] == a;
    }
  }

  /** The first piece of a split is a prefix of the text. */
  lemma SplitHead(s: string, sep: char)
    ensures StartsWith(s, Split(s, sep)[0])
  {
    match IndexOfChar(s, sep)
    case None =>
    case Some(k) =>
  }

  /** `indexOf` finds the first occurrence. */
  lemma {:induction false} IndexOfCharAt(s: string, i: nat, c: char)
    requires i < |s| && s[i] == c && forall k :: 0 <= k < i ==> s[k] != c
    ensures IndexOfChar(s, c) == Some(i)
  {
    if i > 0 {
      IndexOfCharAt(s[1..], i - 1, c);
    }
  }

  /** A name that ends in a non-digit followed by digits `d` has `d` as its trailing run. */
  lemma {:induction false} TrailingDigitsOf(p: string, d: string)
    requires |d| > 0 && AllDigits(d) && |p| > 0 && !IsDigit(p[|p| - 1])
    ensures TrailingDigits(p + d) == d
  {
    var s := p + d;
    if |d| == 1 {
      assert s[..|s| - 1] == p;
    } else {
      assert s[..|s| - 1] == p + d[..|d| - 1];
      TrailingDigitsOf(p, d[..|d| - 1]);
    }
  }

  /** A name that ends in a separator followed by a separator-free `w` has `w` as its
      last piece. */
  lemma {:induction false} LastPieceAfter(p: string, w: string, sep: char)
    requires |p| > 0 && p[|p| - 1] == sep && sep !in w
    ensures var parts := Split(p + w, sep); parts[|parts| - 1] == w
    decreases |p|
  {
    var s := p + w;
    var first := FirstSeparator(p, w, sep);
    match IndexOfChar(s, sep)
    case Some(k) =>
      assert k == first < |p|;
      var rest := s[k + 1..];
      var whole := [s[..k]] + Split(rest, sep);
      assert Split(s, sep) == whole;
      if k + 1 == |p| {
        assert rest == w;
      } else {
        assert rest == p[k + 1..] + w;
        LastPieceAfter(p[k + 1..], w, sep);
      }
  }

  /** The first separator of `p + w` lies in `p` when `p` ends with one. */
  lemma FirstSeparator(p: string, w: string, sep: char) returns (k: nat)
    requires |p| > 0 && p[|p| - 1] == sep
    ensures IndexOfChar(p + w, sep) == Some(k) && k < |p|
  {
    var s := p + w;
    assert s[|p| - 1] == sep;
    k := IndexOfChar(s, sep).value;
    assert forall j :: 0 <= j < k ==> s[j] == s[..k][j];
  }

  /** The first non-space character is where the leading white space ends. */
  lemma LeadingSpaceAt(s: string, k: nat)
    requires k < |s| && AllSpace(s[..k]) && !IsSpace(s[k])
    ensures LeadingSpace(s) == k
  {
    var n := LeadingSpace(s);
    assert forall j :: 0 <= j < k ==> s[..k][j] == s[j];
    assert forall j :: 0 <= j < n ==> s[..n][j] == s[j];
  }
}

/**
 * The data-flow diagram editor's snippet splicer (`insertMermaidSnippet` of the DFD
 * editor). Unlike the ERD splicer it edits the buffer's lines in place: a theme line is
 * put first, a configuration block replaces the first existing one and goes after the
 * first theme line, a layout header replaces the first `graph` header and goes after the
 * directives, and anything else is appended. The joined text is then normalised, and
 * plain content that left the buffer without a `graph` header gets `graph TD` inserted.
 */
module DfdSplicer {
  import opened JsText
  import opened Seqs
  import opened Directives

  /** What an empty DFD buffer holds. */
  const MinimalDfd: string := "graph TD\n"
  /** `MinimalDfd.trim()`: the header inserted into a buffer that lacks one. */
  const DefaultHeader: string := "graph TD"
  const GraphKeyword: string := "graph"
  /** The prefix the layout branch looks for when it places a header after a theme. */
  const InitPrefix: string := "%%{init:"

  // ---------------------------------------------------------------------------------
  // Normalisation: `text.replace(/\n{3,}/g, '\n\n').trim()`
  // ---------------------------------------------------------------------------------

  /** The number of newlines `s` starts with. */
  function LeadingNewlines(s: string): (n: nat)
    ensures n <= |s|
    ensures forall k :: 0 <= k < n ==> s[k] == '\n'
    ensures n < |s| ==> s[n] != '\n'
  {
    if |s| > 0 && s[0] == '\n' then 1 + LeadingNewlines(s[1..]) else 0
  }

  /** No three newlines in a row. */
  predicate NoTripleBreak(s: string) {
    forall i :: 0 <= i < |s| - 2 ==> !(s[i] == '\n' && s[i + 1] == '\n' && s[i + 2] == '\n')
  }

  predicate NotBreak(c: char) {
    c != '\n'
  }

  /** The characters of `s` other than newlines, in order. */
  function Visible(s: string): string {
    Filter(s, NotBreak)
  }

  /** `s.replace(/\n{3,}/g, '\n\n')`: the regex is greedy and scans left to right, so
      every maximal run of three or more newlines becomes two and nothing else changes. */
  function CollapseNewlines(s: string): (r: string)
    ensures |r| <= |s|
    ensures NoTripleBreak(r)
    ensures LeadingNewlines(r) == if LeadingNewlines(s) >= 3 then 2 else LeadingNewlines(s)
    ensures Visible(r) == Visible(s)
    decreases |s|
  {
    if |s| == 0 then []
    else if LeadingNewlines(s) >= 3 then
      var n := LeadingNewlines(s);
      var rest := CollapseNewlines(s[n..]);
      NewlinesInvisible(s, n);
      ConsNoTriple('\n', rest);
      ConsNoTriple('\n', ['\n'] + rest);
      assert "\n\n" + rest == ['\n'] + (['\n'] + rest);
      NewlinesInvisible("\n\n" + rest, 2);
      "\n\n" + rest
    else
      var rest := CollapseNewlines(s[1..]);
      VisibleCons(s);
      ConsNoTriple(s[0], rest);
      VisibleCons([s[0]] + rest);
      [s[0]] + rest
  }

  /** `n` newlines. */
  function Newlines(n: nat): (r: string)
    ensures |r| == n && forall k :: 0 <= k < n ==> r[k] == '\n'
  {
    seq(n, k => '\n')
  }

  /** A run of newlines on its own: three or more become two, fewer stay. */
  lemma {:induction false} CollapseRun(n: nat)
    ensures CollapseNewlines(Newlines(n)) == if n >= 3 then "\n\n" else Newlines(n)
  {
    var s := Newlines(n);
    if n >= 3 {
      LeadingAtLeast(s, n);
      assert s[n..] == [];
    } else if n > 0 {
      LeadingAtLeast(s, n);
      assert s[1..] == Newlines(n - 1);
      CollapseRun(n - 1);
      assert s == [s[0]] + Newlines(n - 1);
    }
  }

  /** A character other than a newline in front is kept as it is. */
  lemma CollapseVisibleFirst(c: char, s: string)
    requires c != '\n'
    ensures CollapseNewlines([c] + s) == [c] + CollapseNewlines(s)
  {
    assert ([c] + s)[1..] == s;
  }

  /** No run reaches past a character other than a newline, so the collapse works
      piece by piece when the text is cut just before one. Together with `CollapseRun`
      and `CollapseVisibleFirst` this determines the collapse of every text. */
  lemma {:induction false} CollapseAppend(a: string, b: string)
    requires |b| > 0 && b[0] != '\n'
    ensures CollapseNewlines(a + b) == CollapseNewlines(a) + CollapseNewlines(b)
    decreases |a|
  {
    if |a| == 0 {
      assert a + b == b;
    } else {
      var n := LeadingNewlines(a + b);
      LeadingNewlinesAppend(a, b);
      if n >= 3 {
        assert (a + b)[n..] == a[n..] + b;
        CollapseAppend(a[n..], b);
        CollapseAtRun(a + b);
        CollapseAtRun(a);
        AppendAssociative("\n\n", CollapseNewlines(a[n..]), CollapseNewlines(b));
      } else {
        assert (a + b)[1..] == a[1..] + b;
        CollapseAppend(a[1..], b);
        CollapseAtOther(a + b);
        CollapseAtOther(a);
        AppendAssociative([a[0]], CollapseNewlines(a[1..]), CollapseNewlines(b));
      }
    }
  }

  lemma CollapseAtRun(s: string)
    requires LeadingNewlines(s) >= 3
    ensures CollapseNewlines(s) == "\n\n" + CollapseNewlines(s[LeadingNewlines(s)..])
  {
  }

  lemma CollapseAtOther(s: string)
    requires |s| > 0 && LeadingNewlines(s) < 3
    ensures CollapseNewlines(s) == [s[0]] + CollapseNewlines(s[1..])
  {
  }

  lemma {:induction false} LeadingNewlinesAppend(a: string, b: string)
    requires |b| > 0 && b[0] != '\n'
    ensures LeadingNewlines(a + b) == LeadingNewlines(a)
  {
    if |a| > 0 {
      assert (a + b)[1..] == a[1..] + b;
      LeadingNewlinesAppend(a[1..], b);
    }
  }

  /** One more character in front keeps a text free of triple breaks, as long as it
      does not make a third newline. */
  lemma ConsNoTriple(c: char, rest: string)
    requires NoTripleBreak(rest)
    requires c == '\n' ==> LeadingNewlines(rest) <= 1
    ensures NoTripleBreak([c] + rest)
    ensures LeadingNewlines([c] + rest) == if c == '\n' then 1 + LeadingNewlines(rest) else 0
  {
    var s := [c] + rest;
    assert s[1..] == rest;
    forall i | 1 <= i < |s| - 2
      ensures !(s[i] == '\n' && s[i + 1] == '\n' && s[i + 2] == '\n')
    {
      assert s[i] == rest[i - 1] && s[i + 1] == rest[i] && s[i + 2] == rest[i + 1];
    }
  }

  /** Removing leading newlines does not change what is visible. */
  lemma NewlinesInvisible(s: string, n: nat)
    requires n <= |s| && forall k :: 0 <= k < n ==> s[k] == '\n'
    ensures Visible(s) == Visible(s[n..])
  {
    assert s == s[..n] + s[n..];
    FilterAppend(s[..n], s[n..], NotBreak);
    NoneVisible(s[..n]);
  }

  lemma {:induction false} NoneVisible(s: string)
    requires forall k :: 0 <= k < |s| ==> s[k] == '\n'
    ensures Visible(s) == []
  {
    if |s| > 0 { NoneVisible(s[1..]); }
  }

  lemma VisibleCons(s: string)
    requires |s| > 0
    ensures Visible(s) == Visible([s[0]]) + Visible(s[1..])
  {
    assert s == [s[0]] + s[1..];
    FilterAppend([s[0]], s[1..], NotBreak);
  }

  lemma {:induction false} LeadingAtLeast(s: string, m: nat)
    requires m <= |s| && forall j :: 0 <= j < m ==> s[j] == '\n'
    ensures LeadingNewlines(s) >= m
  {
    if m > 0 {
      assert forall j :: 0 <= j < m - 1 ==> s[1..][j] == '\n';
      LeadingAtLeast(s[1..], m - 1);
    }
  }

  /** The collapse changes exactly the texts that hold a triple break: it is the identity
      on the others and hence idempotent. */
  lemma CollapseIdentity(s: string)
    ensures CollapseNewlines(s) == s <==> NoTripleBreak(s)
  {
    if NoTripleBreak(s) {
      CollapseKeeps(s);
    }
  }

  /** A text free of triple breaks comes through unchanged. */
  lemma {:induction false} CollapseKeeps(s: string)
    requires NoTripleBreak(s)
    ensures CollapseNewlines(s) == s
    decreases |s|
  {
    if |s| > 0 {
      assert LeadingNewlines(s) < 3 by {
        if |s| >= 3 {
          assert !(s[0] == '\n' && s[1] == '\n' && s[2] == '\n');
        }
      }
      assert CollapseNewlines(s[1..]) == s[1..] by {
        SliceNoTriple(s, 1, |s|);
        CollapseKeeps(s[1..]);
      }
      CollapseAtOther(s);
      assert [s[0]] + s[1..] == s;
    }
  }

  lemma CollapseIdempotent(s: string)
    ensures CollapseNewlines(CollapseNewlines(s)) == CollapseNewlines(s)
  {
    CollapseIdentity(CollapseNewlines(s));
  }

  /** A piece of a text free of triple breaks is free of them too. */
  lemma SliceNoTriple(s: string, a: nat, b: nat)
    requires a <= b <= |s| && NoTripleBreak(s)
    ensures NoTripleBreak(s[a..b])
  {
    var t := s[a..b];
    forall i | 0 <= i < |t| - 2
      ensures !(t[i] == '\n' && t[i + 1] == '\n' && t[i + 2] == '\n')
    {
      assert t[i] == s[a + i] && t[i + 1] == s[a + i + 1] && t[i + 2] == s[a + i + 2];
    }
  }

  /** `text.replace(/\n{3,}/g, '\n\n').trim()` */
  function Normalize(text: string): (r: string)
    ensures NoTripleBreak(r)
    ensures r == [] || (!IsSpace(r[0]) && !IsSpace(r[|r| - 1]))
    ensures Normalized(r)
    ensures (exists i :: 0 <= i < |text| && !IsSpace(text[i])) ==> r != []
  {
    var c := CollapseNewlines(text);
    var r := Trim(c);
    TrimNoTriple(c);
    NormalizeKeepsVisible(text, c);
    r
  }

  lemma TrimNoTriple(c: string)
    requires NoTripleBreak(c)
    ensures NoTripleBreak(Trim(c))
  {
    var r := Trim(c);
    SliceNoTriple(c, LeadingSpace(c), LeadingSpace(c) + |r|);
  }

  lemma NormalizeKeepsVisible(text: string, c: string)
    requires c == CollapseNewlines(text)
    ensures (exists i :: 0 <= i < |text| && !IsSpace(text[i])) ==> Trim(c) != []
  {
    if exists i :: 0 <= i < |text| && !IsSpace(text[i]) {
      var i :| 0 <= i < |text| && !IsSpace(text[i]);
      VisibleSurvives(text, c, i);
      BlankIsAllSpace(c);
    }
  }

  /** A character that is not white space survives the collapse. */
  lemma VisibleSurvives(s: string, c: string, i: nat)
    requires c == CollapseNewlines(s) && i < |s| && !IsSpace(s[i])
    ensures !AllSpace(c)
  {
    assert s[i] in Visible(s);
    assert s[i] in Visible(c);
    var j :| 0 <= j < |Visible(c)| && Visible(c)[j] == s[i];
    assert Visible(c)[j] in c;
  }

  // ---------------------------------------------------------------------------------
  // Line tests
  // ---------------------------------------------------------------------------------

  /** A `graph` header line: `/^graph(\s+(TD|LR|RL|BT))?$/i` on the trimmed line. */
  predicate IsGraphHeader(line: string) {
    IsHeader(GraphKeyword, Trim(line))
  }

  /** `/^graph/i` on the trimmed line. */
  predicate MentionsGraph(line: string) {
    StartsWithIgnoreCase(Trim(line), GraphKeyword)
  }

  predicate IsInitLine(line: string) {
    StartsWith(Trim(line), InitPrefix)
  }

  predicate IsMarkLine(line: string) {
    StartsWith(Trim(line), Mark)
  }

  predicate NotTheme(line: string) {
    !IsThemeLine(line)
  }

  /** The buffer the splicer starts from: `content || MINIMAL_DFD_CONTENT`. */
  function Code(content: Option<string>): (r: string)
    ensures r != []
    ensures content.Some? && content.value != [] ==> r == content.value
    ensures content.None? || content.value == [] ==> r == MinimalDfd
  {
    if content.Some? && content.value != [] then content.value else MinimalDfd
  }

  // ---------------------------------------------------------------------------------
  // Theme: drop every theme line, then put the snippet first
  // ---------------------------------------------------------------------------------

  function PlaceTheme(lines: seq<string>, st: string): (r: seq<string>)
    ensures |r| >= 1 && r[0] == st
    ensures forall i :: 1 <= i < |r| ==> !IsThemeLine(r[i])
    ensures forall i :: 0 <= i < |lines| && !IsThemeLine(lines[i]) ==> lines[i] in r[1..]
    ensures IsSubsequence(r[1..], lines)
  {
    var kept := Filter(lines, NotTheme);
    assert ([st] + kept)[1..] == kept;
    [st] + kept
  }

  // ---------------------------------------------------------------------------------
  // Configuration: cut the first block, insert the snippet after the first theme line
  // ---------------------------------------------------------------------------------

  /** The lines `from .. upto - 1` to cut. */
  datatype Cut = Cut(from: nat, upto: nat)

  /** `c` is the first run of `lines` that starts with a line satisfying `open` and
      closes at the first LATER line satisfying `close`; a run that never closes is its
      start line alone. */
  predicate IsFirstRun(lines: seq<string>, open: string -> bool, close: string -> bool, c: Cut) {
    && c.from < c.upto <= |lines|
    && open(lines[c.from])
    && (forall k :: 0 <= k < c.from ==> !open(lines[k]))
    && (forall k :: c.from < k < c.upto - 1 ==> !close(lines[k]))
    && (c.upto > c.from + 1 ==> close(lines[c.upto - 1]))
    && (c.upto == c.from + 1 ==> forall k :: c.from < k < |lines| ==> !close(lines[k]))
  }

  /** The first configuration block: from the first line starting `%% @config` to the
      first later line ending in `%%`. */
  predicate IsFirstBlock(lines: seq<string>, c: Cut) {
    IsFirstRun(lines, StartsConfig, EndsWithMark, c)
  }

  function FirstRun(lines: seq<string>, open: string -> bool, close: string -> bool): (c: Option<Cut>)
    ensures c.None? <==> forall i :: 0 <= i < |lines| ==> !open(lines[i])
    ensures c.Some? ==> IsFirstRun(lines, open, close, c.value)
  {
    match FirstWhere(lines, open)
    case None => None
    case Some(i) =>
      match FirstWhereFrom(lines, close, i + 1)
      case None => Some(Cut(i, i + 1))
      case Some(j) => Some(Cut(i, j + 1))
  }

  function FirstBlock(lines: seq<string>): (c: Option<Cut>)
    ensures c.None? <==> forall i :: 0 <= i < |lines| ==> !StartsConfig(lines[i])
    ensures c.Some? ==> IsFirstBlock(lines, c.value)
  {
    FirstRun(lines, StartsConfig, EndsWithMark)
  }

  function WithoutFirstBlock(lines: seq<string>): (r: seq<string>)
    ensures FirstBlock(lines).None? ==> r == lines
    ensures FirstBlock(lines).Some? ==>
              var c := FirstBlock(lines).value; r == lines[..c.from] + lines[c.upto..]
  {
    match FirstBlock(lines)
    case None => lines
    case Some(c) => lines[..c.from] + lines[c.upto..]
  }

  /** Just after the first theme line, or 0 when there is none. */
  function ThemeSlot(lines: seq<string>): (at: nat)
    ensures at <= |lines|
    ensures at == 0 <==> forall k :: 0 <= k < |lines| ==> !IsThemeLine(lines[k])
    ensures at > 0 ==> IsThemeLine(lines[at - 1]) && forall k :: 0 <= k < at - 1 ==> !IsThemeLine(lines[k])
  {
    match FirstWhere(lines, IsThemeLine)
    case None => 0
    case Some(i) => i + 1
  }

  function PlaceConfig(lines: seq<string>, sl: seq<string>): (r: seq<string>)
    ensures var rest := WithoutFirstBlock(lines);
            var at := ThemeSlot(rest);
            && |r| == |rest| + |sl|
            && r[..at] == rest[..at] && r[at..at + |sl|] == sl && r[at + |sl|..] == rest[at..]
  {
    var rest := WithoutFirstBlock(lines);
    InsertAt(rest, ThemeSlot(rest), sl)
  }

  /** A configuration snippet that is a proper block: a start line, a closing line after
      it, and no closing line in between. */
  predicate IsBlockSnippet(sl: seq<string>) {
    IsRunSnippet(sl, StartsConfig, EndsWithMark)
  }

  predicate IsRunSnippet(sl: seq<string>, open: string -> bool, close: string -> bool) {
    && |sl| >= 2 && open(sl[0]) && close(sl[|sl| - 1])
    && forall k :: 1 <= k < |sl| - 1 ==> !close(sl[k])
  }

  /** Two cuts meeting the same description are the same cut. */
  lemma RunUnique(lines: seq<string>, open: string -> bool, close: string -> bool, x: Cut, y: Cut)
    requires IsFirstRun(lines, open, close, x) && IsFirstRun(lines, open, close, y)
    ensures x == y
  {
    assert x.from == y.from;
  }

  /** A block inserted where no earlier line opens one is the first block afterwards. */
  lemma InsertedRunIsFirst(rest: seq<string>, at: nat, sl: seq<string>, open: string -> bool, close: string -> bool)
    requires at <= |rest| && forall k :: 0 <= k < at ==> !open(rest[k])
    requires IsRunSnippet(sl, open, close)
    ensures IsFirstRun(InsertAt(rest, at, sl), open, close, Cut(at, at + |sl|))
  {
    var r := InsertAt(rest, at, sl);
    assert forall k :: 0 <= k < at ==> r[k] == rest[k];
    assert forall k :: 0 <= k < |sl| ==> r[at + k] == sl[k];
  }

  /** After the insertion, cutting the first run cuts exactly what was inserted. */
  lemma CutInserted(rest: seq<string>, at: nat, sl: seq<string>, open: string -> bool, close: string -> bool)
    requires at <= |rest| && forall k :: 0 <= k < at ==> !open(rest[k])
    requires IsRunSnippet(sl, open, close)
    ensures var r := InsertAt(rest, at, sl);
            && FirstRun(r, open, close) == Some(Cut(at, at + |sl|))
            && r[..at] + r[at + |sl|..] == rest
  {
    var r := InsertAt(rest, at, sl);
    InsertedRunIsFirst(rest, at, sl, open, close);
    RunUnique(r, open, close, FirstRun(r, open, close).value, Cut(at, at + |sl|));
    InsertAtThenRemove(rest, at, sl);
  }

  /** Applying the same configuration block twice is applying it once, provided no
      configuration block is left in front of the insertion point. */
  lemma ConfigTwice(lines: seq<string>, sl: seq<string>)
    requires IsBlockSnippet(sl)
    requires var rest := WithoutFirstBlock(lines);
             forall k :: 0 <= k < ThemeSlot(rest) ==> !StartsConfig(rest[k])
    ensures PlaceConfig(PlaceConfig(lines, sl), sl) == PlaceConfig(lines, sl)
  {
    var rest := WithoutFirstBlock(lines);
    var at := ThemeSlot(rest);
    var r := PlaceConfig(lines, sl);
    assert r == InsertAt(rest, at, sl);
    CutInserted(rest, at, sl, StartsConfig, EndsWithMark);
    assert WithoutFirstBlock(r) == rest;
  }

  // ---------------------------------------------------------------------------------
  // Layout: drop the first `graph` header, insert the snippet after the directives
  // ---------------------------------------------------------------------------------

  /** One line of the block scan: a line opening a block enters it, and inside a block
      a closing line ends it. One line can both open and close. */
  function ScanStep(inBlock: bool, line: string, open: string -> bool, close: string -> bool): bool {
    var b := inBlock || open(line);
    b && !close(line)
  }

  /** Whether the scan is inside a block just before line `k`. */
  function OpenBefore(lines: seq<string>, open: string -> bool, close: string -> bool, inBlock: bool, k: nat): bool
    requires k <= |lines|
  {
    if k == 0 then inBlock else ScanStep(OpenBefore(lines, open, close, inBlock, k - 1), lines[k - 1], open, close)
  }

  /** The scan records line `k` as the end of a block. */
  predicate ClosesAt(lines: seq<string>, open: string -> bool, close: string -> bool, inBlock: bool, k: nat)
    requires k < |lines|
  {
    (OpenBefore(lines, open, close, inBlock, k) || open(lines[k])) && close(lines[k])
  }

  /** Scanning from the second line, with the state the first line leaves, is the same
      scan. */
  lemma {:induction false} OpenBeforeShift(lines: seq<string>, open: string -> bool, close: string -> bool, inBlock: bool, k: nat)
    requires |lines| > 0 && k < |lines|
    ensures OpenBefore(lines, open, close, inBlock, k + 1)
            == OpenBefore(lines[1..], open, close, ScanStep(inBlock, lines[0], open, close), k)
  {
    if k > 0 {
      OpenBeforeShift(lines, open, close, inBlock, k - 1);
      assert lines[1..][k - 1] == lines[k];
    }
  }

  lemma ClosesAtShift(lines: seq<string>, open: string -> bool, close: string -> bool, inBlock: bool, k: nat)
    requires 0 < k < |lines|
    ensures ClosesAt(lines, open, close, inBlock, k)
            == ClosesAt(lines[1..], open, close, ScanStep(inBlock, lines[0], open, close), k - 1)
  {
    OpenBeforeShift(lines, open, close, inBlock, k - 1);
    assert lines[1..][k - 1] == lines[k];
  }

  /** The index of the last line that closes a block, found by the line-by-line scan. */
  function LastRunEnd(lines: seq<string>, open: string -> bool, close: string -> bool, inBlock: bool): (r: Option<nat>)
    ensures r.Some? ==> r.value < |lines| && close(lines[r.value])
    ensures !inBlock && (forall k :: 0 <= k < |lines| ==> !open(lines[k])) ==> r.None?
  {
    if |lines| == 0 then None
    else
      var b := inBlock || open(lines[0]);
      var ends := b && close(lines[0]);
      match LastRunEnd(lines[1..], open, close, b && !ends)
      case Some(k) => Some(k + 1)
      case None => if ends then Some(0) else None
  }

  /** `LastRunEnd` finds the last line the scan records as a block end, and finds none
      exactly when the scan records none. */
  lemma {:induction false} LastRunEndIsLast(lines: seq<string>, open: string -> bool, close: string -> bool, inBlock: bool)
    ensures var r := LastRunEnd(lines, open, close, inBlock);
            && (r.Some? ==> r.value < |lines| && ClosesAt(lines, open, close, inBlock, r.value))
            && (forall k :: 0 <= k < |lines| && (r.None? || r.value < k) ==> !ClosesAt(lines, open, close, inBlock, k))
  {
    if |lines| > 0 {
      var next := ScanStep(inBlock, lines[0], open, close);
      LastRunEndIsLast(lines[1..], open, close, next);
      var r := LastRunEnd(lines, open, close, inBlock);
      var tail := LastRunEnd(lines[1..], open, close, next);
      assert r == if tail.Some? then Some(tail.value + 1)
                  else if (inBlock || open(lines[0])) && close(lines[0]) then Some(0) else None;
      forall k | 0 < k < |lines|
        ensures ClosesAt(lines, open, close, inBlock, k) == ClosesAt(lines[1..], open, close, next, k - 1)
      {
        ClosesAtShift(lines, open, close, inBlock, k);
      }
    }
  }

  /** Where a layout header goes: after the last closed configuration block, else after
      the last `%%{init:` line, else at the top. */
  function LayoutSlot(lines: seq<string>): nat {
    SlotAfter(lines, StartsConfig, EndsWithMark, IsInitLine)
  }

  /** Just after the last line that closes an `open` … `close` run, else just after the
      last `init` line, else 0. */
  function SlotAfter(lines: seq<string>, open: string -> bool, close: string -> bool, init: string -> bool): (at: nat)
    ensures at <= |lines|
    ensures at > 0 ==> close(lines[at - 1]) || init(lines[at - 1])
    ensures at == 0 ==> forall k :: 0 <= k < |lines| ==> !init(lines[k])
    ensures (forall k :: 0 <= k < |lines| ==> !open(lines[k])) ==>
              forall k :: at <= k < |lines| ==> !init(lines[k])
  {
    var e := LastRunEnd(lines, open, close, false);
    var t := LastWhere(lines, init);
    if e.Some? then e.value + 1 else if t.Some? then t.value + 1 else 0
  }

  /** When some block is closed the slot follows the last block end; when none is, it
      follows the last `init` line, or is the top when there is none. */
  lemma SlotAfterLast(lines: seq<string>, open: string -> bool, close: string -> bool, init: string -> bool)
    ensures var at := SlotAfter(lines, open, close, init);
            && ((exists k :: 0 <= k < |lines| && ClosesAt(lines, open, close, false, k)) ==>
                  && at > 0 && ClosesAt(lines, open, close, false, at - 1)
                  && forall k :: at <= k < |lines| ==> !ClosesAt(lines, open, close, false, k))
            && ((forall k :: 0 <= k < |lines| ==> !ClosesAt(lines, open, close, false, k)) ==>
                  && (at > 0 ==> init(lines[at - 1]))
                  && forall k :: at <= k < |lines| ==> !init(lines[k]))
  {
    LastRunEndIsLast(lines, open, close, false);
  }

  function PlaceLayout(lines: seq<string>, st: string): (r: seq<string>)
    ensures var rest := RemoveFirst(lines, IsGraphHeader);
            var at := LayoutSlot(rest);
            && |r| == |rest| + 1
            && r[..at] == rest[..at] && r[at] == st && r[at + 1..] == rest[at..]
  {
    var rest := RemoveFirst(lines, IsGraphHeader);
    InsertAt(rest, LayoutSlot(rest), [st])
  }

  /** Only the first existing header is replaced: a buffer with several headers keeps
      all but one of them next to the new one. */
  lemma LayoutHeaderCount(lines: seq<string>, st: string)
    requires IsGraphHeader(st)
    ensures var n := Count(lines, IsGraphHeader);
            Count(PlaceLayout(lines, st), IsGraphHeader) == if n > 0 then n else 1
  {
    var rest := RemoveFirst(lines, IsGraphHeader);
    InsertOneCount(rest, LayoutSlot(rest), st, IsGraphHeader);
  }

  lemma InsertOneCount(rest: seq<string>, at: nat, x: string, p: string -> bool)
    requires at <= |rest| && p(x)
    ensures Count(InsertAt(rest, at, [x]), p) == Count(rest, p) + 1
  {
    assert InsertAt(rest, at, [x]) == rest[..at] + [x] + rest[at..];
    assert rest == rest[..at] + rest[at..];
    CountAppend(rest[..at], rest[at..], p);
    CountAppend(rest[..at] + [x], rest[at..], p);
    CountAppend(rest[..at], [x], p);
  }

  /** A buffer with at most one header has exactly one after a layout snippet. */
  lemma LayoutOnce(lines: seq<string>, st: string)
    requires IsGraphHeader(st) && Count(lines, IsGraphHeader) <= 1
    ensures Count(PlaceLayout(lines, st), IsGraphHeader) == 1
  {
    LayoutHeaderCount(lines, st);
  }

  // ---------------------------------------------------------------------------------
  // Comment or plain content: append at the end
  // ---------------------------------------------------------------------------------

  /** `graph TD` is a visible, trimmed header line. */
  lemma DefaultHeaderFacts()
    ensures Trim(DefaultHeader) == DefaultHeader && !IsBlank(DefaultHeader)
    ensures MentionsGraph(DefaultHeader) && IsGraphHeader(DefaultHeader)
  {
    TrimVisible(DefaultHeader);
    assert LowerAsciiString(DefaultHeader[..|GraphKeyword|]) == LowerAsciiString(GraphKeyword) by {
      assert DefaultHeader[..|GraphKeyword|] == GraphKeyword;
    }
    var rest := DefaultHeader[|GraphKeyword|..];
    assert rest == " TD";
    assert rest[..|rest| - 2] == " " && rest[|rest| - 2..] == "TD";
    assert LowerAsciiString("TD") == "td";
  }

  /** The snippet's lines go after the buffer's, behind one blank separator unless the
      last line is blank already or the snippet is a comment. A buffer with no lines at
      all would first get the default header; `split` never yields one. */
  function AppendSnippet(lines: seq<string>, sl: seq<string>, isComment: bool): (r: seq<string>)
    ensures |r| >= |lines| + |sl|
    ensures r[..|lines|] == lines
    ensures r[|r| - |sl|..] == sl
    ensures |lines| > 0 ==>
              && (|r| == |lines| + |sl| || |r| == |lines| + |sl| + 1)
              && (|r| == |lines| + |sl| + 1 <==> !IsBlank(lines[|lines| - 1]) && !isComment)
              && (|r| == |lines| + |sl| + 1 ==> r[|lines|] == [])
    ensures |lines| == 0 ==> r == (if isComment then [] else [DefaultHeader, []]) + sl
  {
    var base := if |lines| == 0 && !isComment then [DefaultHeader] else lines;
    DefaultHeaderFacts();
    var sep: seq<string> := if |base| > 0 && !IsBlank(base[|base| - 1]) && !isComment then [[]] else [];
    assert (base + sep + sl)[|base + sep|..] == sl;
    base + sep + sl
  }

  // ---------------------------------------------------------------------------------
  // The missing-header fallback for plain content
  // ---------------------------------------------------------------------------------

  predicate NoLineBreak(s: string) {
    forall k :: 0 <= k < |s| ==> !IsLineTerminator(s[k])
  }

  /** `t` splits as white space, `%%`, `t[i + 2 .. j]`, `%%`, white space. */
  predicate SegmentAt(t: string, i: nat, j: nat) {
    && i + 2 <= j && j + 2 <= |t|
    && AllSpace(t[..i]) && t[i..i + 2] == Mark && NoLineBreak(t[i + 2..j])
    && t[j..j + 2] == Mark && AllSpace(t[j + 2..])
  }

  /** The whole of `t` matches `\s*%%.*%%\s*`; `.` does not match a line terminator. */
  predicate IsDirectiveSegment(t: string) {
    exists i, j | 0 <= i <= j <= |t| :: SegmentAt(t, i, j)
  }

  /** `/^(\s*%%.*%%\s*)*graph/i`: some run of directive segments, then `graph` in any
      letter case. Each segment is at least four characters long. */
  predicate LeadsToGraph(s: string)
    ensures LeadsToGraph(s) ==> |s| >= |GraphKeyword|
    decreases |s|
  {
    || StartsWithIgnoreCase(s, GraphKeyword)
    || exists k | 4 <= k <= |s| :: IsDirectiveSegment(s[..k]) && LeadsToGraph(s[k..])
  }

  /** A text that starts with a visible character other than `%` or a `g` does not lead
      to a header. */
  lemma PlainStartNoGraph(s: string)
    requires |s| > 0 && !IsSpace(s[0]) && s[0] != '%' && LowerAscii(s[0]) != 'g'
    ensures !LeadsToGraph(s)
  {
    assert LowerAsciiString(GraphKeyword)[0] == 'g';
    assert |GraphKeyword| <= |s| ==> LowerAsciiString(s[..|GraphKeyword|])[0] == LowerAscii(s[0]);
    forall k | 4 <= k <= |s| ensures !IsDirectiveSegment(s[..k]) {
      forall i, j | 0 <= i <= j <= k ensures !SegmentAt(s[..k], i, j) {
        if i == 0 {
          assert s[..k][0..2][0] == s[0];
        } else {
          assert s[..k][..i][0] == s[0];
        }
      }
    }
  }

  function LeadingMarkLines(lines: seq<string>): (p: nat)
    ensures p <= |lines|
    ensures forall k :: 0 <= k < p ==> IsMarkLine(lines[k])
    ensures p < |lines| ==> !IsMarkLine(lines[p])
  {
    match FirstWhere(lines, NotMarkLine)
    case None => |lines|
    case Some(i) => i
  }

  predicate NotMarkLine(line: string) {
    !IsMarkLine(line)
  }

  /** `graph TD` inserted after the leading `%%` lines, unless some line already starts
      with `graph`. */
  function WithGraphHeader(lines: seq<string>): (r: seq<string>)
    ensures exists k :: 0 <= k < |r| && MentionsGraph(r[k])
    ensures (exists k :: 0 <= k < |lines| && MentionsGraph(lines[k])) ==> r == lines
    ensures !(exists k :: 0 <= k < |lines| && MentionsGraph(lines[k])) ==>
              var p := LeadingMarkLines(lines);
              |r| == |lines| + 1 && r[..p] == lines[..p] && r[p] == DefaultHeader && r[p + 1..] == lines[p..]
  {
    if exists k :: 0 <= k < |lines| && MentionsGraph(lines[k]) then lines
    else
      var p := LeadingMarkLines(lines);
      var r := InsertAt(lines, p, [DefaultHeader]);
      assert r[p] == DefaultHeader by {
        assert r[p..p + 1] == [DefaultHeader];
      }
      assert MentionsGraph(r[p]) by {
        DefaultHeaderFacts();
      }
      r
  }

  // ---------------------------------------------------------------------------------
  // The whole insertion
  // ---------------------------------------------------------------------------------

  /** The buffer's lines after the branch the snippet's kind selects. */
  function Edited(kind: SnippetKind, lines: seq<string>, st: string): (r: seq<string>)
    requires |lines| >= 1
    ensures |r| >= 1
  {
    match kind
    case Theme => PlaceTheme(lines, st)
    case Config => PlaceConfig(lines, Split(st, '\n'))
    case Layout => PlaceLayout(lines, st)
    case Comment => AppendSnippet(lines, Split(st, '\n'), true)
    case Generic => AppendSnippet(lines, Split(st, '\n'), false)
  }

  function Kind(snippet: string): SnippetKind {
    Classify(Trim(snippet), GraphKeyword)
  }

  function EditedLines(content: Option<string>, snippet: string): (r: seq<string>)
    ensures |r| >= 1
  {
    Edited(Kind(snippet), Split(Code(content), '\n'), Trim(snippet))
  }

  /** Visible at both ends and free of triple breaks. */
  predicate Normalized(r: string) {
    NoTripleBreak(r) && (r == [] || (!IsSpace(r[0]) && !IsSpace(r[|r| - 1])))
  }

  /** The new buffer. It is either the minimal diagram or normalised, and plain content
      never leaves it empty. */
  function Insert(content: Option<string>, snippet: string): (r: string)
    ensures r == MinimalDfd || Normalized(r)
    ensures Kind(snippet) == Generic ==> r != []
  {
    Finish(Kind(snippet), EditedLines(content, snippet))
  }

  /** The text written back for the edited lines. */
  function Finish(kind: SnippetKind, lines: seq<string>): (r: string)
    ensures r == MinimalDfd || Normalized(r)
    ensures kind == Generic ==> r != []
  {
    if kind != Generic then Normalize(Join(lines, '\n')) else FinishPlain(lines)
  }

  /** For plain content the text is never empty, and it gets a `graph TD` header when it
      fails the header test. */
  function FinishPlain(lines: seq<string>): (r: string)
    ensures r == MinimalDfd || Normalized(r)
    ensures r != []
  {
    var text := Normalize(Join(lines, '\n'));
    if text == [] then MinimalDfd
    else if LeadsToGraph(text) then text
    else Refinish(lines)
  }

  /** The buffer normalised again after the header fallback. */
  function Refinish(lines: seq<string>): (r: string)
    ensures Normalized(r) && r != []
  {
    var fixed := WithGraphHeader(lines);
    HeaderMakesVisible(fixed);
    Normalize(Join(fixed, '\n'))
  }

  /** A buffer with a `graph` line normalises to something non-empty. */
  lemma HeaderMakesVisible(lines: seq<string>)
    requires exists k :: 0 <= k < |lines| && MentionsGraph(lines[k])
    ensures Normalize(Join(lines, '\n')) != []
  {
    var k :| 0 <= k < |lines| && MentionsGraph(lines[k]);
    assert Trim(lines[k]) != [];
    VisibleLine(lines, k);
  }

  /** A line with a visible character makes the joined text hold one. */
  lemma VisibleLine(lines: seq<string>, k: nat)
    requires k < |lines| && Trim(lines[k]) != []
    ensures exists i :: 0 <= i < |Join(lines, '\n')| && !IsSpace(Join(lines, '\n')[i])
  {
    var l := lines[k];
    var a := LeadingSpace(l);
    assert Trim(l)[0] == l[a];
    JoinContains(lines, k, '\n');
    var s := Join(lines, '\n');
    var o: nat :| o <= |s| && OccursAt(s, l, o);
    assert s[o..o + |l|][a] == l[a];
  }

  /** Every line occurs in the joined text. */
  lemma {:induction false} JoinContains(parts: seq<string>, k: nat, sep: char)
    requires k < |parts|
    ensures Contains(Join(parts, sep), parts[k])
  {
    var s := Join(parts, sep);
    if |parts| == 1 || k == 0 {
      JoinStartsWithFirst(parts, sep);
      assert OccursAt(s, parts[0], 0);
    } else {
      var tail := Join(parts[1..], sep);
      assert s == parts[0] + [sep] + tail;
      JoinContains(parts[1..], k - 1, sep);
      var o: nat :| o <= |tail| && OccursAt(tail, parts[k], o);
      var o2 := |parts[0]| + 1 + o;
      assert s[o2..o2 + |parts[k]|] == tail[o..o + |parts[k]|];
      assert OccursAt(s, parts[k], o2);
    }
  }

  // ---------------------------------------------------------------------------------
  // What the normalisation does to lines
  // ---------------------------------------------------------------------------------

  /** Lines that survive normalisation unchanged: no line holds a newline, no two blank
      lines are adjacent, and the first and last lines are visible at the outer ends. */
  predicate Tidy(lines: seq<string>) {
    && |lines| >= 1
    && |lines[0]| > 0 && !IsSpace(lines[0][0])
    && |lines[|lines| - 1]| > 0 && !IsSpace(lines[|lines| - 1][|lines[|lines| - 1]| - 1])
    && (forall i :: 0 <= i < |lines| ==> '\n' !in lines[i])
    && (forall i :: 0 <= i < |lines| - 1 ==> lines[i] != [] || lines[i + 1] != [])
  }

  /** A newline-free prefix neither creates a triple break nor leaves a leading newline. */
  lemma PrefixNoTriple(a: string, x: string)
    requires '\n' !in a && NoTripleBreak(x)
    ensures NoTripleBreak(a + x)
    ensures LeadingNewlines(a + x) == if a == [] then LeadingNewlines(x) else 0
  {
    var s := a + x;
    forall i | 0 <= i < |s| - 2
      ensures !(s[i] == '\n' && s[i + 1] == '\n' && s[i + 2] == '\n')
    {
      if i < |a| {
        assert s[i] == a[i];
      } else {
        assert s[i] == x[i - |a|] && s[i + 1] == x[i - |a| + 1] && s[i + 2] == x[i - |a| + 2];
      }
    }
    if a == [] {
      assert s == x;
    } else {
      assert s[0] == a[0];
    }
  }

  /** The lines of a run with no two adjacent blank lines join to a text free of triple
      breaks; it starts with a newline only when its first line is empty. */
  lemma {:induction false} JoinNoTriple(lines: seq<string>)
    requires |lines| >= 1 && lines[|lines| - 1] != []
    requires forall i :: 0 <= i < |lines| ==> '\n' !in lines[i]
    requires forall i :: 0 <= i < |lines| - 1 ==> lines[i] != [] || lines[i + 1] != []
    ensures NoTripleBreak(Join(lines, '\n'))
    ensures LeadingNewlines(Join(lines, '\n')) <= 1
    ensures lines[0] != [] ==> LeadingNewlines(Join(lines, '\n')) == 0
  {
    var s := Join(lines, '\n');
    if |lines| == 1 {
      PrefixNoTriple(lines[0], []);
      assert s == lines[0] + [];
    } else {
      var rest := lines[1..];
      var tail := Join(rest, '\n');
      assert forall i :: 0 <= i < |rest| ==> rest[i] == lines[i + 1];
      JoinNoTriple(rest);
      ConsNoTriple('\n', tail);
      var x := ['\n'] + tail;
      assert s == lines[0] + x;
      PrefixNoTriple(lines[0], x);
      if lines[0] == [] {
        assert rest[0] != [];
      }
    }
  }

  /** Tidy lines come through the normalisation unchanged. */
  lemma NormalizeTidy(lines: seq<string>)
    requires Tidy(lines)
    ensures Normalize(Join(lines, '\n')) == Join(lines, '\n')
    ensures Split(Normalize(Join(lines, '\n')), '\n') == lines
  {
    var s := Join(lines, '\n');
    JoinNoTriple(lines);
    CollapseIdentity(s);
    JoinStartsWithFirst(lines, '\n');
    JoinEndsWithLast(lines, '\n');
    var last := lines[|lines| - 1];
    assert s[|s| - 1] == last[|last| - 1];
    assert s[0] == lines[0][0];
    TrimVisible(s);
    SplitJoin(lines, '\n');
  }

  /** One step of the collapse at a character that is not a newline. */
  lemma CollapseStep(s: string)
    requires |s| > 0 && s[0] != '\n'
    ensures CollapseNewlines(s) == [s[0]] + CollapseNewlines(s[1..])
  {
    assert LeadingNewlines(s) == 0;
  }

  /** The collapse passes a newline-free prefix through untouched. */
  lemma {:induction false} CollapseAfterLine(a: string, x: string)
    requires '\n' !in a
    ensures CollapseNewlines(a + x) == a + CollapseNewlines(x)
    decreases |a|
  {
    if |a| > 0 {
      var s := a + x;
      assert s[0] == a[0] && s[1..] == a[1..] + x;
      CollapseStep(s);
      CollapseAfterLine(a[1..], x);
      assert [a[0]] + a[1..] == a;
    } else {
      assert a + x == x;
    }
  }

  /** Trimming the end of `a + y` keeps all of `a` when `a` ends visibly. */
  lemma TrimEndKeeps(a: string, y: string)
    requires |a| > 0 && !IsSpace(a[|a| - 1])
    ensures |TrimEnd(a + y)| >= |a|
    ensures TrimEnd(a + y) == a + y[..|TrimEnd(a + y)| - |a|]
  {
    var s := a + y;
    var r := TrimEnd(s);
    assert forall k :: |r| <= k < |s| ==> s[k] == s[|r|..][k - |r|];
    assert s[|a| - 1] == a[|a| - 1];
    assert r == s[..|r|];
  }

  /** Normalising keeps a visible, newline-free first line as the first line. */
  lemma NormalizeFirstLine(lines: seq<string>)
    requires |lines| >= 1 && '\n' !in lines[0]
    requires |lines[0]| > 0 && !IsSpace(lines[0][0]) && !IsSpace(lines[0][|lines[0]| - 1])
    ensures Split(Normalize(Join(lines, '\n')), '\n')[0] == lines[0]
  {
    var st := lines[0];
    var j := Join(lines, '\n');
    var x := j[|st|..];
    if |lines| == 1 {
      assert j == st;
    } else {
      assert j == st + ['\n'] + Join(lines[1..], '\n');
      assert x == ['\n'] + Join(lines[1..], '\n');
    }
    assert j == st + x;
    NormalizeAfterLine(st, x);
    FirstPiece(Normalize(j), st);
  }

  lemma FirstPiece(n: string, st: string)
    requires '\n' !in st && |n| >= |st| && n[..|st|] == st && (|n| == |st| || n[|st|] == '\n')
    ensures Split(n, '\n')[0] == st
  {
    assert n == st + n[|st|..];
    SplitFirst(st, n[|st|..], '\n');
  }

  /** Normalising a visible, newline-free line followed by nothing or by a line break
      keeps the line and the break after it. */
  lemma NormalizeAfterLine(st: string, x: string)
    requires '\n' !in st && |st| > 0 && !IsSpace(st[0]) && !IsSpace(st[|st| - 1])
    requires x == [] || x[0] == '\n'
    ensures var n := Normalize(st + x);
            |n| >= |st| && n[..|st|] == st && (|n| == |st| || n[|st|] == '\n')
  {
    CollapseAfterLine(st, x);
    var y := CollapseNewlines(x);
    assert y == [] || y[0] == '\n' by {
      assert x == [] || LeadingNewlines(x) >= 1;
    }
    var c := st + y;
    assert LeadingSpace(c) == 0 by { assert c[0] == st[0]; }
    assert TrimStart(c) == c;
    TrimEndKeeps(st, y);
  }

  /** A theme snippet on one line is the first line of the new buffer, whatever the
      buffer held before. */
  lemma InsertThemeFirst(content: Option<string>, snippet: string)
    requires Kind(snippet) == Theme && '\n' !in Trim(snippet)
    ensures Split(Insert(content, snippet), '\n')[0] == Trim(snippet)
  {
    var e := EditedLines(content, snippet);
    DirectiveText(content, snippet);
    ThemeLeads(content, snippet);
    NormalizeFirstLine(e);
  }

  /** A directive or comment is written back as the normalised edited lines. */
  lemma DirectiveText(content: Option<string>, snippet: string)
    requires Kind(snippet) != Generic
    ensures Insert(content, snippet) == Normalize(Join(EditedLines(content, snippet), '\n'))
  {
  }

  lemma ThemeLeads(content: Option<string>, snippet: string)
    requires Kind(snippet) == Theme
    ensures var e := EditedLines(content, snippet);
            var st := Trim(snippet);
            e[0] == st && |st| > 0 && !IsSpace(st[0]) && !IsSpace(st[|st| - 1])
  {
    var st := Trim(snippet);
    assert StartsWith(st, ThemePrefix);
    assert st[0] == ThemePrefix[0] == '%';
    var lines := Split(Code(content), '\n');
    assert EditedLines(content, snippet) == PlaceTheme(lines, st);
  }

  /** With tidy edited lines, a directive or a comment leaves exactly the edited lines. */
  lemma InsertTidy(content: Option<string>, snippet: string)
    requires Kind(snippet) != Generic
    requires Tidy(EditedLines(content, snippet))
    ensures Split(Insert(content, snippet), '\n') == EditedLines(content, snippet)
  {
    NormalizeTidy(EditedLines(content, snippet));
  }

  /** With tidy edited lines, plain content leaves exactly the edited lines when they
      already hold a `graph` line or the text passes the header test. */
  lemma InsertPlainTidy(content: Option<string>, snippet: string)
    requires Kind(snippet) == Generic
    requires Tidy(EditedLines(content, snippet))
    requires var e := EditedLines(content, snippet);
             (exists k :: 0 <= k < |e| && MentionsGraph(e[k])) || LeadsToGraph(Join(e, '\n'))
    ensures Split(Insert(content, snippet), '\n') == EditedLines(content, snippet)
  {
    FinishPlainTidy(EditedLines(content, snippet));
  }

  lemma FinishPlainTidy(e: seq<string>)
    requires Tidy(e)
    requires (exists k :: 0 <= k < |e| && MentionsGraph(e[k])) || LeadsToGraph(Join(e, '\n'))
    ensures Split(Finish(Generic, e), '\n') == e
  {
    NormalizeTidy(e);
    TidyJoinVisible(e);
    FinishPlainIs(e);
  }

  lemma TidyJoinVisible(e: seq<string>)
    requires Tidy(e)
    ensures Join(e, '\n') != []
  {
    JoinStartsWithFirst(e, '\n');
  }

  /** Plain content is written back as its normalised text when that passes the header
      test or already holds a `graph` line. */
  lemma FinishPlainIs(e: seq<string>)
    requires Normalize(Join(e, '\n')) != []
    requires LeadsToGraph(Normalize(Join(e, '\n'))) || WithGraphHeader(e) == e
    ensures Finish(Generic, e) == Normalize(Join(e, '\n'))
  {
  }

  /** With tidy edited lines that fail the header test, plain content leaves the edited
      lines with `graph TD` after their leading `%%` lines (when no line starts with
      `graph`). */
  lemma InsertHeaderAdded(content: Option<string>, snippet: string)
    requires Kind(snippet) == Generic
    requires var e := EditedLines(content, snippet);
             Tidy(e) && Tidy(WithGraphHeader(e)) && !LeadsToGraph(Join(e, '\n'))
    ensures Split(Insert(content, snippet), '\n') == WithGraphHeader(EditedLines(content, snippet))
  {
    FinishHeaderAdded(EditedLines(content, snippet));
  }

  lemma FinishHeaderAdded(e: seq<string>)
    requires Tidy(e) && Tidy(WithGraphHeader(e)) && !LeadsToGraph(Join(e, '\n'))
    ensures Split(Finish(Generic, e), '\n') == WithGraphHeader(e)
  {
    NormalizeTidy(e);
    NormalizeTidy(WithGraphHeader(e));
    JoinStartsWithFirst(e, '\n');
  }

  /** With tidy edited lines a theme snippet is the first line and no other line is a
      theme line; the other lines are the old ones, in order. */
  lemma InsertThemeTidy(content: Option<string>, snippet: string)
    requires Kind(snippet) == Theme && Tidy(EditedLines(content, snippet))
    ensures var out := Split(Insert(content, snippet), '\n');
            && out[0] == Trim(snippet)
            && (forall i :: 1 <= i < |out| ==> !IsThemeLine(out[i]))
            && IsSubsequence(out[1..], Split(Code(content), '\n'))
  {
    InsertTidy(content, snippet);
    assert EditedLines(content, snippet) == PlaceTheme(Split(Code(content), '\n'), Trim(snippet));
  }

  /** With tidy edited lines a layout snippet leaves exactly one header more than the
      buffer had, less the one it replaced. */
  lemma InsertLayoutTidy(content: Option<string>, snippet: string)
    requires Kind(snippet) == Layout && Tidy(EditedLines(content, snippet))
    ensures var n := Count(Split(Code(content), '\n'), IsGraphHeader);
            Count(Split(Insert(content, snippet), '\n'), IsGraphHeader) == if n > 0 then n else 1
  {
    InsertTidy(content, snippet);
    var st := Trim(snippet);
    TrimTwice(snippet);
    assert IsGraphHeader(st);
    assert EditedLines(content, snippet) == PlaceLayout(Split(Code(content), '\n'), st);
    LayoutHeaderCount(Split(Code(content), '\n'), st);
  }

  /** Plain content whose tidy edited lines start with ordinary text and hold no `graph`
      line gets `graph TD` as its first line. */
  lemma InsertHeaderOnTop(content: Option<string>, snippet: string)
    requires Kind(snippet) == Generic
    requires var e := EditedLines(content, snippet);
             && Tidy(e) && e[0][0] != '%' && LowerAscii(e[0][0]) != 'g'
             && forall k :: 0 <= k < |e| ==> !MentionsGraph(e[k])
    ensures Split(Insert(content, snippet), '\n') == [DefaultHeader] + EditedLines(content, snippet)
  {
    var e := EditedLines(content, snippet);
    HeaderOnTop(e);
    FinishHeaderAdded(e);
  }

  lemma HeaderOnTop(e: seq<string>)
    requires Tidy(e) && e[0][0] != '%' && LowerAscii(e[0][0]) != 'g'
    requires forall k :: 0 <= k < |e| ==> !MentionsGraph(e[k])
    ensures WithGraphHeader(e) == [DefaultHeader] + e
    ensures Tidy(WithGraphHeader(e)) && !LeadsToGraph(Join(e, '\n'))
  {
    PlainFirstLine(e[0]);
    assert LeadingMarkLines(e) == 0;
    assert WithGraphHeader(e) == [DefaultHeader] + e;
    HeaderTidy(e);
    JoinStartsWithFirst(e, '\n');
    PlainStartNoGraph(Join(e, '\n'));
  }

  /** A line that starts with a visible character other than `%` is no `%%` line. */
  lemma PlainFirstLine(line: string)
    requires |line| > 0 && !IsSpace(line[0]) && line[0] != '%'
    ensures !IsMarkLine(line)
  {
    assert LeadingSpace(line) == 0;
    assert Trim(line)[0] == line[0];
  }

  /** `graph TD` on top of tidy lines keeps them tidy. */
  lemma HeaderTidy(e: seq<string>)
    requires Tidy(e)
    ensures Tidy([DefaultHeader] + e)
  {
    var r := [DefaultHeader] + e;
    assert '\n' !in DefaultHeader;
    assert forall i :: 1 <= i < |r| ==> r[i] == e[i - 1];
  }
}

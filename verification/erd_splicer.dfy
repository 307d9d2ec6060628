/**
 * The ER diagram editor's snippet splicer (`insertMermaidSnippet` of the manual ERD
 * editor). A snippet is sorted as a theme directive, a configuration block, an
 * `erDiagram` layout header, a comment or plain content. A directive rebuilds the buffer
 * in a fixed order: one theme line, the configuration block, one header, then every other
 * line. A comment or plain content is appended at the end.
 */
module ErdSplicer {
  import opened JsText
  import opened Seqs
  import opened Directives

  /** What an emptied ERD buffer holds. */
  const MinimalErd: string := "erDiagram\n"
  /** `MinimalErd.trim()`: the default header line. */
  const ErdKeyword: string := "erDiagram"

  predicate IsErdHeader(line: string) {
    IsHeader(ErdKeyword, Trim(line))
  }

  function MapTrimEnd(lines: seq<string>): (r: seq<string>)
    ensures |r| == |lines|
    ensures forall i :: 0 <= i < |r| ==> r[i] == TrimEnd(lines[i])
  {
    seq(|lines|, i requires 0 <= i < |lines| => TrimEnd(lines[i]))
  }

  function MapTrim(lines: seq<string>): (r: seq<string>)
    ensures |r| == |lines|
    ensures forall i :: 0 <= i < |r| ==> r[i] == Trim(lines[i])
  {
    seq(|lines|, i requires 0 <= i < |lines| => Trim(lines[i]))
  }

  /** The lines of a trimmed snippet, each right-trimmed. */
  function SnippetLines(st: string): seq<string> {
    MapTrimEnd(Split(st, '\n'))
  }

  /** The result of the `%% @config` … `%%` line filter: the lines it keeps, and the
      trimmed lines of the blocks it takes out. */
  datatype Scan = Scan(kept: seq<string>, block: seq<string>)

  /** The configuration-block filter. A line starting `%% @config` opens a block and is
      taken out; inside a block every line is taken out, and the first one ending in `%%`
      closes it; outside a block a line is kept. */
  function ConfigScan(lines: seq<string>, inBlock: bool): (r: Scan)
    ensures |r.kept| + |r.block| == |lines|
    ensures forall i :: 0 <= i < |r.kept| ==> !StartsConfig(r.kept[i])
    ensures !inBlock && (forall i :: 0 <= i < |lines| ==> !StartsConfig(lines[i])) ==> r == Scan(lines, [])
  {
    if |lines| == 0 then Scan([], [])
    else
      var opens := StartsConfig(lines[0]);
      var rest := ConfigScan(lines[1..], opens || (inBlock && !EndsWithMark(lines[0])));
      var r := if opens || inBlock then Scan(rest.kept, [Trim(lines[0])] + rest.block)
               else Scan([lines[0]] + rest.kept, rest.block);
      ConfigScanStepFacts(lines, inBlock, rest, r);
      r
  }

  /** The three facts of the filter's contract carry over one step. */
  lemma ConfigScanStepFacts(lines: seq<string>, inBlock: bool, rest: Scan, r: Scan)
    requires |lines| > 0
    requires |rest.kept| + |rest.block| == |lines| - 1
    requires forall i :: 0 <= i < |rest.kept| ==> !StartsConfig(rest.kept[i])
    requires var next := StartsConfig(lines[0]) || (inBlock && !EndsWithMark(lines[0]));
             !next && NoConfigStart(lines[1..]) ==> rest == Scan(lines[1..], [])
    requires r == if StartsConfig(lines[0]) || inBlock then Scan(rest.kept, [Trim(lines[0])] + rest.block)
                  else Scan([lines[0]] + rest.kept, rest.block)
    ensures |r.kept| + |r.block| == |lines|
    ensures forall i :: 0 <= i < |r.kept| ==> !StartsConfig(r.kept[i])
    ensures !inBlock && NoConfigStart(lines) ==> r == Scan(lines, [])
  {
    NoConfigStartTail(lines);
    if !(StartsConfig(lines[0]) || inBlock) {
      forall i | 0 <= i < |r.kept| ensures !StartsConfig(r.kept[i]) {
        if i > 0 { assert r.kept[i] == rest.kept[i - 1]; }
      }
    }
  }

  lemma NoConfigStartTail(lines: seq<string>)
    requires |lines| > 0
    ensures NoConfigStart(lines) ==> NoConfigStart(lines[1..]) && lines == [lines[0]] + lines[1..]
  {
    if NoConfigStart(lines) {
      forall i | 0 <= i < |lines| - 1 ensures !StartsConfig(lines[1..][i]) {
        assert lines[1..][i] == lines[i + 1];
      }
    }
  }

  /** The filter keeps the other lines in their order. */
  lemma {:induction false} ConfigScanKeepsOrder(lines: seq<string>, inBlock: bool)
    ensures IsSubsequence(ConfigScan(lines, inBlock).kept, lines)
  {
    if |lines| > 0 {
      var t := Trim(lines[0]);
      ConfigScanKeepsOrder(lines[1..], StartsWith(t, ConfigPrefix) || (inBlock && !EndsWith(t, Mark)));
    }
  }

  /** The block holds trimmed copies of lines, so a buffer without theme lines gives a
      block without one. */
  lemma {:induction false} ConfigScanBlock(lines: seq<string>, inBlock: bool)
    requires NoTheme(lines)
    ensures NoTheme(ConfigScan(lines, inBlock).block)
  {
    if |lines| > 0 {
      var next := StartsConfig(lines[0]) || (inBlock && !EndsWithMark(lines[0]));
      NoThemeTail(lines);
      ConfigScanBlock(lines[1..], next);
      assert lines == [lines[0]] + lines[1..];
      ConfigScanStep(lines[0], lines[1..], inBlock);
      if StartsConfig(lines[0]) || inBlock {
        assert !IsThemeLine(Trim(lines[0])) by { TrimTwice(lines[0]); }
        NoThemeCons(Trim(lines[0]), ConfigScan(lines[1..], next).block);
      }
    }
  }

  lemma NoThemeTail(lines: seq<string>)
    requires |lines| > 0 && NoTheme(lines)
    ensures NoTheme(lines[1..])
  {
    forall i | 0 <= i < |lines| - 1 ensures !IsThemeLine(lines[1..][i]) {
      assert lines[1..][i] == lines[i + 1];
    }
  }

  lemma NoThemeCons(line: string, lines: seq<string>)
    requires !IsThemeLine(line) && NoTheme(lines)
    ensures NoTheme([line] + lines)
  {
    forall i | 0 <= i < |lines| + 1 ensures !IsThemeLine(([line] + lines)[i]) {
      if i > 0 { assert ([line] + lines)[i] == lines[i - 1]; }
    }
  }

  predicate NoTheme(lines: seq<string>) {
    forall i :: 0 <= i < |lines| ==> !IsThemeLine(lines[i])
  }

  /** A line that closes an open block: it ends in `%%` and does not open a new block. */
  predicate ClosesBlock(line: string) {
    !StartsConfig(line) && EndsWithMark(line)
  }

  /** A closed configuration block: a start line, lines that do not close it, and the
      line that does. */
  predicate ClosedBlock(a: seq<string>) {
    && |a| >= 2 && StartsConfig(a[0]) && ClosesBlock(a[|a| - 1])
    && forall i :: 1 <= i < |a| - 1 ==> !ClosesBlock(a[i])
  }

  /** An unterminated block: a start line and no line after it that closes it. */
  predicate OpenBlock(a: seq<string>) {
    |a| >= 1 && StartsConfig(a[0]) && forall i :: 1 <= i < |a| ==> !ClosesBlock(a[i])
  }

  /** One piece of a buffer as the filter sees it: a line outside any block, or a closed
      block. */
  predicate Segment(a: seq<string>) {
    (|a| == 1 && !StartsConfig(a[0])) || ClosedBlock(a)
  }

  /** The configuration-block filter read block by block: a line that starts no block is
      kept; a start line takes itself and every line up to the first later line that
      closes the block, or the rest of the buffer when no line does. */
  function BlockwiseScan(lines: seq<string>): (r: Scan)
    decreases |lines|
  {
    if |lines| == 0 then Scan([], [])
    else if !StartsConfig(lines[0]) then
      var rest := BlockwiseScan(lines[1..]);
      Scan([lines[0]] + rest.kept, rest.block)
    else match FirstWhere(lines[1..], ClosesBlock)
      case None => Scan([], MapTrim(lines))
      case Some(j) =>
        var rest := BlockwiseScan(lines[j + 2..]);
        Scan(rest.kept, MapTrim(lines[..j + 2]) + rest.block)
  }

  lemma MapTrimCons(lines: seq<string>)
    requires |lines| > 0
    ensures MapTrim(lines) == [Trim(lines[0])] + MapTrim(lines[1..])
  {
    assert MapTrim(lines) == [Trim(lines[0])] + MapTrim(lines[1..]);
  }

  /** One step of the filter on the line in front. */
  lemma ConfigScanStep(x: string, rest: seq<string>, inBlock: bool)
    ensures var next := ConfigScan(rest, StartsConfig(x) || (inBlock && !EndsWithMark(x)));
            ConfigScan([x] + rest, inBlock)
              == if StartsConfig(x) || inBlock then Scan(next.kept, [Trim(x)] + next.block)
                 else Scan([x] + next.kept, next.block)
  {
    assert ([x] + rest)[0] == x && ([x] + rest)[1..] == rest;
  }

  /** Inside a block, the lines up to and including the one that closes it are taken
      out; the filter then starts afresh outside any block. */
  lemma {:induction false} ScanInsideClosed(a: seq<string>, b: seq<string>)
    requires |a| >= 1 && ClosesBlock(a[|a| - 1])
    requires forall i :: 0 <= i < |a| - 1 ==> !ClosesBlock(a[i])
    ensures ConfigScan(a + b, true) == Scan(ConfigScan(b, false).kept, MapTrim(a) + ConfigScan(b, false).block)
    decreases |a|
  {
    if |a| == 1 {
      InsideLastAlone(a, b);
    } else {
      var a' := a[1..];
      assert a'[|a'| - 1] == a[|a| - 1];
      forall i | 0 <= i < |a'| - 1 ensures !ClosesBlock(a'[i]) {
        assert a'[i] == a[i + 1];
      }
      ScanInsideClosed(a', b);
      InsideFront(a, b, ConfigScan(b, false));
    }
  }

  lemma InsideLastAlone(a: seq<string>, b: seq<string>)
    requires |a| == 1 && ClosesBlock(a[0])
    ensures ConfigScan(a + b, true) == Scan(ConfigScan(b, false).kept, MapTrim(a) + ConfigScan(b, false).block)
  {
    FrontAppend(a, b);
    MapTrimFront(a, ConfigScan(b, false).block);
    assert a[1..] + b == b;
    InsideLast(a[0], b);
  }

  lemma InsideFront(a: seq<string>, b: seq<string>, after: Scan)
    requires |a| >= 2 && !ClosesBlock(a[0])
    requires ConfigScan(a[1..] + b, true) == Scan(after.kept, MapTrim(a[1..]) + after.block)
    ensures ConfigScan(a + b, true) == Scan(after.kept, MapTrim(a) + after.block)
  {
    FrontAppend(a, b);
    MapTrimFront(a, after.block);
    InsideCons(a[0], a[1..] + b, after.kept, MapTrim(a[1..]) + after.block);
  }

  /** Inside a block, a line that does not close it is taken out and the block goes on. */
  lemma InsideCons(x: string, tail: seq<string>, kept: seq<string>, block: seq<string>)
    requires !ClosesBlock(x) && ConfigScan(tail, true) == Scan(kept, block)
    ensures ConfigScan([x] + tail, true) == Scan(kept, [Trim(x)] + block)
  {
    ConfigScanStep(x, tail, true);
  }

  /** Inside a block, the closing line is taken out and the block ends. */
  lemma InsideLast(x: string, b: seq<string>)
    requires ClosesBlock(x)
    ensures ConfigScan([x] + b, true) == Scan(ConfigScan(b, false).kept, [Trim(x)] + ConfigScan(b, false).block)
  {
    ConfigScanStep(x, b, true);
  }

  /** Outside a block, a line that starts none is kept. */
  lemma OutsideCons(x: string, b: seq<string>)
    requires !StartsConfig(x)
    ensures ConfigScan([x] + b, false) == Scan([x] + ConfigScan(b, false).kept, ConfigScan(b, false).block)
  {
    ConfigScanStep(x, b, false);
  }

  lemma FrontAppend(a: seq<string>, b: seq<string>)
    requires |a| >= 1
    ensures a + b == [a[0]] + (a[1..] + b)
  {
  }

  lemma MapTrimFront(a: seq<string>, c: seq<string>)
    requires |a| >= 1
    ensures MapTrim(a) + c == [Trim(a[0])] + (MapTrim(a[1..]) + c)
  {
    MapTrimCons(a);
  }

  /** Inside a block that nothing closes, every line is taken out. */
  lemma {:induction false} ScanInsideOpen(a: seq<string>)
    requires forall i :: 0 <= i < |a| ==> !ClosesBlock(a[i])
    ensures ConfigScan(a, true) == Scan([], MapTrim(a))
    decreases |a|
  {
    if |a| > 0 {
      var a' := a[1..];
      forall i | 0 <= i < |a'| ensures !ClosesBlock(a'[i]) {
        assert a'[i] == a[i + 1];
      }
      ScanInsideOpen(a');
      InsideOpenFront(a);
    }
  }

  lemma InsideOpenFront(a: seq<string>)
    requires |a| > 0 && !ClosesBlock(a[0])
    requires ConfigScan(a[1..], true) == Scan([], MapTrim(a[1..]))
    ensures ConfigScan(a, true) == Scan([], MapTrim(a))
  {
    assert a == [a[0]] + a[1..];
    MapTrimCons(a);
    InsideCons(a[0], a[1..], [], MapTrim(a[1..]));
  }

  /** A closed block in front of any lines is taken out whole, trimmed, and the lines
      after it are filtered as if the block had not been there. */
  lemma ConfigScanClosedBlock(a: seq<string>, b: seq<string>)
    requires ClosedBlock(a)
    ensures ConfigScan(a + b, false) == Scan(ConfigScan(b, false).kept, MapTrim(a) + ConfigScan(b, false).block)
  {
    var a' := a[1..];
    assert a'[|a'| - 1] == a[|a| - 1];
    forall i | 0 <= i < |a'| - 1 ensures !ClosesBlock(a'[i]) {
      assert a'[i] == a[i + 1];
    }
    ScanInsideClosed(a', b);
    FrontAppend(a, b);
    MapTrimFront(a, ConfigScan(b, false).block);
    ConfigScanStep(a[0], a' + b, false);
  }

  /** An unterminated block takes out everything from its start line on. */
  lemma ConfigScanOpenBlock(a: seq<string>)
    requires OpenBlock(a)
    ensures ConfigScan(a, false) == Scan([], MapTrim(a))
  {
    var a' := a[1..];
    forall i | 0 <= i < |a'| ensures !ClosesBlock(a'[i]) {
      assert a'[i] == a[i + 1];
    }
    ScanInsideOpen(a');
    assert a == [a[0]] + a';
    MapTrimCons(a);
    ConfigScanStep(a[0], a', false);
  }

  /** The filter splits after a line outside any block and after a closed block: its
      kept lines and its block lines are those of the two parts, one after the other. */
  lemma ConfigScanAppend(a: seq<string>, b: seq<string>)
    requires Segment(a)
    ensures ConfigScan(a + b, false).kept == ConfigScan(a, false).kept + ConfigScan(b, false).kept
    ensures ConfigScan(a + b, false).block == ConfigScan(a, false).block + ConfigScan(b, false).block
  {
    if ClosedBlock(a) {
      ClosedBlockAppend(a, b);
    } else {
      assert a == [a[0]];
      OutsideAppend(a[0], b);
    }
  }

  lemma ClosedBlockAppend(a: seq<string>, b: seq<string>)
    requires ClosedBlock(a)
    ensures ConfigScan(a + b, false).kept == ConfigScan(a, false).kept + ConfigScan(b, false).kept
    ensures ConfigScan(a + b, false).block == ConfigScan(a, false).block + ConfigScan(b, false).block
  {
    ClosedBlockAlone(a);
    ConfigScanClosedBlock(a, b);
    ScanJoin(ConfigScan(a + b, false), ConfigScan(a, false), ConfigScan(b, false), MapTrim(a));
  }

  lemma ScanJoin(whole: Scan, front: Scan, back: Scan, taken: seq<string>)
    requires front == Scan([], taken) && whole == Scan(back.kept, taken + back.block)
    ensures whole.kept == front.kept + back.kept && whole.block == front.block + back.block
  {
    assert [] + back.kept == back.kept;
  }

  lemma OutsideAppend(x: string, b: seq<string>)
    requires !StartsConfig(x)
    ensures ConfigScan([x] + b, false).kept == ConfigScan([x], false).kept + ConfigScan(b, false).kept
    ensures ConfigScan([x] + b, false).block == ConfigScan([x], false).block + ConfigScan(b, false).block
  {
    OutsideCons(x, b);
    OutsideAlone(x);
    ScanJoinKept(ConfigScan([x] + b, false), ConfigScan([x], false), ConfigScan(b, false), x);
  }

  lemma OutsideAlone(x: string)
    requires !StartsConfig(x)
    ensures ConfigScan([x], false) == Scan([x], [])
  {
    assert forall i :: 0 <= i < |[x]| ==> !StartsConfig([x][i]);
  }

  lemma ScanJoinKept(whole: Scan, front: Scan, back: Scan, x: string)
    requires front == Scan([x], []) && whole == Scan([x] + back.kept, back.block)
    ensures whole.kept == front.kept + back.kept && whole.block == front.block + back.block
  {
    assert [] + back.block == back.block;
  }

  /** A closed block on its own is taken out whole. */
  lemma ClosedBlockAlone(a: seq<string>)
    requires ClosedBlock(a)
    ensures ConfigScan(a, false) == Scan([], MapTrim(a))
  {
    ConfigScanClosedBlock(a, []);
    assert a + [] == a;
  }

  /** The filter is the block-by-block reading for every buffer. */
  lemma {:induction false} ConfigScanBlockwise(lines: seq<string>)
    ensures ConfigScan(lines, false) == BlockwiseScan(lines)
    decreases |lines|
  {
    if |lines| > 0 {
      if !StartsConfig(lines[0]) {
        ConfigScanBlockwise(lines[1..]);
        BlockwiseOutside(lines);
      } else {
        match FirstWhere(lines[1..], ClosesBlock)
        case None =>
          BlockwiseOpen(lines);
        case Some(j) =>
          ConfigScanBlockwise(lines[j + 2..]);
          BlockwiseClosed(lines, j);
      }
    }
  }

  lemma BlockwiseOutside(lines: seq<string>)
    requires |lines| > 0 && !StartsConfig(lines[0])
    requires ConfigScan(lines[1..], false) == BlockwiseScan(lines[1..])
    ensures ConfigScan(lines, false) == BlockwiseScan(lines)
  {
    OutsideStep(lines);
    BlockwiseOutsideStep(lines);
  }

  lemma OutsideStep(lines: seq<string>)
    requires |lines| > 0 && !StartsConfig(lines[0])
    ensures var rest := ConfigScan(lines[1..], false);
            ConfigScan(lines, false) == Scan([lines[0]] + rest.kept, rest.block)
  {
  }

  lemma BlockwiseOutsideStep(lines: seq<string>)
    requires |lines| > 0 && !StartsConfig(lines[0])
    ensures var rest := BlockwiseScan(lines[1..]);
            BlockwiseScan(lines) == Scan([lines[0]] + rest.kept, rest.block)
  {
  }

  lemma BlockwiseOpen(lines: seq<string>)
    requires |lines| > 0 && StartsConfig(lines[0]) && FirstWhere(lines[1..], ClosesBlock).None?
    ensures ConfigScan(lines, false) == BlockwiseScan(lines)
  {
    assert OpenBlock(lines) by {
      forall i | 1 <= i < |lines| ensures !ClosesBlock(lines[i]) {
        assert lines[1..][i - 1] == lines[i];
      }
    }
    ConfigScanOpenBlock(lines);
  }

  lemma BlockwiseClosed(lines: seq<string>, j: nat)
    requires |lines| > 0 && StartsConfig(lines[0]) && FirstWhere(lines[1..], ClosesBlock) == Some(j)
    requires ConfigScan(lines[j + 2..], false) == BlockwiseScan(lines[j + 2..])
    ensures ConfigScan(lines, false) == BlockwiseScan(lines)
  {
    FirstBlockIsClosed(lines, j);
    ConfigScanClosedAt(lines, j + 2);
    BlockwiseClosedStep(lines, j);
  }

  /** The first line after a start line that closes a block ends a closed block. */
  lemma FirstBlockIsClosed(lines: seq<string>, j: nat)
    requires |lines| > 0 && StartsConfig(lines[0]) && FirstWhere(lines[1..], ClosesBlock) == Some(j)
    ensures j + 2 <= |lines| && ClosedBlock(lines[..j + 2])
  {
    var a := lines[..j + 2];
    assert a[0] == lines[0];
    assert a[|a| - 1] == lines[1..][j];
    forall i | 1 <= i < |a| - 1 ensures !ClosesBlock(a[i]) {
      assert a[i] == lines[1..][i - 1];
    }
  }

  lemma ConfigScanClosedAt(lines: seq<string>, k: nat)
    requires k <= |lines| && ClosedBlock(lines[..k])
    ensures var rest := ConfigScan(lines[k..], false);
            ConfigScan(lines, false) == Scan(rest.kept, MapTrim(lines[..k]) + rest.block)
  {
    ConfigScanClosedBlock(lines[..k], lines[k..]);
    assert lines[..k] + lines[k..] == lines;
  }

  lemma BlockwiseClosedStep(lines: seq<string>, j: nat)
    requires |lines| > 0 && StartsConfig(lines[0]) && FirstWhere(lines[1..], ClosesBlock) == Some(j)
    ensures j + 2 <= |lines|
    ensures var rest := BlockwiseScan(lines[j + 2..]);
            BlockwiseScan(lines) == Scan(rest.kept, MapTrim(lines[..j + 2]) + rest.block)
  {
  }

  /** A rebuilt buffer, in the order the splicer writes it. */
  datatype Rebuilt = Rebuilt(theme: seq<string>, config: seq<string>, header: string, body: seq<string>) {
    function Lines(): seq<string> {
      theme + config + [header] + body
    }
  }

  /** What the first pass leaves of the old lines for each kind of snippet: no theme line
      before a theme snippet, no configuration start before a config snippet, no header
      before a layout snippet. */
  predicate Prepared(kind: SnippetKind, lines: seq<string>) {
    && (kind == Theme ==> NoTheme(lines))
    && (kind == Config ==> NoConfigStart(lines))
    && (kind == Layout ==> NoHeader(lines))
  }

  /** A trimmed snippet of a directive kind; a layout snippet is a header. */
  predicate Fits(kind: SnippetKind, st: string) {
    && kind.IsDirective()
    && Trimmed(st)
    && (kind == Layout ==> IsHeader(ErdKeyword, st))
  }

  /** The buffer without its theme lines, unless the snippet is the theme. */
  function WithoutThemes(kind: SnippetKind, lines: seq<string>): (r: seq<string>)
    ensures IsSubsequence(r, lines)
    ensures kind != Theme ==> NoTheme(r)
    ensures kind == Theme ==> r == lines
  {
    SubsequenceReflexive(lines);
    if kind == Theme then lines else Filter(lines, (l: string) => !IsThemeLine(l))
  }

  /** What is left once the existing configuration blocks are taken out, unless the
      snippet is the configuration. */
  function WithoutConfig(kind: SnippetKind, others: seq<string>): (r: seq<string>)
    ensures IsSubsequence(r, others)
    ensures kind != Config ==> forall i :: 0 <= i < |r| ==> !StartsConfig(r[i])
  {
    ConfigScanKeepsOrder(others, false);
    SubsequenceReflexive(others);
    if kind == Config then others else ConfigScan(others, false).kept
  }

  /** The directive branch: one theme line (the snippet's, else the first existing one,
      else none), then the configuration block (the snippet's, else the existing blocks),
      then one header (the snippet's, else the first existing one, else `erDiagram`),
      then all remaining lines in their old order. */
  function Rebuild(kind: SnippetKind, st: string, lines: seq<string>): (r: Rebuilt)
    requires kind.IsDirective()
    ensures kind == Theme ==> r.theme == [st]
    ensures kind == Config ==> r.config == SnippetLines(st)
    ensures kind == Layout ==> r.header == st
  {
    Rebuilt(ThemePart(kind, st, lines), ConfigPart(kind, st, lines),
            HeaderPart(kind, st, lines), BodyPart(kind, lines))
  }

  function ThemePart(kind: SnippetKind, st: string, lines: seq<string>): seq<string> {
    if kind == Theme then [st]
    else match FirstWhere(lines, IsThemeLine)
      case Some(i) => [Trim(lines[i])]
      case None => []
  }

  function ConfigPart(kind: SnippetKind, st: string, lines: seq<string>): seq<string> {
    if kind == Config then SnippetLines(st) else ConfigScan(WithoutThemes(kind, lines), false).block
  }

  function HeaderPart(kind: SnippetKind, st: string, lines: seq<string>): string {
    if kind == Layout then st
    else match FirstWhere(lines, IsErdHeader)
      case Some(i) => Trim(lines[i])
      case None => ErdKeyword
  }

  function BodyPart(kind: SnippetKind, lines: seq<string>): seq<string> {
    var rest := WithoutConfig(kind, WithoutThemes(kind, lines));
    if kind == Layout then rest else Filter(rest, (l: string) => !IsErdHeader(l))
  }

  /** The theme part is at most one theme line: the snippet, or else the first theme line
      the buffer had, and it is empty only when there was none. */
  lemma RebuildThemePart(kind: SnippetKind, st: string, lines: seq<string>)
    requires Fits(kind, st)
    requires kind == Theme ==> StartsWith(st, ThemePrefix)
    ensures var t := Rebuild(kind, st, lines).theme;
            && |t| <= 1
            && (forall i :: 0 <= i < |t| ==> IsThemeLine(t[i]))
            && (kind != Theme ==> (t == [] <==> NoTheme(lines)))
  {
    assert Rebuild(kind, st, lines).theme == ThemePart(kind, st, lines);
    if kind == Theme {
      SnippetThemePart(st, lines);
    } else {
      OldThemePart(kind, st, lines);
    }
  }

  lemma SnippetThemePart(st: string, lines: seq<string>)
    requires Trim(st) == st && StartsWith(st, ThemePrefix)
    ensures ThemePart(Theme, st, lines) == [st] && IsThemeLine(st)
  {
  }

  lemma OldThemePart(kind: SnippetKind, st: string, lines: seq<string>)
    requires kind != Theme
    ensures var t := ThemePart(kind, st, lines);
            && |t| <= 1
            && (forall i :: 0 <= i < |t| ==> IsThemeLine(t[i]))
            && (t == [] <==> NoTheme(lines))
  {
    match FirstWhere(lines, IsThemeLine)
    case Some(i) =>
      assert ThemePart(kind, st, lines) == [Trim(lines[i])];
      assert IsThemeLine(Trim(lines[i])) by { TrimTwice(lines[i]); }
      assert !NoTheme(lines) by { assert IsThemeLine(lines[i]); }
    case None =>
      assert ThemePart(kind, st, lines) == [];
  }

  /** Apart from the theme part, no line of the rebuilt buffer is a theme line (a
      configuration snippet is inserted as given). */
  lemma RebuildNoOtherTheme(kind: SnippetKind, st: string, lines: seq<string>)
    requires Fits(kind, st)
    requires Prepared(kind, lines)
    ensures var r := Rebuild(kind, st, lines);
            && (kind != Config ==> NoTheme(r.config))
            && !IsThemeLine(r.header)
            && NoTheme(r.body)
  {
    var r := Rebuild(kind, st, lines);
    var others := WithoutThemes(kind, lines);
    assert NoTheme(others);
    if kind != Config { ConfigScanBlock(others, false); }
    var rest := WithoutConfig(kind, others);
    SubsequenceMembers(rest, others);
    assert NoTheme(rest);
    HeaderNotTheme(kind, st, lines);
  }

  /** The header part is a trimmed header line, and so never a theme line. */
  lemma HeaderNotTheme(kind: SnippetKind, st: string, lines: seq<string>)
    requires Fits(kind, st)
    ensures IsErdHeader(HeaderPart(kind, st, lines))
    ensures !IsThemeLine(HeaderPart(kind, st, lines))
  {
    HeaderPartTrimmed(kind, st, lines);
    TrimmedHeaderNotTheme(HeaderPart(kind, st, lines));
  }

  lemma HeaderPartTrimmed(kind: SnippetKind, st: string, lines: seq<string>)
    requires Fits(kind, st)
    ensures var h := HeaderPart(kind, st, lines); Trim(h) == h && IsHeader(ErdKeyword, h)
  {
    if kind != Layout {
      if FirstWhere(lines, IsErdHeader).Some? {
        ExistingHeaderTrimmed(kind, st, lines);
      } else {
        DefaultHeaderTrimmed(kind, st, lines);
      }
    }
  }

  lemma ExistingHeaderTrimmed(kind: SnippetKind, st: string, lines: seq<string>)
    requires kind != Layout && FirstWhere(lines, IsErdHeader).Some?
    ensures var h := HeaderPart(kind, st, lines); Trim(h) == h && IsHeader(ErdKeyword, h)
  {
    TrimTwice(lines[FirstWhere(lines, IsErdHeader).value]);
  }

  lemma DefaultHeaderTrimmed(kind: SnippetKind, st: string, lines: seq<string>)
    requires kind != Layout && FirstWhere(lines, IsErdHeader).None?
    ensures var h := HeaderPart(kind, st, lines); Trim(h) == h && IsHeader(ErdKeyword, h)
  {
    KeywordIsHeader();
  }

  lemma HeaderNotThemePrefix(h: string)
    requires IsHeader(ErdKeyword, h)
    ensures !StartsWith(h, ThemePrefix)
  {
    HeaderIsNoDirective(ErdKeyword, h);
  }

  lemma TrimmedHeaderNotTheme(h: string)
    requires Trim(h) == h && IsHeader(ErdKeyword, h)
    ensures IsErdHeader(h) && !IsThemeLine(h)
  {
    HeaderNotThemePrefix(h);
  }

  /** `erDiagram` is its own trim, a header, not a directive, and opens no block. */
  lemma KeywordIsHeader()
    ensures Trim(ErdKeyword) == ErdKeyword && !EndsWith(ErdKeyword, "{")
    ensures IsErdHeader(ErdKeyword) && !IsThemeLine(ErdKeyword)
  {
    KeywordTrimmed();
    KeywordShape();
    assert ErdKeyword[0] != ThemePrefix[0];
  }

  lemma KeywordTrimmed()
    ensures Trim(ErdKeyword) == ErdKeyword
  {
    assert LeadingSpace(ErdKeyword) == 0;
    assert TrimEnd(ErdKeyword) == ErdKeyword;
  }

  lemma KeywordShape()
    ensures IsHeader(ErdKeyword, ErdKeyword)
  {
    assert EqualsIgnoreCase(ErdKeyword[..|ErdKeyword|], ErdKeyword) by {
      assert ErdKeyword[..|ErdKeyword|] == ErdKeyword;
    }
    assert ErdKeyword[|ErdKeyword|..] == [];
  }

  /** The header part is a header line (the snippet, else the first header the buffer
      had, else `erDiagram`) and no body line is one. The configuration part is copied
      without looking at its lines, so the whole buffer has one header only under the
      conditions of `RebuildHeaderCount`. */
  lemma RebuildOneHeader(kind: SnippetKind, st: string, lines: seq<string>)
    requires Fits(kind, st)
    requires Prepared(kind, lines)
    ensures var r := Rebuild(kind, st, lines);
            && IsErdHeader(r.header)
            && NoHeader(r.body)
            && (kind != Layout ==>
                  match FirstWhere(lines, IsErdHeader)
                  case Some(j) => r.header == Trim(lines[j])
                  case None => r.header == ErdKeyword)
  {
    HeaderNotTheme(kind, st, lines);
    BodyHasNoHeader(kind, lines);
  }

  /** The rebuilt buffer holds exactly one header line when the configuration part holds
      none: a layout snippet needs nothing more, since the first pass has taken the old
      headers out; a configuration snippet must have no header line; and before a theme
      snippet no old configuration block may hold one, since the blocks are carried over
      as they were. */
  lemma RebuildHeaderCount(kind: SnippetKind, st: string, lines: seq<string>)
    requires Fits(kind, st)
    requires kind == Theme ==> StartsWith(st, ThemePrefix)
    requires Prepared(kind, lines)
    requires kind == Config ==> NoHeader(SnippetLines(st))
    requires kind == Theme ==> NoHeader(ConfigScan(lines, false).block)
    ensures Count(Rebuild(kind, st, lines).Lines(), IsErdHeader) == 1
  {
    var r := Rebuild(kind, st, lines);
    RebuildThemePart(kind, st, lines);
    assert NoHeader(r.theme) by {
      forall i | 0 <= i < |r.theme| ensures !IsErdHeader(r.theme[i]) {
        ThemeLineNotHeader(r.theme[i]);
      }
    }
    ConfigPartNoHeader(kind, st, lines);
    RebuildOneHeader(kind, st, lines);
    HeaderCount(r);
  }

  /** Before a theme snippet, a header line inside an old configuration block stays in
      the block, and the header part is added besides: the rebuilt buffer then holds two
      header lines or more. */
  lemma ThemeKeepsBlockHeader(st: string, lines: seq<string>)
    requires Fits(Theme, st)
    requires !NoHeader(ConfigScan(lines, false).block)
    ensures Count(Rebuild(Theme, st, lines).Lines(), IsErdHeader) >= 2
  {
    var r := Rebuild(Theme, st, lines);
    assert r.config == ConfigScan(lines, false).block;
    CountZero(r.config, IsErdHeader);
    HeaderNotTheme(Theme, st, lines);
    CountAppend(r.theme + r.config + [r.header], r.body, IsErdHeader);
    CountAppend(r.theme + r.config, [r.header], IsErdHeader);
    CountAppend(r.theme, r.config, IsErdHeader);
    FilterOne(r.header, IsErdHeader);
  }

  /** A header line right after a `%% @config` line is inside the block, as every line
      after an unterminated `%% @config` line is. */
  lemma BlockHoldsHeader(open: string, header: string)
    requires StartsConfig(open) && IsErdHeader(header)
    ensures !NoHeader(ConfigScan([open, header], false).block)
  {
    var lines := [open, header];
    if ClosesBlock(header) {
      ClosedBlockAlone(lines);
    } else {
      ConfigScanOpenBlock(lines);
    }
    assert ConfigScan(lines, false).block[1] == Trim(header);
    assert IsErdHeader(Trim(header)) by { TrimTwice(header); }
  }

  lemma HeaderCount(r: Rebuilt)
    requires NoHeader(r.theme) && NoHeader(r.config) && IsErdHeader(r.header) && NoHeader(r.body)
    ensures Count(r.Lines(), IsErdHeader) == 1
  {
    CountAppend(r.theme + r.config + [r.header], r.body, IsErdHeader);
    CountAppend(r.theme + r.config, [r.header], IsErdHeader);
    CountAppend(r.theme, r.config, IsErdHeader);
    CountZero(r.theme, IsErdHeader);
    CountZero(r.config, IsErdHeader);
    CountZero(r.body, IsErdHeader);
    FilterOne(r.header, IsErdHeader);
  }

  lemma ThemeLineNotHeader(line: string)
    requires IsThemeLine(line)
    ensures !IsErdHeader(line)
  {
    if IsErdHeader(line) {
      HeaderNotThemePrefix(Trim(line));
    }
  }

  lemma ConfigPartNoHeader(kind: SnippetKind, st: string, lines: seq<string>)
    requires kind.IsDirective() && Prepared(kind, lines)
    requires kind == Config ==> NoHeader(SnippetLines(st))
    requires kind == Theme ==> NoHeader(ConfigScan(lines, false).block)
    ensures NoHeader(ConfigPart(kind, st, lines))
  {
    if kind == Layout {
      var others := WithoutThemes(kind, lines);
      SubsequenceMembers(others, lines);
      ConfigScanBlockNoHeader(others, false);
    }
  }

  /** The block holds trimmed copies of lines, so a buffer without a header gives a block
      without one. */
  lemma {:induction false} ConfigScanBlockNoHeader(lines: seq<string>, inBlock: bool)
    requires NoHeader(lines)
    ensures NoHeader(ConfigScan(lines, inBlock).block)
  {
    if |lines| > 0 {
      var next := StartsConfig(lines[0]) || (inBlock && !EndsWithMark(lines[0]));
      NoHeaderTail(lines);
      ConfigScanBlockNoHeader(lines[1..], next);
      if inBlock || StartsConfig(lines[0]) {
        assert lines == [lines[0]] + lines[1..];
        ConfigScanStep(lines[0], lines[1..], inBlock);
        assert !IsErdHeader(Trim(lines[0])) by { TrimTwice(lines[0]); }
        NoHeaderCons(Trim(lines[0]), ConfigScan(lines[1..], next).block);
      } else {
        assert ConfigScan(lines, inBlock).block == ConfigScan(lines[1..], next).block;
      }
    }
  }

  lemma NoHeaderTail(lines: seq<string>)
    requires |lines| > 0 && NoHeader(lines)
    ensures NoHeader(lines[1..])
  {
    forall i | 0 <= i < |lines| - 1 ensures !IsErdHeader(lines[1..][i]) {
      assert lines[1..][i] == lines[i + 1];
    }
  }

  lemma NoHeaderCons(line: string, lines: seq<string>)
    requires !IsErdHeader(line) && NoHeader(lines)
    ensures NoHeader([line] + lines)
  {
    AllCons(line, lines, (l: string) => !IsErdHeader(l));
  }

  lemma BodyHasNoHeader(kind: SnippetKind, lines: seq<string>)
    requires kind.IsDirective()
    requires Prepared(kind, lines)
    ensures NoHeader(BodyPart(kind, lines))
  {
    if kind == Layout {
      var others := WithoutThemes(kind, lines);
      var rest := WithoutConfig(kind, others);
      SubsequenceTransitive(rest, others, lines);
      SubsequenceMembers(rest, lines);
    }
  }

  /** The body is the buffer's other lines in their old order, with no configuration
      start among them. */
  lemma RebuildBody(kind: SnippetKind, lines: seq<string>)
    requires kind.IsDirective()
    requires kind == Config ==> NoConfigStart(lines)
    ensures IsSubsequence(BodyPart(kind, lines), lines)
    ensures NoConfigStart(BodyPart(kind, lines))
    ensures kind == Theme ==> BodyPart(kind, lines) == Filter(BlockwiseScan(lines).kept, (l: string) => !IsErdHeader(l))
    ensures kind == Layout ==> BodyPart(kind, lines) == BlockwiseScan(Filter(lines, (l: string) => !IsThemeLine(l))).kept
  {
    ConfigScanBlockwise(WithoutThemes(kind, lines));
    var others := WithoutThemes(kind, lines);
    var rest := WithoutConfig(kind, others);
    var body := BodyPart(kind, lines);
    SubsequenceTransitive(rest, others, lines);
    if kind != Layout {
      SubsequenceTransitive(body, rest, lines);
      SubsequenceMembers(body, rest);
    }
    if kind == Config {
      SubsequenceMembers(rest, lines);
    }
  }

  /** Before a theme or layout snippet, the configuration part is what the block-by-block
      reading takes out of the buffer (without its theme lines for a layout snippet). */
  lemma RebuildConfigPart(kind: SnippetKind, st: string, lines: seq<string>)
    requires kind.IsDirective()
    ensures kind == Theme ==> Rebuild(kind, st, lines).config == BlockwiseScan(lines).block
    ensures kind == Layout ==>
              Rebuild(kind, st, lines).config == BlockwiseScan(Filter(lines, (l: string) => !IsThemeLine(l))).block
  {
    ConfigScanBlockwise(WithoutThemes(kind, lines));
  }

  /** A buffer that holds no directive of the three kinds keeps every line, in order. */
  lemma RebuildKeepsPlainBody(kind: SnippetKind, lines: seq<string>)
    requires kind.IsDirective()
    requires NoTheme(lines) && NoConfigStart(lines) && NoHeader(lines)
    ensures BodyPart(kind, lines) == lines
  {
    assert WithoutThemes(kind, lines) == lines by { KeepAll(lines, (l: string) => !IsThemeLine(l)); }
    assert WithoutConfig(kind, lines) == lines;
    KeepAll(lines, (l: string) => !IsErdHeader(l));
  }

  predicate NoConfigStart(lines: seq<string>) {
    forall i :: 0 <= i < |lines| ==> !StartsConfig(lines[i])
  }

  predicate NoHeader(lines: seq<string>) {
    forall i :: 0 <= i < |lines| ==> !IsErdHeader(lines[i])
  }

  lemma KeepAll(lines: seq<string>, keep: string -> bool)
    requires forall i :: 0 <= i < |lines| ==> keep(lines[i])
    ensures Filter(lines, keep) == lines
  {
  }

  /** The first pass: drop the old instances of the directive the snippet
      replaces. */
  function DropReplaced(kind: SnippetKind, lines: seq<string>): (r: seq<string>)
    ensures Prepared(kind, r)
    ensures IsSubsequence(r, lines)
    ensures kind == Config ==> r == BlockwiseScan(lines).kept
  {
    ConfigScanKeepsOrder(lines, false);
    ConfigScanBlockwise(lines);
    match kind
    case Theme => Filter(lines, (l: string) => !IsThemeLine(l))
    case Config => ConfigScan(lines, false).kept
    case Layout => Filter(lines, (l: string) => !IsErdHeader(l))
    case _ => Filter(lines, (l: string) => true)
  }

  /** A right-trimmed line with something visible on it. */
  predicate Solid(line: string) {
    line != [] && !IsSpace(line[|line| - 1])
  }

  predicate AllSolid(lines: seq<string>) {
    forall i :: 0 <= i < |lines| ==> Solid(lines[i])
  }

  predicate NotBlank(line: string) {
    !IsBlank(line)
  }

  /** The lines that survive the clean-up pass: right-trimmed, blank ones gone. */
  function NonBlankLines(lines: seq<string>): (r: seq<string>)
    ensures IsSubsequence(r, MapTrimEnd(lines))
    ensures AllSolid(r)
    ensures forall i :: 0 <= i < |lines| && !IsBlank(lines[i]) ==> TrimEnd(lines[i]) in r
  {
    var r := Filter(MapTrimEnd(lines), NotBlank);
    assert AllSolid(r) by {
      forall i | 0 <= i < |r| ensures Solid(r[i]) {
        SolidWhenNotBlank(r[i]);
      }
    }
    forall i | 0 <= i < |lines| && !IsBlank(lines[i]) ensures TrimEnd(lines[i]) in r {
      TrimOfTrimEnd(lines[i]);
      assert MapTrimEnd(lines)[i] == TrimEnd(lines[i]);
    }
    r
  }

  /** The clean-up works line by line: it keeps every line that is not blank,
      right-trimmed, in order, duplicates included, and drops the blank ones. */
  lemma NonBlankLinesAppend(a: seq<string>, b: seq<string>)
    ensures NonBlankLines(a + b) == NonBlankLines(a) + NonBlankLines(b)
  {
    NonBlankLinesIs(a + b);
    NonBlankLinesIs(a);
    NonBlankLinesIs(b);
    MapTrimEndAppend(a, b);
    FilterAppend(MapTrimEnd(a), MapTrimEnd(b), NotBlank);
  }

  lemma NonBlankLinesOne(line: string)
    ensures NonBlankLines([line]) == if IsBlank(line) then [] else [TrimEnd(line)]
  {
    NonBlankLinesIs([line]);
    assert MapTrimEnd([line]) == [TrimEnd(line)];
    assert IsBlank(TrimEnd(line)) == IsBlank(line) by {
      TrimOfTrimEnd(line);
    }
    FilterOne(TrimEnd(line), NotBlank);
  }

  lemma NonBlankLinesIs(lines: seq<string>)
    ensures NonBlankLines(lines) == Filter(MapTrimEnd(lines), NotBlank)
  {
  }

  lemma MapTrimEndAppend(a: seq<string>, b: seq<string>)
    ensures MapTrimEnd(a + b) == MapTrimEnd(a) + MapTrimEnd(b)
  {
  }

  lemma SolidWhenNotBlank(line: string)
    requires !IsBlank(line) && TrimEnd(line) == line
    ensures Solid(line)
  {
    BlankIsAllSpace(line);
  }

  /** The content branch: the snippet goes at the end, after a single blank separator
      unless the last line opens a block with `{` or the snippet is a comment; an empty
      buffer first gets the `erDiagram` header. */
  function AppendSnippet(lines: seq<string>, snippetLines: seq<string>, isComment: bool): (r: seq<string>)
    requires NoBlank(lines)
    ensures |lines| == 0 ==> r == [ErdKeyword] + (if isComment then [] else [[]]) + snippetLines
    ensures |lines| > 0 ==>
              var separated := !EndsWith(Trim(lines[|lines| - 1]), "{") && !isComment;
              r == lines + (if separated then [[]] else []) + snippetLines
  {
    var base := if |lines| == 0 then [ErdKeyword] else lines;
    var last := Trim(base[|base| - 1]);
    KeywordIsHeader();
    var separated := last != [] && !EndsWith(last, "{") && !isComment;
    base + (if separated then [[]] else []) + snippetLines
  }

  predicate NoBlank(lines: seq<string>) {
    forall i :: 0 <= i < |lines| ==> !IsBlank(lines[i])
  }

  /** The buffer text the splicer starts from: `content || MINIMAL_ERD_CONTENT`. */
  function Code(content: Option<string>): (r: string)
    ensures r != []
    ensures content.Some? && content.value != [] ==> r == content.value
    ensures content.None? || content.value == [] ==> r == MinimalErd
  {
    if content.None? || content.value == [] then MinimalErd else content.value
  }

  /** The old lines after the first pass and the clean-up. */
  function Kept(kind: SnippetKind, code: string): (r: seq<string>)
    ensures Prepared(kind, r)
  {
    var dropped := DropReplaced(kind, Split(code, '\n'));
    PreparedSurvivesCleanup(kind, dropped);
    NonBlankLines(dropped)
  }

  /** The line array the splicer joins into the new buffer. */
  function SplicedLines(code: string, snippet: string): (r: seq<string>)
    ensures |r| >= 1
    ensures Classify(Trim(snippet), ErdKeyword) == Theme ==> r[0] == Trim(snippet)
    ensures var sl := SnippetLines(Trim(snippet));
            !Classify(Trim(snippet), ErdKeyword).IsDirective() ==> |sl| <= |r| && r[|r| - |sl|..] == sl
  {
    var st := Trim(snippet);
    var kind := Classify(st, ErdKeyword);
    if kind.IsDirective() then Rebuild(kind, st, Kept(kind, code)).Lines()
    else AppendSnippet(Kept(kind, code), SnippetLines(st), kind == Comment)
  }

  /** Right-trimming and dropping blank lines cannot bring back a dropped directive. */
  lemma PreparedSurvivesCleanup(kind: SnippetKind, lines: seq<string>)
    requires Prepared(kind, lines)
    ensures Prepared(kind, NonBlankLines(lines))
  {
    var r := NonBlankLines(lines);
    SubsequenceMembers(r, MapTrimEnd(lines));
    forall i | 0 <= i < |r|
      ensures && (kind == Theme ==> !IsThemeLine(r[i]))
              && (kind == Config ==> !StartsConfig(r[i]))
              && (kind == Layout ==> !IsErdHeader(r[i]))
    {
      var j :| 0 <= j < |lines| && r[i] == TrimEnd(lines[j]);
      TrimOfTrimEnd(lines[j]);
    }
  }

  lemma {:induction false} TrimOfTrimEnd(s: string)
    ensures Trim(TrimEnd(s)) == Trim(s)
  {
    var t := TrimEnd(s);
    var n := LeadingSpace(s);
    if n == |s| {
      assert AllSpace(s);
      BlankIsAllSpace(t);
      BlankIsAllSpace(s);
    } else {
      LeadingSpaceOfPrefix(s, |t|);
      assert TrimEnd(s[n..]) == TrimEnd(t[n..]) by { TrimEndOfSuffix(s, n); }
    }
  }

  lemma {:induction false} LeadingSpaceOfPrefix(s: string, k: nat)
    requires LeadingSpace(s) < k <= |s|
    ensures LeadingSpace(s[..k]) == LeadingSpace(s)
  {
    if |s| > 0 && IsSpace(s[0]) {
      assert s[..k][1..] == s[1..][..k - 1];
      LeadingSpaceOfPrefix(s[1..], k - 1);
    }
  }

  lemma {:induction false} TrimEndOfSuffix(s: string, n: nat)
    requires n <= |s| && n <= |TrimEnd(s)|
    ensures TrimEnd(s[n..]) == TrimEnd(s)[n..]
    decreases |s|
  {
    if |s| > 0 && IsSpace(s[|s| - 1]) && n < |s| {
      assert s[n..][..|s| - n - 1] == s[..|s| - 1][n..];
      TrimEndOfSuffix(s[..|s| - 1], n);
    }
  }

  // ---------------------------------------------------------------------------------
  // The clean-up regex `/\n\s*\n\s*\n/g` replaced by "\n\n".

  function CountNewlines(s: string): (n: nat)
    ensures n <= |s|
  {
    if |s| == 0 then 0 else CountNewlines(s[..|s| - 1]) + (if s[|s| - 1] == '\n' then 1 else 0)
  }

  /** One past the last newline of `w`, or 0 when it has none. */
  function AfterLastNewline(w: string): (k: nat)
    ensures k <= |w|
    ensures CountNewlines(w[..k]) == CountNewlines(w)
    ensures k > 0 ==> w[k - 1] == '\n'
    ensures forall j :: k <= j < |w| ==> w[j] != '\n'
  {
    if |w| == 0 then 0
    else if w[|w| - 1] == '\n' then assert w[..|w|] == w; |w|
    else
      var k := AfterLastNewline(w[..|w| - 1]);
      assert w[..|w| - 1][..k] == w[..k];
      k
  }

  /** The length of the regex match starting at `s[0]`, or 0 when none starts there. The
      pattern matches from a newline through the white-space run that follows, provided
      the run holds at least three newlines, and ends at the run's last newline. */
  function BreakRun(s: string): (k: nat)
    ensures k == 0 || (3 <= k <= |s| && s[0] == '\n')
  {
    var w := s[..LeadingSpace(s)];
    if |s| > 0 && s[0] == '\n' && CountNewlines(w) >= 3 then AfterLastNewline(w) else 0
  }

  /** `s.replace(/\n\s*\n\s*\n/g, '\n\n')`: the global replace tries a match at each
      position from left to right and resumes after each match. */
  function CollapseBlankRuns(s: string): (r: string)
    ensures |r| <= |s|
    decreases |s|
  {
    if |s| == 0 then []
    else
      var k := BreakRun(s);
      if k > 0 then "\n\n" + CollapseBlankRuns(s[k..]) else [s[0]] + CollapseBlankRuns(s[1..])
  }

  /** The last step: join, collapse blank runs, trim the front, and fall back to the
      minimal buffer when nothing is left. */
  function Finish(lines: seq<string>): (r: string)
    ensures |r| > 0 && !IsSpace(r[0])
    ensures IsBlank(TrimStart(CollapseBlankRuns(Join(lines, '\n')))) ==> r == MinimalErd
  {
    var text := TrimStart(CollapseBlankRuns(Join(lines, '\n')));
    if IsBlank(text) then MinimalErd
    else
      BlankIsAllSpace(text);
      text
  }

  /** `insertMermaidSnippet` on the active diagram's content (`null` and `""` read as
      the minimal buffer). The result is never empty and never starts with white space. */
  function Insert(content: Option<string>, snippet: string): (r: string)
    ensures |r| > 0 && !IsSpace(r[0])
  {
    Finish(SplicedLines(Code(content), snippet))
  }

  /** A text where no match starts at any position comes through unchanged. */
  lemma {:induction false} CollapseNoRun(s: string)
    requires forall i :: 0 <= i < |s| ==> BreakRun(s[i..]) == 0
    ensures CollapseBlankRuns(s) == s
  {
    if |s| > 0 {
      assert BreakRun(s[0..]) == 0 && s[0..] == s;
      forall i | 0 <= i < |s| - 1 ensures BreakRun(s[1..][i..]) == 0 {
        assert s[1..][i..] == s[i + 1..];
      }
      CollapseNoRun(s[1..]);
      assert [s[0]] + s[1..] == s;
    }
  }

  /** A stretch of white space that starts with a newline and holds three or more of
      them, up to a visible character or the end, becomes two newlines followed by the
      spaces after its last newline. */
  lemma CollapseStretch(w: string, q: string)
    requires AllSpace(w) && |w| > 0 && w[0] == '\n' && CountNewlines(w) >= 3
    requires q == [] || !IsSpace(q[0])
    ensures CollapseBlankRuns(w + q) == "\n\n" + w[AfterLastNewline(w)..] + CollapseBlankRuns(q)
  {
    var s := w + q;
    assert LeadingSpace(s) == |w| by {
      assert s[..|w|] == w;
      if q == [] {
        assert s == w;
        LeadingSpaceAll(w);
      } else {
        LeadingSpaceAt(s, |w|);
      }
    }
    assert s[..|w|] == w;
    var k := AfterLastNewline(w);
    assert BreakRun(s) == k;
    assert s[k..] == w[k..] + q;
    KeepLineHead(w[k..], q);
    AppendAssociative("\n\n", w[k..], CollapseBlankRuns(q));
  }

  lemma {:induction false} LeadingSpaceAll(w: string)
    requires AllSpace(w)
    ensures LeadingSpace(w) == |w|
  {
    if |w| > 0 {
      LeadingSpaceAll(w[1..]);
    }
  }

  /** Characters before the first newline are kept as they are. */
  lemma {:induction false} KeepLineHead(x: string, q: string)
    requires '\n' !in x
    ensures CollapseBlankRuns(x + q) == x + CollapseBlankRuns(q)
  {
    if |x| == 0 {
      assert x + q == q;
    } else {
      assert (x + q)[0] == x[0] != '\n';
      assert (x + q)[1..] == x[1..] + q;
      KeepLineHead(x[1..], q);
      AppendAssociative([x[0]], x[1..], CollapseBlankRuns(q));
      assert [x[0]] + x[1..] == x;
    }
  }

  // ---------------------------------------------------------------------------------
  // When the line array is tidy the clean-up leaves the joined text alone.

  lemma {:induction false} LeadingSpaceAppend(p: string, q: string)
    requires |p| > 0 && !IsSpace(p[|p| - 1])
    ensures LeadingSpace(p + q) == LeadingSpace(p)
  {
    if IsSpace(p[0]) {
      assert (p + q)[1..] == p[1..] + q;
      LeadingSpaceAppend(p[1..], q);
    }
  }

  /** A match never runs past a visible character, so the text before one is collapsed
      on its own. */
  lemma {:induction false} CollapseAppend(p: string, q: string)
    requires p == [] || !IsSpace(p[|p| - 1])
    ensures CollapseBlankRuns(p + q) == CollapseBlankRuns(p) + CollapseBlankRuns(q)
    decreases |p|
  {
    if p == [] {
      assert p + q == q;
      assert CollapseBlankRuns(p) == [];
    } else {
      var k := BreakRun(p);
      BreakRunAppend(p, q);
      var step := if k > 0 then k else 1;
      var head := if k > 0 then "\n\n" else [p[0]];
      DropAppend(p, q, step);
      assert CollapseBlankRuns(p) == head + CollapseBlankRuns(p[step..]);
      assert CollapseBlankRuns(p + q) == head + CollapseBlankRuns(p[step..] + q);
      CollapseAppend(p[step..], q);
      AppendAssociative(head, CollapseBlankRuns(p[step..]), CollapseBlankRuns(q));
    }
  }

  /** Whether and how far a match runs from the front of `p` does not depend on what
      follows `p` when `p` ends in a visible character. */
  lemma BreakRunAppend(p: string, q: string)
    requires |p| > 0 && !IsSpace(p[|p| - 1])
    ensures BreakRun(p + q) == BreakRun(p) && BreakRun(p) < |p|
  {
    LeadingSpaceAppend(p, q);
    var n := LeadingSpace(p);
    assert (p + q)[..n] == p[..n];
    assert (p + q)[0] == p[0];
    assert n < |p|;
  }

  lemma {:induction false} CountNewlinesNone(s: string)
    requires '\n' !in s
    ensures CountNewlines(s) == 0
  {
    if |s| > 0 { CountNewlinesNone(s[..|s| - 1]); }
  }

  lemma {:induction false} CountNewlinesPrepend(s: string)
    ensures CountNewlines("\n" + s) == 1 + CountNewlines(s)
  {
    if |s| > 0 {
      assert ("\n" + s)[..|s|] == "\n" + s[..|s| - 1];
      CountNewlinesPrepend(s[..|s| - 1]);
    }
  }

  /** A single line comes through the clean-up unchanged. */
  lemma {:induction false} CollapseLine(x: string)
    requires '\n' !in x
    ensures CollapseBlankRuns(x) == x
  {
    if |x| > 0 {
      assert x[0] != '\n';
      CollapseLine(x[1..]);
    }
  }

  /** The white-space run at the front of `"\n" + x` holds one newline when `x` holds
      none, so no match starts there. */
  lemma BreakRunOne(x: string)
    requires '\n' !in x
    ensures BreakRun("\n" + x) == 0
    ensures CountNewlines(("\n" + x)[..LeadingSpace("\n" + x)]) == 1
  {
    var s := "\n" + x;
    var m := LeadingSpace(x);
    assert s[1..] == x;
    assert s[..LeadingSpace(s)] == "\n" + x[..m];
    CountNewlinesNone(x[..m]);
    CountNewlinesPrepend(x[..m]);
  }

  lemma BreakRunTwo(x: string)
    requires '\n' !in x
    ensures BreakRun("\n\n" + x) == 0
  {
    var s := "\n\n" + x;
    var t := "\n" + x;
    assert s == "\n" + t && s[1..] == t;
    BreakRunOne(x);
    assert s[..LeadingSpace(s)] == "\n" + t[..LeadingSpace(t)];
    CountNewlinesPrepend(t[..LeadingSpace(t)]);
  }

  lemma CollapseBreakLine(x: string)
    requires '\n' !in x
    ensures CollapseBlankRuns("\n" + x) == "\n" + x
  {
    BreakRunOne(x);
    assert ("\n" + x)[1..] == x;
    CollapseLine(x);
  }

  lemma CollapseDoubleBreakLine(x: string)
    requires '\n' !in x
    ensures CollapseBlankRuns("\n\n" + x) == "\n\n" + x
  {
    BreakRunTwo(x);
    assert ("\n\n" + x)[1..] == "\n" + x;
    CollapseBreakLine(x);
  }

  /** No line holds a newline. */
  predicate NoNewlines(lines: seq<string>) {
    forall i :: 0 <= i < |lines| ==> '\n' !in lines[i]
  }

  /** Every line is empty or ends in a visible character. */
  predicate EndsVisible(lines: seq<string>) {
    forall i :: 0 <= i < |lines| ==> lines[i] == [] || !IsSpace(lines[i][|lines[i]| - 1])
  }

  /** No two empty lines are adjacent. */
  predicate NoDoubleGap(lines: seq<string>) {
    forall i :: 0 <= i < |lines| - 1 ==> lines[i] != [] || lines[i + 1] != []
  }

  /** A line array the clean-up regex finds nothing in once it is joined. */
  predicate Tidy(lines: seq<string>) {
    && |lines| >= 1 && |lines[0]| > 0
    && NoNewlines(lines) && EndsVisible(lines) && NoDoubleGap(lines)
  }

  /** What follows the first line when a line array is joined: a newline before each
      further line. */
  function Tail(lines: seq<string>): string {
    if |lines| == 0 then [] else "\n" + Join(lines, '\n')
  }

  lemma TailCons(lines: seq<string>)
    requires |lines| >= 1
    ensures Tail(lines) == "\n" + lines[0] + Tail(lines[1..])
  {
    if |lines| > 1 {
      assert Join(lines, '\n') == lines[0] + "\n" + Join(lines[1..], '\n');
    }
  }

  lemma {:induction false} CollapseTail(lines: seq<string>)
    requires NoNewlines(lines) && EndsVisible(lines) && NoDoubleGap(lines)
    ensures CollapseBlankRuns(Tail(lines)) == Tail(lines)
    decreases |lines|
  {
    if |lines| > 0 {
      var rest := lines[1..];
      LooseRest(lines);
      TailCons(lines);
      if lines[0] != [] {
        CollapseTail(rest);
        CollapseLineAndTail(lines[0], rest);
      } else if |rest| == 0 {
        CollapseBreakLine([]);
        assert "\n" + [] == "\n";
      } else {
        LooseRest(rest);
        TailGap(lines);
        assert rest[1..] == lines[2..];
        CollapseTail(rest[1..]);
        CollapseGapAndTail(rest[0], rest[1..]);
      }
    }
  }

  lemma LooseRest(lines: seq<string>)
    requires |lines| > 0 && NoNewlines(lines) && EndsVisible(lines) && NoDoubleGap(lines)
    ensures var rest := lines[1..]; NoNewlines(rest) && EndsVisible(rest) && NoDoubleGap(rest)
    ensures lines[0] == [] && |lines| > 1 ==> lines[1] != []
  {
    var rest := lines[1..];
    forall i | 0 <= i < |rest| ensures rest[i] == lines[i + 1] { }
  }

  lemma CollapseLineAndTail(x: string, rest: seq<string>)
    requires x != [] && '\n' !in x && !IsSpace(x[|x| - 1])
    requires CollapseBlankRuns(Tail(rest)) == Tail(rest)
    ensures CollapseBlankRuns("\n" + x + Tail(rest)) == "\n" + x + Tail(rest)
  {
    var p := "\n" + x;
    assert p[|p| - 1] == x[|x| - 1];
    CollapseBreakLine(x);
    CollapseAppend(p, Tail(rest));
  }

  lemma CollapseGapAndTail(x: string, rest: seq<string>)
    requires x != [] && '\n' !in x && !IsSpace(x[|x| - 1])
    requires CollapseBlankRuns(Tail(rest)) == Tail(rest)
    ensures CollapseBlankRuns("\n\n" + x + Tail(rest)) == "\n\n" + x + Tail(rest)
  {
    var p := "\n\n" + x;
    assert p[|p| - 1] == x[|x| - 1];
    CollapseDoubleBreakLine(x);
    CollapseAppend(p, Tail(rest));
  }

  /** The tail of an array that starts with an empty line and then a line `x`. */
  lemma TailGap(lines: seq<string>)
    requires |lines| >= 2 && lines[0] == []
    ensures Tail(lines) == "\n\n" + lines[1] + Tail(lines[2..])
  {
    TailCons(lines);
    TailCons(lines[1..]);
    assert lines[1..][1..] == lines[2..];
    AppendAssociative("\n", "\n" + lines[1], Tail(lines[2..]));
    AppendAssociative("\n", "\n", lines[1]);
  }

  /** Joining a line array is its first line followed by the tail of the rest. */
  lemma JoinIsFirstAndTail(lines: seq<string>)
    requires |lines| >= 1
    ensures Join(lines, '\n') == lines[0] + Tail(lines[1..])
  {
    if |lines| > 1 {
      assert Join(lines, '\n') == lines[0] + "\n" + Join(lines[1..], '\n');
    }
  }

  lemma TidyRest(lines: seq<string>)
    requires Tidy(lines)
    ensures var rest := lines[1..]; NoNewlines(rest) && EndsVisible(rest) && NoDoubleGap(rest)
  {
    var rest := lines[1..];
    forall i | 0 <= i < |rest| ensures rest[i] == lines[i + 1] { }
  }

  /** The clean-up regex finds nothing in a tidy joined array. */
  lemma CollapseTidy(lines: seq<string>)
    requires Tidy(lines)
    ensures CollapseBlankRuns(Join(lines, '\n')) == Join(lines, '\n')
  {
    var first := lines[0];
    JoinIsFirstAndTail(lines);
    TidyRest(lines);
    assert !IsSpace(first[|first| - 1]);
    CollapseLine(first);
    CollapseAppend(first, Tail(lines[1..]));
    CollapseTail(lines[1..]);
  }

  /** Left-trimming stops inside the first line when it ends in a visible character. */
  lemma TrimStartTidy(lines: seq<string>)
    requires Tidy(lines)
    ensures TrimStart(Join(lines, '\n')) == TrimStart(lines[0]) + Tail(lines[1..])
    ensures !IsBlank(lines[0])
  {
    var first := lines[0];
    JoinIsFirstAndTail(lines);
    assert !IsSpace(first[|first| - 1]);
    LeadingSpaceAppend(first, Tail(lines[1..]));
    DropAppend(first, Tail(lines[1..]), LeadingSpace(first));
    BlankIsAllSpace(first);
  }

  /** On a tidy line array `Finish` joins and left-trims the first line: the clean-up
      regex finds nothing, and the text is not blank. */
  lemma FinishTidy(lines: seq<string>)
    requires Tidy(lines)
    ensures !IsBlank(lines[0])
    ensures Split(Finish(lines), '\n') == [TrimStart(lines[0])] + lines[1..]
  {
    var r := [TrimStart(lines[0])] + lines[1..];
    CollapseTidy(lines);
    TrimStartTidy(lines);
    assert r[1..] == lines[1..];
    JoinIsFirstAndTail(r);
    var text := TrimStart(Join(lines, '\n'));
    assert !IsBlank(text) by {
      BlankIsAllSpace(text);
      BlankIsAllSpace(lines[0]);
      assert TrimStart(lines[0]) != [];
    }
    assert NoNewlines(r) by {
      forall i | 0 <= i < |r| ensures '\n' !in r[i] {
        if i > 0 { assert r[i] == lines[i]; }
      }
    }
    SplitJoin(r, '\n');
  }

  // ---------------------------------------------------------------------------------
  // The whole insertion.

  /** Every line is solid and none holds a newline. */
  predicate Clean(lines: seq<string>) {
    AllSolid(lines) && NoNewlines(lines)
  }

  lemma CleanAppend(a: seq<string>, b: seq<string>)
    requires Clean(a) && Clean(b)
    ensures Clean(a + b)
  {
    forall i | 0 <= i < |a + b| ensures Solid((a + b)[i]) && '\n' !in (a + b)[i] {
      if i >= |a| { assert (a + b)[i] == b[i - |a|]; }
    }
  }

  lemma CleanSubsequence(a: seq<string>, b: seq<string>)
    requires IsSubsequence(a, b) && Clean(b)
    ensures Clean(a)
  {
    SubsequenceMembers(a, b);
  }

  /** A clean array of at least one line is tidy. */
  lemma CleanIsTidy(lines: seq<string>)
    requires Clean(lines) && |lines| >= 1
    ensures Tidy(lines)
  {
  }

  /** A trimmed line with no newline that is not blank is a clean line. */
  lemma CleanTrimmed(line: string)
    requires '\n' !in line && !IsBlank(line)
    ensures Clean([Trim(line)])
  {
    var t := Trim(line);
    assert t != [];
    var n := LeadingSpace(line);
    assert forall k :: 0 <= k < |t| ==> t[k] == line[n + k];
  }

  /** A right-trimmed piece of a line holds no newline when the line holds none. */
  lemma NoNewlineTrimEnd(line: string)
    requires '\n' !in line
    ensures '\n' !in TrimEnd(line)
  {
    var t := TrimEnd(line);
    assert forall k :: 0 <= k < |t| ==> t[k] == line[k];
  }

  /** The old lines that survive are clean. */
  lemma KeptIsClean(kind: SnippetKind, code: string)
    ensures Clean(Kept(kind, code))
  {
    var pieces := Split(code, '\n');
    var dropped := DropReplaced(kind, pieces);
    SubsequenceMembers(dropped, pieces);
    NonBlankLinesClean(dropped);
  }

  lemma NonBlankLinesClean(lines: seq<string>)
    requires NoNewlines(lines)
    ensures Clean(NonBlankLines(lines))
  {
    var r := NonBlankLines(lines);
    SubsequenceMembers(r, MapTrimEnd(lines));
    forall i | 0 <= i < |r| ensures '\n' !in r[i] {
      var j :| 0 <= j < |lines| && r[i] == MapTrimEnd(lines)[j];
      NoNewlineTrimEnd(lines[j]);
    }
  }

  /** Trimmed copies of clean lines are clean. */
  lemma {:induction false} ConfigBlockClean(lines: seq<string>, inBlock: bool)
    requires Clean(lines)
    ensures Clean(ConfigScan(lines, inBlock).block)
  {
    if |lines| > 0 {
      var t := Trim(lines[0]);
      assert Clean(lines[1..]) by {
        forall i | 0 <= i < |lines| - 1 ensures lines[1..][i] == lines[i + 1] { }
      }
      ConfigBlockClean(lines[1..], StartsWith(t, ConfigPrefix) || (inBlock && !EndsWith(t, Mark)));
      assert !IsBlank(lines[0]) by { BlankIsAllSpace(lines[0]); }
      CleanTrimmed(lines[0]);
      CleanAppend([t], ConfigScan(lines[1..], StartsWith(t, ConfigPrefix) || (inBlock && !EndsWith(t, Mark))).block);
    }
  }

  /** What a directive snippet must look like for the rebuilt lines to come through the
      clean-up unchanged: a theme or header on one line, a configuration block without
      blank lines. */
  predicate OneLineDirective(kind: SnippetKind, st: string) {
    && Fits(kind, st) && st != []
    && (kind == Config ==> Clean(SnippetLines(st)))
    && (kind != Config ==> '\n' !in st)
  }

  lemma RebuiltIsClean(kind: SnippetKind, st: string, lines: seq<string>)
    requires OneLineDirective(kind, st) && Clean(lines) && Prepared(kind, lines)
    ensures Clean(Rebuild(kind, st, lines).Lines())
  {
    var r := Rebuild(kind, st, lines);
    ThemePartClean(kind, st, lines);
    ConfigPartClean(kind, st, lines);
    HeaderClean(kind, st, lines);
    RebuildBody(kind, lines);
    CleanSubsequence(r.body, lines);
    CleanAppend(r.theme, r.config);
    CleanAppend(r.theme + r.config, [r.header]);
    CleanAppend(r.theme + r.config + [r.header], r.body);
  }

  lemma ThemePartClean(kind: SnippetKind, st: string, lines: seq<string>)
    requires OneLineDirective(kind, st) && Clean(lines)
    ensures Clean(ThemePart(kind, st, lines))
  {
    if kind == Theme {
      assert Solid(st);
    } else if FirstWhere(lines, IsThemeLine).Some? {
      var j := FirstWhere(lines, IsThemeLine).value;
      assert !IsBlank(lines[j]) by { BlankIsAllSpace(lines[j]); }
      CleanTrimmed(lines[j]);
    }
  }

  lemma ConfigPartClean(kind: SnippetKind, st: string, lines: seq<string>)
    requires OneLineDirective(kind, st) && Clean(lines)
    ensures Clean(ConfigPart(kind, st, lines))
  {
    if kind != Config {
      CleanSubsequence(WithoutThemes(kind, lines), lines);
      ConfigBlockClean(WithoutThemes(kind, lines), false);
    }
  }

  lemma HeaderClean(kind: SnippetKind, st: string, lines: seq<string>)
    requires OneLineDirective(kind, st) && Clean(lines)
    ensures Clean([HeaderPart(kind, st, lines)])
  {
    if kind == Layout {
      assert Solid(st);
    } else if FirstWhere(lines, IsErdHeader).Some? {
      ExistingHeaderClean(kind, st, lines);
    } else {
      DefaultHeaderClean(kind, st, lines);
    }
  }

  lemma ExistingHeaderClean(kind: SnippetKind, st: string, lines: seq<string>)
    requires kind != Layout && Clean(lines) && FirstWhere(lines, IsErdHeader).Some?
    ensures Clean([HeaderPart(kind, st, lines)])
  {
    var j := FirstWhere(lines, IsErdHeader).value;
    assert !IsBlank(lines[j]) by { BlankIsAllSpace(lines[j]); }
    CleanTrimmed(lines[j]);
  }

  lemma DefaultHeaderClean(kind: SnippetKind, st: string, lines: seq<string>)
    requires kind != Layout && FirstWhere(lines, IsErdHeader).None?
    ensures Clean([HeaderPart(kind, st, lines)])
  {
    assert ErdKeyword[|ErdKeyword| - 1] == 'm';
    assert '\n' !in ErdKeyword;
  }

  /** Empty, or starting with a visible character. */
  predicate StartsVisible(line: string) {
    line == [] || !IsSpace(line[0])
  }

  lemma {:induction false} ConfigBlockStartsVisible(lines: seq<string>, inBlock: bool)
    ensures forall i :: 0 <= i < |ConfigScan(lines, inBlock).block| ==>
              StartsVisible(ConfigScan(lines, inBlock).block[i])
  {
    if |lines| > 0 {
      var t := Trim(lines[0]);
      ConfigBlockStartsVisible(lines[1..], StartsWith(t, ConfigPrefix) || (inBlock && !EndsWith(t, Mark)));
    }
  }

  /** The first line of a trimmed snippet starts where the snippet does. */
  lemma SnippetFirstLine(st: string)
    requires Trim(st) == st
    ensures StartsVisible(SnippetLines(st)[0])
  {
    var piece := Split(st, '\n')[0];
    SplitHead(st, '\n');
    var t := TrimEnd(piece);
    assert SnippetLines(st)[0] == t;
    if t != [] {
      assert t[0] == piece[0] == st[0];
    }
  }

  /** The rebuilt buffer's first line starts with a visible character, so the final
      `trimStart` leaves it alone. */
  lemma FirstLineStartsVisible(kind: SnippetKind, st: string, lines: seq<string>)
    requires OneLineDirective(kind, st)
    ensures StartsVisible(Rebuild(kind, st, lines).Lines()[0])
  {
    var r := Rebuild(kind, st, lines);
    if |r.theme| > 0 {
      assert r.Lines()[0] == r.theme[0];
    } else if |r.config| > 0 {
      assert r.Lines()[0] == r.config[0];
      if kind == Config {
        SnippetFirstLine(st);
      } else {
        ConfigBlockStartsVisible(WithoutThemes(kind, lines), false);
      }
    } else {
      assert r.Lines()[0] == r.header;
      HeaderPartTrimmed(kind, st, lines);
    }
  }

  /** A clean line array whose first line starts visibly comes through `Finish`
      unchanged. */
  lemma FinishClean(l: seq<string>)
    requires Clean(l) && |l| >= 1 && StartsVisible(l[0])
    ensures Split(Finish(l), '\n') == l
  {
    CleanIsTidy(l);
    FinishTidy(l);
    assert TrimStart(l[0]) == l[0];
    assert [l[0]] + l[1..] == l;
  }

  lemma FinishRebuilt(kind: SnippetKind, st: string, lines: seq<string>)
    requires OneLineDirective(kind, st) && Clean(lines) && Prepared(kind, lines)
    ensures Split(Finish(Rebuild(kind, st, lines).Lines()), '\n') == Rebuild(kind, st, lines).Lines()
  {
    RebuiltIsClean(kind, st, lines);
    FirstLineStartsVisible(kind, st, lines);
    FinishClean(Rebuild(kind, st, lines).Lines());
  }

  /** For a directive written on one line (or a configuration block without blank lines)
      the new buffer's lines are exactly the rebuilt ones: the clean-up regex and the
      trimming find nothing to change. */
  lemma InsertDirective(content: Option<string>, snippet: string)
    requires var st := Trim(snippet); OneLineDirective(Classify(st, ErdKeyword), st)
    ensures var st := Trim(snippet);
            var kind := Classify(st, ErdKeyword);
            Split(Insert(content, snippet), '\n') == Rebuild(kind, st, Kept(kind, Code(content))).Lines()
  {
    var st := Trim(snippet);
    var kind := Classify(st, ErdKeyword);
    var lines := Kept(kind, Code(content));
    assert Insert(content, snippet) == Finish(Rebuild(kind, st, lines).Lines());
    KeptIsClean(kind, Code(content));
    FinishRebuilt(kind, st, lines);
  }

  /** Applying a one-line theme directive leaves it as the buffer's first line and
      removes every other theme line. */
  lemma InsertThemeFirst(content: Option<string>, snippet: string)
    requires StartsWith(Trim(snippet), ThemePrefix) && '\n' !in Trim(snippet)
    ensures var out := Split(Insert(content, snippet), '\n');
            && out[0] == Trim(snippet)
            && forall i :: 1 <= i < |out| ==> !IsThemeLine(out[i])
  {
    var st := Trim(snippet);
    assert Classify(st, ErdKeyword) == Theme;
    assert OneLineDirective(Theme, st) by {
      assert |st| >= |ThemePrefix| > 0;
    }
    InsertDirective(content, snippet);
    ThemeLeadsAlone(st, Kept(Theme, Code(content)));
  }

  lemma ThemeLeadsAlone(st: string, lines: seq<string>)
    requires Fits(Theme, st) && Prepared(Theme, lines)
    ensures var out := Rebuild(Theme, st, lines).Lines();
            && out[0] == st
            && forall i :: 1 <= i < |out| ==> !IsThemeLine(out[i])
  {
    RebuildNoOtherTheme(Theme, st, lines);
    var r := Rebuild(Theme, st, lines);
    NoThemeAppend(r.config, [r.header]);
    NoThemeAppend(r.config + [r.header], r.body);
    AppendAssociative([st], r.config, [r.header]);
    AppendAssociative([st], r.config + [r.header], r.body);
    ConsTail(st, r.config + [r.header] + r.body);
  }

  lemma ConsTail(x: string, rest: seq<string>)
    requires NoTheme(rest)
    ensures forall i :: 1 <= i < |[x] + rest| ==> !IsThemeLine(([x] + rest)[i])
  {
    forall i | 1 <= i < |[x] + rest| ensures !IsThemeLine(([x] + rest)[i]) {
      assert ([x] + rest)[i] == rest[i - 1];
    }
  }

  lemma NoThemeAppend(a: seq<string>, b: seq<string>)
    requires NoTheme(a) && NoTheme(b)
    ensures NoTheme(a + b)
  {
    forall i | 0 <= i < |a + b| ensures !IsThemeLine((a + b)[i]) {
      if i >= |a| { assert (a + b)[i] == b[i - |a|]; }
    }
  }

  /** Applying a one-line layout directive puts it after the directives and removes
      every other header from the body. */
  lemma InsertLayoutOnce(content: Option<string>, snippet: string)
    requires IsHeader(ErdKeyword, Trim(snippet)) && '\n' !in Trim(snippet)
    ensures var st := Trim(snippet);
            var r := Rebuild(Layout, st, Kept(Layout, Code(content)));
            && Split(Insert(content, snippet), '\n') == r.theme + r.config + [st] + r.body
            && |r.theme| <= 1
            && NoHeader(r.body)
  {
    var st := Trim(snippet);
    var kind := Classify(st, ErdKeyword);
    assert kind == Layout;
    assert OneLineDirective(kind, st) by {
      assert |st| >= |ErdKeyword| > 0;
    }
    InsertDirective(content, snippet);
    LayoutShape(st, Kept(kind, Code(content)));
  }

  lemma LayoutShape(st: string, lines: seq<string>)
    requires Fits(Layout, st) && Prepared(Layout, lines)
    ensures var r := Rebuild(Layout, st, lines);
            && r.Lines() == r.theme + r.config + [st] + r.body
            && |r.theme| <= 1
            && NoHeader(r.body)
  {
    RebuildThemePart(Layout, st, lines);
    RebuildOneHeader(Layout, st, lines);
  }

  /** Applying a configuration block without blank lines puts its lines after the theme,
      removes the old blocks, and keeps one header after it. The body is exactly the old
      lines outside every block (`BlockwiseScan`), right-trimmed, without blank, theme or
      header lines, in their old order. */
  lemma InsertConfigBlock(content: Option<string>, snippet: string)
    requires StartsWith(Trim(snippet), ConfigPrefix) && Clean(SnippetLines(Trim(snippet)))
    ensures var st := Trim(snippet);
            var r := Rebuild(Config, st, Kept(Config, Code(content)));
            && Split(Insert(content, snippet), '\n') == r.theme + SnippetLines(st) + [r.header] + r.body
            && |r.theme| <= 1
            && IsErdHeader(r.header)
            && NoConfigStart(r.body)
            && r.body == Filter(Filter(NonBlankLines(BlockwiseScan(Split(Code(content), '\n')).kept),
                                       (l: string) => !IsThemeLine(l)),
                                (l: string) => !IsErdHeader(l))
  {
    var st := Trim(snippet);
    var kind := Classify(st, ErdKeyword);
    assert kind == Config;
    assert OneLineDirective(kind, st) by {
      assert |st| >= |ConfigPrefix| > 0;
    }
    InsertDirective(content, snippet);
    ConfigBlockShape(st, Kept(kind, Code(content)));
  }

  lemma ConfigBlockShape(st: string, lines: seq<string>)
    requires Fits(Config, st) && Prepared(Config, lines)
    ensures var r := Rebuild(Config, st, lines);
            && r.Lines() == r.theme + SnippetLines(st) + [r.header] + r.body
            && |r.theme| <= 1
            && IsErdHeader(r.header)
            && NoConfigStart(r.body)
  {
    RebuildThemePart(Config, st, lines);
    RebuildOneHeader(Config, st, lines);
    RebuildBody(Config, lines);
  }

  lemma KeywordClean()
    ensures Clean([ErdKeyword])
  {
    assert ErdKeyword[|ErdKeyword| - 1] == 'm';
    assert '\n' !in ErdKeyword;
  }

  /** Two clean arrays with one empty line between them are tidy. */
  lemma TidyWithGap(a: seq<string>, b: seq<string>)
    requires Clean(a) && Clean(b) && |a| >= 1
    ensures Tidy(a + [[]] + b)
  {
    var l := a + [[]] + b;
    forall i | 0 <= i < |l| ensures '\n' !in l[i] && (l[i] == [] || !IsSpace(l[i][|l[i]| - 1])) && (l[i] == [] <==> i == |a|) {
      if i < |a| { assert l[i] == a[i]; }
      else if i > |a| { assert l[i] == b[i - |a| - 1]; }
    }
  }

  /** The content branch's lines before the clean-up. */
  function ContentLines(content: Option<string>, snippet: string): seq<string> {
    var st := Trim(snippet);
    var kind := Classify(st, ErdKeyword);
    AppendSnippet(Kept(kind, Code(content)), SnippetLines(st), kind == Comment)
  }

  /** The appended array is the base with the snippet after it, with or without one
      blank separator. */
  lemma AppendShape(lines: seq<string>, sl: seq<string>, isComment: bool)
    requires NoBlank(lines)
    ensures var base := if |lines| == 0 then [ErdKeyword] else lines;
            var r := AppendSnippet(lines, sl, isComment);
            r == base + sl || r == base + [[]] + sl
  {
    var r := AppendSnippet(lines, sl, isComment);
    var gap: seq<string> := [];
    if |lines| == 0 {
      if isComment {
        assert r == [ErdKeyword] + gap + sl;
        assert [ErdKeyword] + gap == [ErdKeyword];
      }
    } else if EndsWith(Trim(lines[|lines| - 1]), "{") || isComment {
      assert r == lines + gap + sl;
      assert lines + gap == lines;
    }
  }

  lemma ContentLinesTidy(content: Option<string>, snippet: string)
    requires Clean(SnippetLines(Trim(snippet)))
    ensures Tidy(ContentLines(content, snippet))
  {
    var st := Trim(snippet);
    var kind := Classify(st, ErdKeyword);
    var kept := Kept(kind, Code(content));
    KeptIsClean(kind, Code(content));
    ContentTidy(kept, SnippetLines(st), kind == Comment);
  }

  lemma ContentTidy(kept: seq<string>, sl: seq<string>, isComment: bool)
    requires Clean(kept) && Clean(sl) && NoBlank(kept)
    ensures Tidy(AppendSnippet(kept, sl, isComment))
  {
    var base := if |kept| == 0 then [ErdKeyword] else kept;
    KeywordClean();
    AppendShape(kept, sl, isComment);
    var l := AppendSnippet(kept, sl, isComment);
    if l == base + sl {
      CleanAppend(base, sl);
      CleanIsTidy(l);
    } else {
      TidyWithGap(base, sl);
    }
  }

  /** For plain content or a comment whose lines are not blank, the new buffer is the old
      non-blank lines (the first one left-trimmed), a blank separator unless the last
      line opens a `{` block or the snippet is a comment, then the snippet's lines. */
  lemma InsertContent(content: Option<string>, snippet: string)
    requires !Classify(Trim(snippet), ErdKeyword).IsDirective()
    requires Clean(SnippetLines(Trim(snippet)))
    ensures var l := ContentLines(content, snippet);
            Split(Insert(content, snippet), '\n') == [TrimStart(l[0])] + l[1..]
  {
    ContentLinesTidy(content, snippet);
    var l := ContentLines(content, snippet);
    assert Insert(content, snippet) == Finish(l);
    FinishTidy(l);
  }

  /** The snippet's lines end the new buffer. */
  lemma InsertContentAtEnd(content: Option<string>, snippet: string)
    requires !Classify(Trim(snippet), ErdKeyword).IsDirective()
    requires Clean(SnippetLines(Trim(snippet)))
    ensures EndsIn(Split(Insert(content, snippet), '\n'), SnippetLines(Trim(snippet)))
  {
    InsertContent(content, snippet);
    ContentEndsWithSnippet(content, snippet);
  }

  lemma ContentEndsWithSnippet(content: Option<string>, snippet: string)
    requires !Classify(Trim(snippet), ErdKeyword).IsDirective()
    requires Clean(SnippetLines(Trim(snippet)))
    ensures var l := ContentLines(content, snippet);
            EndsIn([TrimStart(l[0])] + l[1..], SnippetLines(Trim(snippet)))
  {
    var st := Trim(snippet);
    var kind := Classify(st, ErdKeyword);
    var kept := Kept(kind, Code(content));
    KeptIsClean(kind, Code(content));
    AppendShape(kept, SnippetLines(st), kind == Comment);
    EndsWithSnippet(ContentLines(content, snippet), SnippetLines(st), if |kept| == 0 then [ErdKeyword] else kept);
  }

  /** `lines` ends with all of `tail` and has at least one line before it. */
  predicate EndsIn(lines: seq<string>, tail: seq<string>) {
    |tail| < |lines| && lines[|lines| - |tail|..] == tail
  }

  lemma EndsWithSnippet(l: seq<string>, sl: seq<string>, base: seq<string>)
    requires |base| >= 1 && (l == base + sl || l == base + [[]] + sl)
    ensures EndsIn([TrimStart(l[0])] + l[1..], sl)
  {
    var out := [TrimStart(l[0])] + l[1..];
    assert |l| > |sl| && l[|l| - |sl|..] == sl;
    assert out[|out| - |sl|..] == l[|l| - |sl|..];
  }
}

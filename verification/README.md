# ModelFlow editor core in Dafny

ModelFlow is a React front end that edits Mermaid diagrams (ER diagrams and data-flow
diagrams), asks an AI flow to generate diagrams or SQL, and renders the result. This
project models the deterministic core of those components as pure functions over line
sequences and immutable tab records, and proves what each one promises.

- `jstext.dfy` (`JsText`): the JavaScript string operations the components use (`trim`,
  `trimStart`, `trimEnd`, `split`/`join` on one character, `startsWith`, `endsWith`,
  `includes`, ASCII case folding, decimal numbers).
- `seqs.dfy` (`Seqs`): filtering, counting, subsequences, insertion and removal.
- `directives.dfy` (`Directives`): the Mermaid directive lines both editors recognise
  (theme `%%{init: {'theme':`, configuration `%% @config` … `%%`, the layout header with an
  optional `TD|LR|RL|BT` direction), and how a snippet is classified.
- `erd_splicer.dfy` (`ErdSplicer`): `insertMermaidSnippet` of the ER editor. It drops the
  directive being replaced and the blank lines. A directive snippet then rebuilds the
  buffer as one theme line, the configuration block, one header and the other lines. A
  comment or plain snippet is appended after an optional blank separator. Runs of blank
  lines are collapsed and the front is trimmed. The configuration block of a theme or
  layout snippet is rebuilt from the old block's lines, trimmed and with blank lines
  already dropped; before a layout snippet the header lines are already gone from it.
  Before a theme snippet, a header line inside an old block (or after an unterminated
  `%% @config` line) stays in the block, and the first header of the buffer is placed as
  well, so the buffer holds two or more header lines (`ErdSplicer.ThemeKeepsBlockHeader`).
- `dfd_splicer.dfy` (`DfdSplicer`): `insertMermaidSnippet` of the DFD editor, which edits
  the line array in place. The theme goes on top. The first configuration block is
  replaced after the first theme line. A layout snippet removes the first `graph` header
  and is itself inserted after the last closed configuration block, else after the last
  `%%{init:` line, else at the top. Plain snippets are appended. Then runs of three or more
  newlines are collapsed, the text is trimmed, and a missing `graph TD` header is added.
- `tabs.dfy` (`Tabs`): the tab record and the generic tab operations.
  The active-id fallback (`ResolveActive`) and the rename commit (`CommitRename`) belong to
  the ER editor, the DFD editor and the AI generator page. Content edits (`SetContent`)
  and clearing (`Clear`) belong to the ER and DFD editors only. `Add` and `Close` are the
  ER editor's; `AddCounted` serves the DFD editor, the AI generator page and the ModelFlow
  page, and `CloseCounted` the DFD editor and the AI generator page. The ModelFlow page
  has none of the others: its close is `ModelFlowTabs.CloseTab`.
- `erd_tabs.dfy`, `dfd_tabs.dfy`, `generator_tabs.dfy`, `modelflow_tabs.dfy`: the tab
  handlers of the ER editor (smallest free `ERD n` number), the DFD editor (a counter
  that only grows), the AI generator page (trailing-digit suffix on generation) and the
  ModelFlow page (last word of the name on generation, deferred replacement tab).
- `render_gate.dfy` (`RenderGate`): the render effect of `DiagramCanvas`. Leading `%%`
  segments are stripped, the diagram keyword is checked, and the effect decides whether to
  clear, reject or render.
- `diagram_actions.dfy` (`DiagramActions`): the server actions `handleGenerateDiagram` and
  `handleConvertToSql`. The AI flows are function parameters that either return a value
  or throw.
- `generation_panel.dfy` (`GenerationPanel`): the panel's length rule and the effect that
  deduplicates action states by their `${message}-${content}` signature and picks a toast.
- `id_alphabet.dfy` (`IdAlphabet`): the `nanoid` byte-to-character mapping, over bytes
  given as a parameter.

Random ids, random bytes and AI results are parameters, never computed. Toasts appear
only as tags or text fields in a result.

## Model

| member | source | states |
|---|---|---|
| Directives.Classify | src/components/ManualEditorPage.tsx:526-529 | a trimmed snippet is a theme exactly when it starts with the theme prefix, a config exactly when it starts with `%% @config`, a layout exactly when it is a header, a comment exactly when it starts with `%%` and is neither of the first two |
| ErdSplicer.ConfigScan | src/components/ManualEditorPage.tsx:571-579 | no kept line starts a configuration block; kept and block lines together number the buffer's lines; a buffer without a block start is kept whole |
| ErdSplicer.ConfigScanClosedBlock | src/components/ManualEditorPage.tsx:571-579 | a closed block (a start line, lines that close nothing, a line ending in `%%`) goes wholly into the block part, trimmed, and the lines after it are scanned afresh outside a block |
| ErdSplicer.ConfigScanOpenBlock | src/components/ManualEditorPage.tsx:571-579 | a block that no later line closes takes every line to the end, trimmed, and keeps none |
| ErdSplicer.ConfigScanAppend | src/components/ManualEditorPage.tsx:571-579 | scanning one line outside a block, or one closed block, followed by more lines gives the kept lines and the block lines of the two parts joined |
| ErdSplicer.ConfigScanBlockwise | src/components/ManualEditorPage.tsx:571-579 | the line-by-line scan equals a block-by-block reference: a line outside a block is kept, a block ends at the first later line that ends in `%%` and starts no block, and an unclosed block runs to the end |
| ErdSplicer.DropReplaced | src/components/ManualEditorPage.tsx:531-549 | the first pass leaves no line of the directive kind being replaced (no theme line, no block start, or no header) and is a subsequence of the buffer; for a configuration snippet it keeps exactly the lines outside the old blocks, each block running from its start line to the first later line that ends in `%%` |
| ErdSplicer.NonBlankLinesAppend | src/components/ManualEditorPage.tsx:552 | the clean-up of a concatenation is the concatenation of the clean-ups, so lines are kept in order and duplicates are kept |
| ErdSplicer.NonBlankLinesOne | src/components/ManualEditorPage.tsx:552 | a blank line is dropped and any other line is kept right-trimmed |
| ErdSplicer.NonBlankLines | src/components/ManualEditorPage.tsx:552 | a subsequence of the right-trimmed lines with no blank line in it that holds every non-blank line right-trimmed |
| ErdSplicer.Code | src/components/ManualEditorPage.tsx:521 | the tab's content when it is non-empty, else `erDiagram\n`; never empty |
| ErdSplicer.Kept | src/components/ManualEditorPage.tsx:521-552 | the buffer's lines after the first pass and the clean-up hold no directive of the kind being replaced |
| ErdSplicer.Rebuild | src/components/ManualEditorPage.tsx:554-592 | the snippet takes its own slot: a theme snippet is the theme part, a configuration snippet's lines the configuration part, a layout snippet the header |
| ErdSplicer.RebuildConfigPart | src/components/ManualEditorPage.tsx:566-581 | before a theme or layout snippet the configuration part is the old blocks in order, trimmed, found block by block (after dropping theme lines for a layout snippet) |
| ErdSplicer.PreparedSurvivesCleanup | src/components/ManualEditorPage.tsx:531-552 | right-trimming and dropping blank lines brings back no dropped directive |
| ErdSplicer.RebuildThemePart | src/components/ManualEditorPage.tsx:558-565 | the theme part is at most one line, a theme line, and for a config or layout snippet it is empty exactly when the buffer had no theme line |
| ErdSplicer.RebuildNoOtherTheme | src/components/ManualEditorPage.tsx:558-592 | the header and the body hold no theme line, and neither does the configuration part unless it is a configuration snippet's own lines |
| ErdSplicer.RebuildOneHeader | src/components/ManualEditorPage.tsx:582-590 | the header part is a header and no body line is one; for a theme or config snippet it is the first old header trimmed, else `erDiagram` |
| ErdSplicer.RebuildHeaderCount | src/components/ManualEditorPage.tsx:554-592 | the rebuilt buffer holds exactly one header line for a layout snippet, for a config snippet without a header line, and for a theme snippet when no old configuration block holds a header |
| ErdSplicer.ThemeKeepsBlockHeader | src/components/ManualEditorPage.tsx:570-590 | before a theme snippet, a header inside an old configuration block gives two header lines or more |
| ErdSplicer.BlockHoldsHeader | src/components/ManualEditorPage.tsx:573-578 | a header line right after a `%% @config` line is taken into the block |
| ErdSplicer.RebuildBody | src/components/ManualEditorPage.tsx:564-592 | the body is a subsequence of the buffer with no configuration start in it; before a theme snippet it is the lines outside old blocks without headers, before a layout snippet the lines outside old blocks without theme lines |
| ErdSplicer.RebuildKeepsPlainBody | src/components/ManualEditorPage.tsx:564-589 | a buffer with no directive of the three kinds keeps every line in order |
| ErdSplicer.AppendSnippet | src/components/ManualEditorPage.tsx:594-606 | an empty buffer gets `erDiagram` first; the snippet lines go at the end, after one blank separator unless the last line ends in `{` or the snippet is a comment |
| ErdSplicer.SplicedLines | src/components/ManualEditorPage.tsx:554-610 | never empty; a theme snippet is line 0; a comment or plain snippet's lines end the result |
| ErdSplicer.CollapseNoRun | src/components/ManualEditorPage.tsx:614 | text where the blank-run pattern matches nowhere is unchanged |
| ErdSplicer.CollapseStretch | src/components/ManualEditorPage.tsx:614 | a white-space stretch holding three newlines or more becomes two newlines followed by the spaces after its last newline |
| ErdSplicer.CollapseAppend | src/components/ManualEditorPage.tsx:614 | no match crosses a visible character, so text cut after one collapses piece by piece |
| ErdSplicer.BreakRun | src/components/ManualEditorPage.tsx:614 | a match is at least three characters long and starts with a newline |
| ErdSplicer.CollapseBlankRuns | src/components/ManualEditorPage.tsx:614 | the collapsed text is never longer than the text |
| ErdSplicer.Finish | src/components/ManualEditorPage.tsx:612-617 | the new buffer is never empty and starts with a visible character; blank output falls back to `erDiagram\n` |
| ErdSplicer.FinishTidy | src/components/ManualEditorPage.tsx:612-617 | lines without blank runs come back split as they were, the first one left-trimmed |
| ErdSplicer.InsertDirective | src/components/ManualEditorPage.tsx:518-620 | for a directive snippet (one line, or config lines ending in visible characters) the new buffer's lines are the rebuilt order: theme, config, header, body |
| ErdSplicer.InsertThemeFirst | src/components/ManualEditorPage.tsx:532-592 | after a one-line theme snippet the snippet is line 0 and no other line is a theme line |
| ErdSplicer.InsertLayoutOnce | src/components/ManualEditorPage.tsx:547-592 | after a layout snippet the snippet is the header between the directives and a body without headers |
| ErdSplicer.InsertConfigBlock | src/components/ManualEditorPage.tsx:534-592 | after a config snippet its lines sit between the theme part and the header, and the body is exactly the cleaned old lines outside old blocks, found block by block, with theme lines and headers dropped |
| ErdSplicer.InsertContent | src/components/ManualEditorPage.tsx:594-617 | after a comment or plain snippet the buffer is the cleaned old lines plus separator and snippet, front-trimmed |
| ErdSplicer.InsertContentAtEnd | src/components/ManualEditorPage.tsx:594-606 | after a comment or plain snippet the buffer ends with the snippet's lines |
| ErdSplicer.Insert | src/components/ManualEditorPage.tsx:518-620 | the new buffer is never empty and never starts with white space |
| ErdTabs.UsedNumbers | src/components/ManualEditorPage.tsx:450-455 | exactly the positive numbers of tabs named `ERD <digits>` |
| ErdTabs.ErdNumberOfName | src/components/ManualEditorPage.tsx:452-453 | the name `ERD n` reads back as n |
| ErdTabs.NextDiagramNumber | src/components/ManualEditorPage.tsx:449-469 | the smallest positive number no tab uses, 1 when none matches, at most the count of matches plus one |
| ErdTabs.AddTab | src/components/ManualEditorPage.tsx:826-839 | appends an ER tab with the default content under the next free number, a name no tab has, and makes it active |
| ErdTabs.AddKeepsNumbersDistinct | src/components/ManualEditorPage.tsx:826-839 | adding tabs keeps the `ERD n` numbers distinct |
| ErdTabs.CloseTab | src/components/ManualEditorPage.tsx:841-858 | removes exactly that id and keeps the order of the rest; an emptied list becomes one `ERD 1` tab |
| ErdTabs.ClearCanvas | src/components/ManualEditorPage.tsx:723-727 | only the active tab changes, to `erDiagram\n`; without an active tab nothing changes |
| Tabs.FindById | src/components/ManualEditorPage.tsx:505 | finds a tab exactly when one has the id, and then the first tab with that id (with unique ids, the only one) |
| Tabs.ResolveActive | src/components/ManualEditorPage.tsx:486-496 | null exactly when there are no tabs; a valid active id is kept; otherwise the first tab's id |
| Tabs.ResolveSettles | src/components/ManualEditorPage.tsx:486-496 | a second run of the effect changes nothing |
| Tabs.SetContent | src/components/ManualEditorPage.tsx:508-516 | only the active tab's content changes; ids and every other tab are untouched |
| Tabs.SetContentShows | src/components/ManualEditorPage.tsx:505-516 | the active tab then shows the new code |
| Tabs.SetContentTwice | src/components/ManualEditorPage.tsx:508-516 | the second of two edits wins |
| Tabs.ActiveCode | src/components/ManualEditorPage.tsx:505-506 | empty without an active id or without a tab that has it; non-empty code is the content of a tab with the active id |
| Tabs.Clear | src/components/ManualEditorPage.tsx:723-727 | ids stay; without an active tab nothing changes; otherwise the active tab shows the minimal content and every other tab is untouched |
| Tabs.Add | src/components/ManualEditorPage.tsx:836-837 | appends the tab, makes it active and keeps ids unique |
| Tabs.Close | src/components/ManualEditorPage.tsx:850-857 | removes exactly that id, keeps the others in order and keeps ids unique; an emptied list becomes the replacement |
| Tabs.CloseRemovesOne | src/components/ManualEditorPage.tsx:850 | closing one of several unique ids shortens the list by one |
| Tabs.CommitRename | src/components/ManualEditorPage.tsx:800-811 | renames only on a trimmed, non-empty, changed name, notes an empty name, and always leaves rename mode |
| Tabs.RenameTwice | src/components/ManualEditorPage.tsx:800-811 | committing the same rename twice changes nothing more |
| DfdTabs.Mount | src/components/DfdEditorPage.tsx:196-209 | the first tab is `DFD 1` and the counter moves on to 2 |
| DfdTabs.AddTab | src/components/DfdEditorPage.tsx:492-504 | appends `DFD <counter>`, makes it active and bumps the counter |
| DfdTabs.CloseTab | src/components/DfdEditorPage.tsx:506-521 | removes that id; an emptied list gets `DFD <counter>` and the counter grows |
| DfdTabs.Step | src/components/DfdEditorPage.tsx:441-521 | an event takes no name and leaves the counter, or takes `DFD <counter>` and moves the counter on by one |
| DfdTabs.Run | src/components/DfdEditorPage.tsx:492-521 | every name handed out is `DFD <counter + i>` and the counter grows by their number |
| DfdTabs.NamesNeverRepeat | src/components/DfdEditorPage.tsx:492-521 | names handed out over any run of adds and closes are pairwise distinct |
| GeneratorTabs.Mount | src/components/AiDiagramGeneratorPage.tsx:35-48 | one `Diagram 1` tab, active, with the counter at 2 |
| GeneratorTabs.AddTab | src/components/AiDiagramGeneratorPage.tsx:69-81 | appends an `Untitled` tab named `Diagram <counter>` with no content, active, counter bumped |
| GeneratorTabs.CloseTab | src/components/AiDiagramGeneratorPage.tsx:83-100 | removes that id; an emptied list gets a fresh `Diagram <counter>` tab |
| GeneratorTabs.Suffix | src/components/AiDiagramGeneratorPage.tsx:103-109 | the trailing digits of the active tab's name, else the counter, which is then used up |
| GeneratorTabs.Generated | src/components/AiDiagramGeneratorPage.tsx:102-132 | only the active tab changes, to `<type> Diagram <suffix>` with the content; with no active id a new tab is appended and made active |
| GeneratorTabs.GeneratedNameDigits | src/components/AiDiagramGeneratorPage.tsx:104-116 | a generated name ends in its suffix digits |
| GeneratorTabs.RegenerateKeepsNumber | src/components/AiDiagramGeneratorPage.tsx:102-119 | generating again into the same tab keeps its number and does not use the counter |
| GeneratorTabs.AddThenGenerate | src/components/AiDiagramGeneratorPage.tsx:69-132 | a new tab that is generated into keeps the number it was given |
| ModelFlowTabs.AddTab | src/components/ModelFlowPage.tsx:41-53 | appends an `Untitled` tab `Diagram <counter>` with no content and makes it active |
| ModelFlowTabs.CloseTab | src/components/ModelFlowPage.tsx:55-77 | removes exactly that id; closing the active tab activates the first remaining one or null; an emptied list leaves a deferred fresh tab |
| ModelFlowTabs.CloseKeepsActiveValid | src/components/ModelFlowPage.tsx:56-65 | a valid active id stays valid or becomes null |
| ModelFlowTabs.Generated | src/components/ModelFlowPage.tsx:79-100 | only the active tab changes, to `<type> Diagram <last word of its name>`; with none a new tab is appended and made active |
| ModelFlowTabs.GeneratedNameWord | src/components/ModelFlowPage.tsx:84 | the last word of a generated name is the word it was built from |
| ModelFlowTabs.RegenerateKeepsWord | src/components/ModelFlowPage.tsx:80-87 | generating twice keeps the word the first name ended in |
| ModelFlowTabs.AddThenGenerate | src/components/ModelFlowPage.tsx:41-100 | a new tab that is generated into keeps its number |
| DfdSplicer.CollapseNewlines | src/components/DfdEditorPage.tsx:320 | no run of three newlines is left, the other characters are kept in order, and a leading run of three or more becomes two |
| DfdSplicer.CollapseRun | src/components/DfdEditorPage.tsx:320 | a run of n newlines becomes two when n is at least three and is kept otherwise |
| DfdSplicer.CollapseVisibleFirst | src/components/DfdEditorPage.tsx:320 | a character other than a newline is kept and the rest collapsed |
| DfdSplicer.CollapseAppend | src/components/DfdEditorPage.tsx:320 | text cut before a character other than a newline collapses piece by piece |
| DfdSplicer.CollapseIdentity | src/components/DfdEditorPage.tsx:320 | text is unchanged exactly when it holds no run of three newlines |
| DfdSplicer.CollapseIdempotent | src/components/DfdEditorPage.tsx:320 | collapsing twice is collapsing once |
| DfdSplicer.Normalize | src/components/DfdEditorPage.tsx:320 | collapsed and trimmed: no triple newline, no outer white space, and empty only for blank text |
| DfdSplicer.Code | src/components/DfdEditorPage.tsx:246 | the tab's content when it is non-empty, else `graph TD\n` |
| DfdSplicer.PlaceTheme | src/components/DfdEditorPage.tsx:256-258 | the snippet is line 0, no other line is a theme line, and every other old line is kept in order |
| DfdSplicer.FirstBlock | src/components/DfdEditorPage.tsx:262-275 | none exactly when no line starts a block; otherwise the first start up to the first later `%%` line, or the start line alone |
| DfdSplicer.WithoutFirstBlock | src/components/DfdEditorPage.tsx:276-280 | the first block is cut out and nothing else |
| DfdSplicer.ThemeSlot | src/components/DfdEditorPage.tsx:281-282 | just after the first theme line, or 0 when there is none |
| DfdSplicer.PlaceConfig | src/components/DfdEditorPage.tsx:261-283 | the snippet lines are inserted at the theme slot of the buffer without its first block |
| DfdSplicer.ConfigTwice | src/components/DfdEditorPage.tsx:261-283 | inserting the same configuration block twice is inserting it once |
| DfdSplicer.LastRunEnd | src/components/DfdEditorPage.tsx:292-300 | an index found closes a block |
| DfdSplicer.LastRunEndIsLast | src/components/DfdEditorPage.tsx:292-300 | the index found closes a block under the forward scan, and no later line closes one |
| DfdSplicer.SlotAfter | src/components/DfdEditorPage.tsx:290-305 | the slot follows a closing line or an `init` line; it is 0 only when no line is an `init` line; with no block start no `init` line comes after it |
| DfdSplicer.SlotAfterLast | src/components/DfdEditorPage.tsx:290-305 | the slot is just after the last closed block, else just after the last `init` line |
| DfdSplicer.PlaceLayout | src/components/DfdEditorPage.tsx:285-306 | the first header is removed and the snippet inserted at the layout slot |
| DfdSplicer.LayoutHeaderCount | src/components/DfdEditorPage.tsx:286-306 | the header count stays the same, or becomes one when there was none |
| DfdSplicer.LayoutOnce | src/components/DfdEditorPage.tsx:286-306 | a buffer with at most one header ends up with exactly one |
| DfdSplicer.AppendSnippet | src/components/DfdEditorPage.tsx:308-316 | the snippet goes at the end, after one blank line when the last line is not blank and the snippet is no comment; an empty buffer first gets `graph TD` unless the snippet is a comment |
| DfdSplicer.Edited | src/components/DfdEditorPage.tsx:256-316 | the edited lines of a non-empty buffer are never empty; each branch is stated by `DfdSplicer.PlaceTheme`, `PlaceConfig`, `PlaceLayout` and `AppendSnippet` |
| DfdSplicer.EditedLines | src/components/DfdEditorPage.tsx:246-316 | the edited lines are never empty |
| DfdSplicer.LeadsToGraph | src/components/DfdEditorPage.tsx:322 | a match is at least as long as `graph` |
| DfdSplicer.Finish | src/components/DfdEditorPage.tsx:318-336 | the new buffer is `graph TD\n` or collapsed and trimmed, and never empty after a plain snippet |
| DfdSplicer.FinishPlain | src/components/DfdEditorPage.tsx:321-336 | after a plain snippet the new buffer is `graph TD\n` or collapsed and trimmed, and never empty |
| DfdSplicer.LeadingMarkLines | src/components/DfdEditorPage.tsx:324-331 | the count of leading `%%` lines |
| DfdSplicer.WithGraphHeader | src/components/DfdEditorPage.tsx:323-335 | the result mentions `graph`; lines that already mention it are kept as they are; otherwise `graph TD` goes in after the leading `%%` lines |
| DfdSplicer.Insert | src/components/DfdEditorPage.tsx:243-338 | the new buffer is `graph TD\n` or collapsed and trimmed, and plain snippets never leave it empty |
| DfdSplicer.DirectiveText | src/components/DfdEditorPage.tsx:319-320 | for a directive snippet the buffer is the edited lines joined, collapsed and trimmed |
| DfdSplicer.InsertThemeFirst | src/components/DfdEditorPage.tsx:256-320 | after a one-line theme snippet the snippet is line 0 of the new buffer |
| DfdSplicer.ThemeLeads | src/components/DfdEditorPage.tsx:256-258 | the edited lines start with the trimmed snippet |
| DfdSplicer.InsertTidy | src/components/DfdEditorPage.tsx:319-320 | tidy edited lines come back unchanged after the clean-up |
| DfdSplicer.InsertPlainTidy | src/components/DfdEditorPage.tsx:319-336 | tidy edited lines that mention `graph` or start with it come back unchanged |
| DfdSplicer.InsertHeaderAdded | src/components/DfdEditorPage.tsx:323-335 | tidy lines that do not start with `graph` come back with the header added after the leading `%%` lines |
| DfdSplicer.InsertThemeTidy | src/components/DfdEditorPage.tsx:256-320 | the theme snippet is line 0, no other line is a theme line, the rest are old lines in order |
| DfdSplicer.InsertLayoutTidy | src/components/DfdEditorPage.tsx:285-320 | the header count of the new buffer is the old one, or one when there was none |
| DfdSplicer.InsertHeaderOnTop | src/components/DfdEditorPage.tsx:323-335 | tidy lines that mention no `graph` and start with neither `%` nor `g` get `graph TD` as line 0 |
| RenderGate.StripOnce | src/components/DiagramCanvas.tsx:144-156 | one round is strictly shorter: cut after the next `%%` at index 2 or later, else drop the first line, else empty |
| RenderGate.Strip | src/components/DiagramCanvas.tsx:143-158 | the stripped text does not start with `%%` and is no longer than the input |
| RenderGate.StripFixpoint | src/components/DiagramCanvas.tsx:143-158 | text is its own strip exactly when it does not start with `%%`, and stripping twice is stripping once |
| RenderGate.StripDirectives | src/components/DiagramCanvas.tsx:139-158 | the loop computes the strip |
| RenderGate.IsLikelyMermaid | src/components/DiagramCanvas.tsx:160 | true exactly when the text starts, after white space, with one of the eleven keywords, letter case ignored |
| RenderGate.Head | src/components/DiagramCanvas.tsx:163 | at most 100 characters, a prefix, the whole text when it is short enough |
| RenderGate.RejectionMessage | src/components/DiagramCanvas.tsx:163 | the error starts with the fixed explanation, is bounded in length, and holds both texts whole when each is at most 100 characters |
| RenderGate.Check | src/components/DiagramCanvas.tsx:134-195 | cleared exactly for null or empty data; rejected exactly when the stripped text is non-empty and has no keyword; otherwise rendered as given |
| RenderGate.DirectivesOnlyRender | src/components/DiagramCanvas.tsx:162 | data that strips to nothing is rendered |
| RenderGate.KeywordRenders | src/components/DiagramCanvas.tsx:160-172 | data starting with a keyword is rendered |
| DiagramActions.DescriptionIssues | src/lib/actions/diagramActions.ts:10-13 | no issue exactly when the description is a string of at least 10 characters |
| DiagramActions.HandleGenerateDiagram | src/lib/actions/diagramActions.ts:22-74 | validation failure with field errors, or success with content, or the empty-diagram notice, or `Error: ` and the thrown message |
| DiagramActions.RefusedSkipsFlow | src/lib/actions/diagramActions.ts:31-39 | a refused description gives the same state whatever the flow would do |
| DiagramActions.GenerateOutcomes | src/lib/actions/diagramActions.ts:22-74 | content exactly when the description is valid and the flow returns non-empty text; field errors exactly when it is invalid |
| DiagramActions.HandleConvertToSql | src/lib/actions/diagramActions.ts:87-115 | exactly one of code and error; short code gives the length error; a flow error wins; code comes with the success message |
| DiagramActions.ShortCodeSkipsFlow | src/lib/actions/diagramActions.ts:90-96 | short code gives the same state whatever the flow would do |
| DiagramActions.FlowErrorWins | src/lib/actions/diagramActions.ts:100-102 | a flow error is returned even when SQL came with it |
| GenerationPanel.FormIssue | src/components/AiGenerationPanel.tsx:25-29 | no issue exactly when the description has at least 10 characters |
| GenerationPanel.React | src/components/AiGenerationPanel.tsx:59-91 | no reaction without a message or for an already seen signature; content is delivered with the selected type; otherwise an error toast exactly when the message mentions an error or fields failed, else an info toast |
| GenerationPanel.ReactOnce | src/components/AiGenerationPanel.tsx:62-88 | a state that was processed is never processed again |
| GenerationPanel.SignaturesCollide | src/components/AiGenerationPanel.tsx:62-65 | two different states can share a signature, so the second is skipped |
| GenerationPanel.PanelReadsAction | src/components/AiGenerationPanel.tsx:59-91 | over the action's states: content is delivered, a refused description and a thrown flow give error toasts, an empty diagram gives an info toast |
| GenerationPanel.ErrorPrefix | src/components/AiGenerationPanel.tsx:74 | a message starting `Error: ` reads as an error |
| GenerationPanel.EmptyDiagramIsNotice | src/components/AiGenerationPanel.tsx:74-86 | the empty-diagram message does not read as an error |
| IdAlphabet.Symbol | src/lib/utils.ts:15-25 | indexes below 62 give the alphanumerics, 62 and 63 give `-` |
| IdAlphabet.SymbolIndexRoundTrip | src/lib/utils.ts:15-20 | every index below 62 is read back from its character |
| IdAlphabet.Generate | src/lib/utils.ts:10-28 | one character per byte, bytes read from the last to the first |
| IdAlphabet.GenerateIsIdFrom | src/lib/utils.ts:10-28 | the loop's result is the functional definition |
| IdAlphabet.IdFromAt | src/lib/utils.ts:13-14 | character k comes from byte `size - 1 - k` |
| IdAlphabet.WrittenId | src/lib/utils.ts:10-28 | as many characters as bytes |
| IdAlphabet.WrittenIndexes | src/lib/utils.ts:14 | the masked index is below 62 and its bit 1 is clear |
| IdAlphabet.WrittenMissesSymbols | src/lib/utils.ts:14-25 | every character is alphanumeric, and `2`, `a` and `C` never appear |
| IdAlphabet.WrittenByteTwo | src/lib/utils.ts:14 | byte 2 gives `0` |
| IdAlphabet.FullReachesAll | src/lib/utils.ts:14-25 | with mask 63 every alphanumeric and `-` is produced by some byte |
| IdAlphabet.FullIdSymbols | src/lib/utils.ts:14-25 | with mask 63 every character is alphanumeric or `-` |

## Left out

- Rendering with Mermaid, SVG/PNG/PDF/MMD export, the clipboard, zoom and fit scaling:
  foreign library calls, DOM work and floating point.
- Toasts: the model keeps only what a toast would say where a contract needs it
  (`GenerationPanel.React`); titles, variants and the toasts of the editors and tab
  handlers are left out.
- The AI flows and their prompts: `DiagramActions` takes them as function parameters
  that return a value or throw.
- React scheduling. The deferred `setTimeout` repopulation of ModelFlowPage.tsx:66-73 is
  returned as the `deferred` tab of `ModelFlowTabs.CloseTab` and is not run. The
  `useActionState` wiring is also left out.
- `crypto.getRandomValues` and `nanoid()` calls: bytes and fresh ids are parameters.
- DiagramActions.HandleGenerateDiagram: a `File` value from `formData.get` is not
  modelled. The description is a string or missing, and a missing one gets zod's message
  for a non-string.
- DiagramActions.DescriptionIssues: lengths count characters, where JavaScript counts
  UTF-16 code units. The two agree on the Basic Multilingual Plane only.
- DiagramActions.HandleConvertToSql: the same character count stands for the UTF-16
  length of the code.
- GenerationPanel.FormIssue: the same character count stands for the UTF-16 length.
- RenderGate.Head: `substring(0, 100)` is taken over characters, not UTF-16 code units.
- Case-insensitive matching folds ASCII letters only. This is what the patterns used here
  need, and no Unicode case folding is modelled.
- ErdTabs.NextDiagramNumber: the `sort` before the search is left out because it
  does not change the result. `parseInt` is modelled on unbounded naturals, with no
  precision loss past 2^53.
- DfdSplicer.InsertTidy assumes `Tidy` edited lines: the first line starts visible, the
  last line ends visible, and no two empty lines are adjacent. A buffer that ends in a
  newline leaves an empty last line and is outside it.
- DfdSplicer.InsertPlainTidy assumes `Tidy` edited lines.
- DfdSplicer.InsertHeaderAdded assumes `Tidy` edited lines, before and after the header.
- DfdSplicer.InsertThemeTidy assumes `Tidy` edited lines. For every buffer the same facts
  are stated on the edited lines (`DfdSplicer.PlaceTheme`, `DfdSplicer.ThemeLeads`).
- DfdSplicer.InsertLayoutTidy assumes `Tidy` edited lines. For every buffer the count is
  stated on the edited lines (`DfdSplicer.LayoutHeaderCount`).
- DfdSplicer.InsertHeaderOnTop assumes `Tidy` edited lines.
- ErdSplicer.InsertDirective covers one-line theme and layout snippets only. A
  configuration snippet must have every line end in a visible character (`Clean`).
- ErdSplicer.InsertConfigBlock assumes every snippet line ends in a visible character
  (`Clean`), so the snippet has no blank line.
- ErdSplicer.InsertContent assumes the same of a comment or plain snippet. For other
  snippets the result is stated on line sequences (`ErdSplicer.AppendSnippet`).
- ErdSplicer.InsertContentAtEnd has the same assumption.
- ErdSplicer.InsertThemeFirst requires a one-line theme snippet. The editor's menu
  (ManualEditorPage.tsx:413-417) offers only one-line theme snippets.
- ErdSplicer.InsertLayoutOnce requires a one-line layout snippet. The header pattern also
  matches `erDiagram` and a direction on two lines, but the menu
  (ManualEditorPage.tsx:418-419) offers only one-line layout snippets.
- DfdSplicer.InsertThemeFirst requires a one-line theme snippet. The DFD menu
  (DfdEditorPage.tsx:177-181) offers only one-line theme snippets.
- ErdSplicer.RebuildHeaderCount needs its conditions. Before a theme snippet, an old
  configuration block that holds a header leaves two or more headers
  (`ErdSplicer.ThemeKeepsBlockHeader`).
- The `handleExport*`, `loadExampleDiagram`, rename key handling, the SQL dialog state in
  `processConvertToSQL` and the example and tool tables: UI plumbing and static data.

## Findings

| source | as written | input that shows it | evidently intended | confidence | as-written member | corrected member |
|---|---|---|---|---|---|---|
| src/lib/utils.ts:14 | `bytes[size] & 61` clears bit 1 of every index, so only 32 of the 64 indexes occur | any byte: `2` never appears, and byte 2 gives `0`; the `-` branch is dead | mask 63, so that 0-61 give the 62 alphanumerics and 62-63 give `-` | not executed | IdAlphabet.WrittenMissesSymbols | IdAlphabet.FullReachesAll |

/**
 * The AI generation panel: the form's own length rule, and the effect that reacts to
 * each new state the generate action returns. The effect remembers the last state it
 * handled and skips a state whose `${message}-${content}` text is the same, so a
 * re-render never handles a state twice.
 */
module GenerationPanel {
  import opened JsText
  import opened Tabs
  import opened DiagramActions

  const ShortDescription: string := "Description must be at least 10 characters."

  /** The form schema: a description shorter than ten characters is refused with a
      message, before the action runs. */
  function FormIssue(desc: string): (r: Option<string>)
    ensures r.None? <==> |desc| >= MinLength
    ensures r.Some? ==> r.value == ShortDescription
  {
    if |desc| < MinLength then Some(ShortDescription) else None
  }

  /** `processedStateRef`: the message and content of the last state handled. */
  datatype Processed = Processed(message: Option<string>, content: Option<string>)

  const NothingProcessed: Processed := Processed(None, None)

  /** A `string | null` inside a template string. */
  function Show(s: Option<string>): string {
    if s.Some? then s.value else "null"
  }

  /** `${message}-${content}` */
  function Signature(message: Option<string>, content: Option<string>): string {
    Show(message) + "-" + Show(content)
  }

  /** What the effect does with a state. */
  datatype Reaction =
    | NoReaction
    | Delivered(content: string, kind: Notation, toast: string)  // success toast, diagram handed on, form reset
    | ErrorToast(text: string)
    | InfoToast(text: string)

  /** Does the text read as an error: `message.toLowerCase().includes("error")`. */
  predicate MentionsError(message: string) {
    Contains(LowerAsciiString(message), "error")
  }

  /** The effect on `state` with the panel's selected type. */
  function React(state: GenerateState, memory: Processed, selected: Notation): (r: (Reaction, Processed))
    ensures !Truthy(state.message) ==> r == (NoReaction, memory)
    ensures (Truthy(state.message) && Signature(state.message, state.diagramContent) == Signature(memory.message, memory.content))
              ==> r == (NoReaction, memory)
    ensures r.0 != NoReaction <==>
              Truthy(state.message) && Signature(state.message, state.diagramContent) != Signature(memory.message, memory.content)
    ensures r.0 != NoReaction ==> r.1 == Processed(state.message, state.diagramContent)
    ensures r.0.Delivered? <==> r.0 != NoReaction && Truthy(state.diagramContent)
    ensures r.0.Delivered? ==> r.0 == Delivered(state.diagramContent.value, selected, state.message.value)
    ensures r.0.ErrorToast? <==>
              r.0 != NoReaction && !Truthy(state.diagramContent)
              && (MentionsError(state.message.value) || |state.errorFields| > 0)
    ensures r.0.ErrorToast? || r.0.InfoToast? ==> r.0.text == state.message.value
  {
    if !Truthy(state.message) then (NoReaction, memory)
    else if Signature(state.message, state.diagramContent) == Signature(memory.message, memory.content) then (NoReaction, memory)
    else
      var message := state.message.value;
      var reaction :=
        if Truthy(state.diagramContent) then Delivered(state.diagramContent.value, selected, message)
        else if MentionsError(message) || |state.errorFields| > 0 then ErrorToast(message)
        else InfoToast(message);
      (reaction, Processed(state.message, state.diagramContent))
  }

  /** Handling a state twice handles it once: the second run does nothing. */
  lemma ReactOnce(state: GenerateState, memory: Processed, selected: Notation, other: Notation)
    ensures var (_, after) := React(state, memory, selected);
            React(state, after, other) == (NoReaction, after)
  {
  }

  /** The effect compares texts, not pairs: a state is skipped when its text equals the
      remembered one even though message and content differ. */
  lemma SignaturesCollide()
    ensures var memory := Processed(Some("a-b"), None);
            var state := GenerateState(Some("a"), Some("b-null"), map[]);
            && (memory.message, memory.content) != (state.message, state.diagramContent)
            && React(state, memory, ER) == (NoReaction, memory)
  {
    var memory := Processed(Some("a-b"), None);
    var state := GenerateState(Some("a"), Some("b-null"), map[]);
    assert Signature(state.message, state.diagramContent) == "a-b-null" == Signature(memory.message, memory.content);
  }

  /** What a fresh panel does with each kind of answer from the generate action: a
      diagram is handed on, a refused description or a failed flow shows an error, and
      an empty diagram shows a notice. */
  lemma PanelReadsAction(t: Notation, desc: Option<string>, generate: GenerateRequest -> FlowOutcome<string>, selected: Notation)
    ensures var state := HandleGenerateDiagram(t, desc, generate);
            var reaction := React(state, NothingProcessed, selected).0;
            && (state.diagramContent.Some? ==> reaction == Delivered(state.diagramContent.value, selected, SuccessMessage))
            && (DescriptionIssues(desc) != [] ==> reaction == ErrorToast(ValidationFailed))
            && (DescriptionIssues(desc) == [] && generate(GenerateRequest(desc.value, t)).Threw? ==> reaction.ErrorToast?)
            && (DescriptionIssues(desc) == [] && generate(GenerateRequest(desc.value, t)) == Returned([]) ==>
                  reaction == InfoToast(EmptyDiagram))
  {
    var state := HandleGenerateDiagram(t, desc, generate);
    assert Signature(NothingProcessed.message, NothingProcessed.content)[0] == 'n';
    assert Signature(state.message, state.diagramContent)[0] == state.message.value[0];
    if DescriptionIssues(desc) != [] {
      assert "textDescription" in state.errorFields;
    } else if generate(GenerateRequest(desc.value, t)).Threw? {
      ErrorPrefix(FailureMessage(generate(GenerateRequest(desc.value, t)).thrown, UnexpectedGenerate));
    } else if generate(GenerateRequest(desc.value, t)) == Returned([]) {
      EmptyDiagramIsNotice();
    }
  }

  /** `Error: …` mentions an error. */
  lemma ErrorPrefix(m: string)
    ensures MentionsError("Error: " + m)
  {
    var low := LowerAsciiString("Error: " + m);
    assert low[0..5] == "error";
    assert OccursAt(low, "error", 0);
  }

  /** The text never has two `r`s in a row, in either case. */
  predicate NoDoubleR(m: string) {
    forall i :: 0 <= i < |m| - 1 ==> LowerAscii(m[i]) != 'r' || LowerAscii(m[i + 1]) != 'r'
  }

  /** A text without two `r`s in a row cannot mention an error. */
  lemma NoDoubleRNoError(m: string)
    requires NoDoubleR(m)
    ensures !MentionsError(m)
  {
    var low := LowerAsciiString(m);
    forall i: nat | i <= |low| ensures !OccursAt(low, "error", i) {
      if i + 5 <= |low| {
        assert LowerAscii(m[i + 1]) != 'r' || LowerAscii(m[i + 2]) != 'r';
        assert low[i..i + 5][1] == low[i + 1];
        assert low[i..i + 5][2] == low[i + 2];
      }
    }
  }

  /** Two texts without a double `r` whose seam is not `rr` join into one. */
  lemma NoDoubleRAppend(a: string, b: string)
    requires NoDoubleR(a) && NoDoubleR(b) && |a| > 0 && |b| > 0
    requires LowerAscii(a[|a| - 1]) != 'r' || LowerAscii(b[0]) != 'r'
    ensures NoDoubleR(a + b)
  {
    var m := a + b;
    forall i | 0 <= i < |m| - 1 ensures LowerAscii(m[i]) != 'r' || LowerAscii(m[i + 1]) != 'r' {
      if i + 1 < |a| {
        assert m[i] == a[i] && m[i + 1] == a[i + 1];
      } else if i >= |a| {
        assert m[i] == b[i - |a|] && m[i + 1] == b[i - |a| + 1];
      }
    }
  }

  /** The empty-diagram notice does not mention an error. */
  lemma EmptyDiagramIsNotice()
    ensures !MentionsError(EmptyDiagram)
  {
    var a, b, c, d := "AI generated an ", "empty diagram. ", "Try refining ", "your description.";
    assert NoDoubleR(a) && NoDoubleR(b) && NoDoubleR(c) && NoDoubleR(d);
    NoDoubleRAppend(a, b);
    NoDoubleRAppend(a + b, c);
    NoDoubleRAppend(a + b + c, d);
    NoDoubleRNoError(EmptyDiagram);
  }
}

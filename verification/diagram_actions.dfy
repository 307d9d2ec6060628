/**
 * The two server actions behind the AI features. The language-model flows they call are
 * outside the model: each is a function parameter returning what the flow returned or
 * the value it threw.
 */
module DiagramActions {
  import opened JsText
  import opened Tabs

  /** Descriptions and Mermaid code shorter than this are refused before any flow runs. */
  const MinLength: nat := 10

  /** What a JavaScript `catch` receives: an `Error` with its message, or anything else. */
  datatype Thrown = ErrorObject(message: string) | OtherValue

  datatype FlowOutcome<T> = Returned(value: T) | Threw(thrown: Thrown)

  /** `GenerateDiagramFormState`; `errorFields` maps a field name to its messages. */
  datatype GenerateState = GenerateState(message: Option<string>, diagramContent: Option<string>,
                                         errorFields: map<string, seq<string>>)

  /** What the generation flow is asked for. */
  datatype GenerateRequest = GenerateRequest(textDescription: string, diagramType: Notation)

  const ValidationFailed: string := "Validation failed. Please check the description."
  const TooShortDescription: string := "Description must be at least 10 characters long."
  /** The schema library's message for a value that is not a string at all (a form
      without the field hands over `null`). */
  const NotAString: string := "Expected string, received null"
  const SuccessMessage: string := "Diagram generated successfully!"
  /** Written in short pieces so that proofs about its letters stay small. */
  const EmptyDiagram: string := "AI generated an " + "empty diagram. " + "Try refining " + "your description."
  const UnexpectedGenerate: string := "An unexpected error occurred while generating the diagram."

  /** The schema's complaints about the `textDescription` form field. */
  function DescriptionIssues(desc: Option<string>): (r: seq<string>)
    ensures r == [] <==> desc.Some? && |desc.value| >= MinLength
  {
    if desc.None? then [NotAString]
    else if |desc.value| < MinLength then [TooShortDescription]
    else []
  }

  /** `Error: ${message}` with the message of an `Error`, or a fixed text otherwise. */
  function FailureMessage(thrown: Thrown, fallback: string): string {
    match thrown
    case ErrorObject(m) => m
    case OtherValue => fallback
  }

  /** `handleGenerateDiagram`, with the flow `generate`. */
  function HandleGenerateDiagram(diagramType: Notation, desc: Option<string>,
                                 generate: GenerateRequest -> FlowOutcome<string>): (r: GenerateState)
    ensures r.message.Some?
    ensures DescriptionIssues(desc) != [] ==>
              r == GenerateState(Some(ValidationFailed), None, map["textDescription" := DescriptionIssues(desc)])
    ensures DescriptionIssues(desc) == [] ==>
              var out := generate(GenerateRequest(desc.value, diagramType));
              && r.errorFields == map[]
              && (r.diagramContent.Some? <==> out.Returned? && out.value != [])
              && (out.Returned? && out.value != [] ==> r == GenerateState(Some(SuccessMessage), Some(out.value), map[]))
              && (out.Returned? && out.value == [] ==> r.message == Some(EmptyDiagram))
              && (out.Threw? ==> r.message == Some("Error: " + FailureMessage(out.thrown, UnexpectedGenerate)))
  {
    var issues := DescriptionIssues(desc);
    if issues != [] then
      GenerateState(Some(ValidationFailed), None, map["textDescription" := issues])
    else
      match generate(GenerateRequest(desc.value, diagramType))
      case Returned(content) =>
        if content != [] then GenerateState(Some(SuccessMessage), Some(content), map[])
        else GenerateState(Some(EmptyDiagram), None, map[])
      case Threw(thrown) =>
        GenerateState(Some("Error: " + FailureMessage(thrown, UnexpectedGenerate)), None, map[])
  }

  /** A refused description never reaches the flow: any two flows give the same answer. */
  lemma RefusedSkipsFlow(diagramType: Notation, desc: Option<string>,
                         f: GenerateRequest -> FlowOutcome<string>, g: GenerateRequest -> FlowOutcome<string>)
    requires desc.None? || |desc.value| < MinLength
    ensures HandleGenerateDiagram(diagramType, desc, f) == HandleGenerateDiagram(diagramType, desc, g)
  {
  }

  /** The state returned carries a diagram exactly when the flow produced one; the form
      field is blamed exactly when the description was refused. */
  lemma GenerateOutcomes(diagramType: Notation, desc: Option<string>, generate: GenerateRequest -> FlowOutcome<string>)
    ensures var r := HandleGenerateDiagram(diagramType, desc, generate);
            && (r.diagramContent.Some? <==>
                  desc.Some? && |desc.value| >= MinLength
                  && generate(GenerateRequest(desc.value, diagramType)).Returned?
                  && generate(GenerateRequest(desc.value, diagramType)).value != [])
            && (|r.errorFields| > 0 <==> desc.None? || |desc.value| < MinLength)
  {
    var r := HandleGenerateDiagram(diagramType, desc, generate);
    if desc.None? || |desc.value| < MinLength {
      assert "textDescription" in r.errorFields;
    }
  }

  /** `ConvertToSqlFormState`; an absent field is `None`. */
  datatype SqlState = SqlState(sqlCode: Option<string>, error: Option<string>, message: Option<string>)

  /** What the SQL flow returns: code, and an error that may be absent. */
  datatype SqlResult = SqlResult(sqlCode: string, error: Option<string>)

  const TooShortCode: string := "Mermaid code must be at least 10 characters to convert."
  const SqlGenerated: string := "SQL generated successfully!"
  const NoSqlProduced: string := "SQL generation failed to produce code."
  const UnexpectedSql: string := "An unexpected error occurred during SQL conversion."

  /** `handleConvertToSql`, with the flow `convert`. */
  function HandleConvertToSql(code: string, convert: string -> FlowOutcome<SqlResult>): (r: SqlState)
    ensures r.sqlCode.Some? != r.error.Some?
    ensures r.sqlCode.Some? <==> r.message.Some?
    ensures |code| < MinLength ==> r == SqlState(None, Some(TooShortCode), None)
    ensures |code| >= MinLength ==>
              var out := convert(code);
              && (out.Returned? && Truthy(out.value.error) ==> r.error == out.value.error)
              && (r.sqlCode.Some? <==> out.Returned? && !Truthy(out.value.error) && out.value.sqlCode != [])
              && (r.sqlCode.Some? ==> r == SqlState(Some(out.value.sqlCode), None, Some(SqlGenerated)))
              && (out.Returned? && !Truthy(out.value.error) && out.value.sqlCode == [] ==> r.error == Some(NoSqlProduced))
              && (out.Threw? ==> r.error == Some(FailureMessage(out.thrown, UnexpectedSql)))
  {
    if |code| < MinLength then SqlState(None, Some(TooShortCode), None)
    else
      match convert(code)
      case Returned(res) =>
        if Truthy(res.error) then SqlState(None, res.error, None)
        else if res.sqlCode != [] then SqlState(Some(res.sqlCode), None, Some(SqlGenerated))
        else SqlState(None, Some(NoSqlProduced), None)
      case Threw(thrown) => SqlState(None, Some(FailureMessage(thrown, UnexpectedSql)), None)
  }

  /** Code too short to convert never reaches the flow. */
  lemma ShortCodeSkipsFlow(code: string, f: string -> FlowOutcome<SqlResult>, g: string -> FlowOutcome<SqlResult>)
    requires |code| < MinLength
    ensures HandleConvertToSql(code, f) == HandleConvertToSql(code, g)
  {
  }

  /** A flow error wins over any code the flow also returned. */
  lemma FlowErrorWins(code: string, sql: string, err: string, convert: string -> FlowOutcome<SqlResult>)
    requires |code| >= MinLength && err != [] && convert(code) == Returned(SqlResult(sql, Some(err)))
    ensures HandleConvertToSql(code, convert) == SqlState(None, Some(err), None)
  {
  }
}

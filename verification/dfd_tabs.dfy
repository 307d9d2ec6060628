/**
 * The DFD editor's tabs. New tabs are named from a counter that only ever goes up, so a
 * name the counter handed out is never handed out again, even after its tab is closed.
 */
module DfdTabs {
  import opened JsText
  import opened Seqs
  import opened Tabs

  /** What a cleared canvas holds. */
  const MinimalDfdContent: string := "graph TD\n"

  /** The lines of the sample flow every new DFD tab starts with. */
  const DefaultDfdLines: seq<string> := [
    "graph TD",
    "    A[\"User Submits Data\"] --> B{Process Data};",
    "    B --> C[\"Display Results\"];",
    "    D(External System) --> A;"
  ]

  function DefaultDfdContent(): string {
    Join(DefaultDfdLines, '\n')
  }

  const DfdPrefix: string := "DFD "

  function DfdTab(id: string, n: nat): Diagram {
    Diagram(id, Numbered(DfdPrefix, n), DFD, Some(DefaultDfdContent()))
  }

  /** The mount effect: the counter starts at 1 and the first tab is `DFD 1`. */
  function Mount(id: string): (w: Workspace)
    ensures |w.diagrams| == 1 && w.diagrams[0].name == "DFD 1" && w.active == Some(id) && w.counter == 2
  {
    assert Numbered(DfdPrefix, 1) == "DFD 1";
    Workspace([DfdTab(id, 1)], Some(id), 2)
  }

  /** `handleAddTab`: a tab named from `diagramCounterRef`, appended and made active. */
  function AddTab(w: Workspace, id: string): (r: Workspace)
    ensures |r.diagrams| == |w.diagrams| + 1 && r.diagrams[..|w.diagrams|] == w.diagrams
    ensures r.diagrams[|w.diagrams|].name == Numbered(DfdPrefix, w.counter)
    ensures r.active == Some(id) && r.counter == w.counter + 1
  {
    AddCounted(w, DfdTab(id, w.counter))
  }

  /** `handleCloseTab`: the tab goes; closing the last one opens a fresh default tab
      named from the counter. */
  function CloseTab(w: Workspace, id: string, freshId: string): (r: Workspace)
    ensures r.active == w.active
    ensures Others(w.diagrams, id) ==> !HasId(r.diagrams, id) && r.counter == w.counter
    ensures !Others(w.diagrams, id) ==>
              r.diagrams == [Diagram(freshId, Numbered(DfdPrefix, w.counter), DFD, Some(DefaultDfdContent()))]
              && r.counter == w.counter + 1
  {
    CloseCounted(w, id, DfdTab(freshId, w.counter))
  }

  /** What the user can do on the page. */
  datatype Event =
    | AddEvent(id: string)
    | CloseEvent(id: string, freshId: string)
    | RenameEvent(mode: RenameMode)
    | EditEvent(code: string)
    | ClearEvent
    | SelectEvent(id: string)
    | SettleEvent

  /** One event, and the names it took from the counter. */
  function Step(w: Workspace, e: Event): (r: (Workspace, seq<string>))
    ensures || (r.1 == [] && r.0.counter == w.counter)
            || (r.1 == [Numbered(DfdPrefix, w.counter)] && r.0.counter == w.counter + 1)
  {
    match e
    case AddEvent(id) => (AddTab(w, id), [Numbered(DfdPrefix, w.counter)])
    case CloseEvent(id, freshId) =>
      (CloseTab(w, id, freshId), if Others(w.diagrams, id) then [] else [Numbered(DfdPrefix, w.counter)])
    case RenameEvent(mode) => (w.(diagrams := CommitRename(w.diagrams, mode).diagrams), [])
    case EditEvent(code) => (w.(diagrams := SetContent(w.diagrams, w.active, code)), [])
    case ClearEvent => (w.(diagrams := Clear(w.diagrams, w.active, MinimalDfdContent)), [])
    case SelectEvent(id) => (w.(active := Some(id)), [])
    case SettleEvent => (w.(active := ResolveActive(w.diagrams, w.active)), [])
  }

  /** A run of events, and every name the counter handed out on the way, in order: they
      are consecutive numbers starting from the counter's value. */
  function Run(w: Workspace, events: seq<Event>): (r: (Workspace, seq<string>))
    ensures r.0.counter == w.counter + |r.1|
    ensures forall i :: 0 <= i < |r.1| ==> r.1[i] == Numbered(DfdPrefix, w.counter + i)
    decreases |events|
  {
    if |events| == 0 then (w, [])
    else
      var step := Step(w, events[0]);
      var run := Run(step.0, events[1..]);
      var names := step.1 + run.1;
      assert forall i :: 0 <= i < |names| ==> names[i] == Numbered(DfdPrefix, w.counter + i) by {
        forall i | 0 <= i < |names| ensures names[i] == Numbered(DfdPrefix, w.counter + i) {
          if i < |step.1| {
            assert i == 0 && step.1 == [Numbered(DfdPrefix, w.counter)];
          } else {
            var j := i - |step.1|;
            assert names[i] == run.1[j];
            assert step.0.counter + j == w.counter + i;
          }
        }
      }
      (run.0, names)
  }

  /** No name is handed out twice, whatever the user does in between. */
  lemma NamesNeverRepeat(w: Workspace, events: seq<Event>)
    ensures var names := Run(w, events).1;
            forall i, j :: 0 <= i < j < |names| ==> names[i] != names[j]
  {
    var names := Run(w, events).1;
    forall i, j | 0 <= i < j < |names| ensures names[i] != names[j] {
      if names[i] == names[j] {
        NumberedInjective(DfdPrefix, w.counter + i, w.counter + j);
      }
    }
  }
}

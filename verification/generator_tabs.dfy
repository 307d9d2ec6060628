/**
 * The AI generator page's tabs. New and replacement tabs are untitled `Diagram n` tabs
 * named from a counter; a generated diagram renames the active tab after its type and
 * keeps the number at the end of the old name, or takes the next counter value.
 */
module GeneratorTabs {
  import opened JsText
  import opened Seqs
  import opened Tabs

  /** The mount effect: the counter starts at 1 and the first tab is `Diagram 1`. */
  function Mount(id: string): (w: Workspace)
    ensures w.diagrams == [Diagram(id, "Diagram 1", Untitled, None)] && w.active == Some(id) && w.counter == 2
  {
    assert Numbered("Diagram ", 1) == "Diagram 1";
    Workspace([UntitledTab(id, 1)], Some(id), 2)
  }

  /** `handleAddTab`: an untitled, empty tab named from the counter, made active. */
  function AddTab(w: Workspace, id: string): (r: Workspace)
    ensures |r.diagrams| == |w.diagrams| + 1 && r.diagrams[..|w.diagrams|] == w.diagrams
    ensures r.diagrams[|w.diagrams|] == Diagram(id, Numbered("Diagram ", w.counter), Untitled, None)
    ensures r.active == Some(id) && r.counter == w.counter + 1
  {
    AddCounted(w, UntitledTab(id, w.counter))
  }

  /** `handleCloseTab`: the tab goes; closing the last one opens a fresh untitled tab. */
  function CloseTab(w: Workspace, id: string, freshId: string): (r: Workspace)
    ensures r.active == w.active
    ensures Others(w.diagrams, id) ==> !HasId(r.diagrams, id) && r.counter == w.counter
    ensures !Others(w.diagrams, id) ==>
              r.diagrams == [Diagram(freshId, Numbered("Diagram ", w.counter), Untitled, None)]
              && r.counter == w.counter + 1
  {
    CloseCounted(w, id, UntitledTab(freshId, w.counter))
  }

  /** `<type> Diagram <suffix>` */
  function GeneratedName(t: Notation, suffix: string): string {
    KindName(t) + " Diagram " + suffix
  }

  /** The number a generated diagram is filed under: the digits that end the active
      tab's name, or else the counter's value, which is then used up. */
  function Suffix(w: Workspace): (r: (string, nat))
    ensures r.0 != [] && AllDigits(r.0)
    ensures var tab := ActiveTab(w.diagrams, w.active);
            if tab.Some? && TrailingDigits(tab.value.name) != [] then r == (TrailingDigits(tab.value.name), w.counter)
            else r == (ShowNat(w.counter), w.counter + 1)
  {
    var tab := ActiveTab(w.diagrams, w.active);
    var digits := if tab.Some? then TrailingDigits(tab.value.name) else [];
    if digits != [] then (digits, w.counter) else (ShowNat(w.counter), w.counter + 1)
  }

  /** `handleDiagramGenerated`: with an active id, the tab with that id takes the content,
      the type and the name `<type> Diagram <suffix>`; with none, a new tab so named is
      appended and made active. */
  function Generated(w: Workspace, content: string, t: Notation, freshId: string): (r: Workspace)
    ensures r.counter == Suffix(w).1
    ensures Truthy(w.active) ==>
              && r.active == w.active && SameIds(r.diagrams, w.diagrams)
              && forall i :: 0 <= i < |w.diagrams| ==>
                   r.diagrams[i] == if w.diagrams[i].id == w.active.value
                                    then Diagram(w.active.value, GeneratedName(t, Suffix(w).0), t, Some(content))
                                    else w.diagrams[i]
    ensures !Truthy(w.active) ==>
              && r.diagrams == w.diagrams + [Diagram(freshId, GeneratedName(t, Suffix(w).0), t, Some(content))]
              && r.active == Some(freshId)
  {
    var s := Suffix(w);
    var name := GeneratedName(t, s.0);
    if Truthy(w.active) then
      Workspace(Update(w.diagrams, w.active.value, (d: Diagram) => d.(content := Some(content), kind := t, name := name)),
                w.active, s.1)
    else
      Workspace(w.diagrams + [Diagram(freshId, name, t, Some(content))], Some(freshId), s.1)
  }

  /** A generated name ends in its number. */
  lemma GeneratedNameDigits(t: Notation, digits: string)
    requires digits != [] && AllDigits(digits)
    ensures TrailingDigits(GeneratedName(t, digits)) == digits
  {
    TrailingDigitsOf(KindName(t) + " Diagram ", digits);
  }

  /** Generating into a tab a second time keeps its name's number and does not touch
      the counter. */
  lemma RegenerateKeepsNumber(w: Workspace, a: string, b: string, t: Notation, u: Notation, freshId: string)
    requires UniqueIds(w.diagrams) && Truthy(w.active) && HasId(w.diagrams, w.active.value)
    ensures var once := Generated(w, a, t, freshId);
            var twice := Generated(once, b, u, freshId);
            && twice.counter == once.counter
            && Suffix(once).0 == Suffix(w).0
  {
    var once := Generated(w, a, t, freshId);
    var i :| 0 <= i < |w.diagrams| && w.diagrams[i].id == w.active.value;
    var tab := once.diagrams[i];
    assert tab.name == GeneratedName(t, Suffix(w).0);
    UpdateKeepsIds(w.diagrams, w.active.value, (d: Diagram) => d.(content := Some(a), kind := t, name := GeneratedName(t, Suffix(w).0)));
    assert ActiveTab(once.diagrams, once.active) == Some(tab);
    GeneratedNameDigits(t, Suffix(w).0);
  }

  /** A tab opened as `Diagram n` is filed as `<type> Diagram n` when a diagram is
      generated into it. */
  lemma AddThenGenerate(w: Workspace, id: string, content: string, t: Notation, freshId: string)
    requires UniqueIds(w.diagrams) && !HasId(w.diagrams, id) && id != []
    ensures var added := AddTab(w, id);
            var r := Generated(added, content, t, freshId);
            r.diagrams[|w.diagrams|].name == GeneratedName(t, ShowNat(w.counter)) && r.counter == w.counter + 1
  {
    var added := AddTab(w, id);
    var tab := added.diagrams[|w.diagrams|];
    assert added.diagrams == w.diagrams + [tab];
    assert ActiveTab(added.diagrams, added.active) == Some(tab);
    TrailingDigitsOf("Diagram ", ShowNat(w.counter));
  }
}

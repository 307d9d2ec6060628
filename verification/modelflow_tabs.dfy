/**
 * The ModelFlow page's tabs. Its counter is one module-level variable; closing a tab
 * moves the active id itself, and a generated diagram keeps the last word of the old
 * tab name.
 */
module ModelFlowTabs {
  import opened JsText
  import opened Seqs
  import opened Tabs

  /** `handleAddTab`: an untitled, empty tab named from the counter, made active. */
  function AddTab(w: Workspace, id: string): (r: Workspace)
    ensures |r.diagrams| == |w.diagrams| + 1 && r.diagrams[..|w.diagrams|] == w.diagrams
    ensures r.diagrams[|w.diagrams|] == Diagram(id, Numbered("Diagram ", w.counter), Untitled, None)
    ensures r.active == Some(id) && r.counter == w.counter + 1
  {
    AddCounted(w, UntitledTab(id, w.counter))
  }

  /** What closing a tab leaves: the workspace, and the tab a deferred callback will put
      in place when the list became empty. */
  datatype Closing = Closing(workspace: Workspace, deferred: Option<Diagram>)

  /** The synchronous part of `handleCloseTab`: the tab goes, the active id moves to the
      first remaining tab (or null) when the active tab was closed, and an emptied list
      stays empty for now while the counter names the tab that will replace it. */
  function CloseTab(w: Workspace, id: string, freshId: string): (r: Closing)
    ensures var ds := r.workspace.diagrams;
            && IsSubsequence(ds, w.diagrams) && !HasId(ds, id)
            && (forall i :: 0 <= i < |w.diagrams| && w.diagrams[i].id != id ==> w.diagrams[i] in ds)
    ensures w.active == Some(id) ==>
              r.workspace.active == if r.workspace.diagrams == [] then None else Some(r.workspace.diagrams[0].id)
    ensures w.active != Some(id) ==> r.workspace.active == w.active
    ensures r.workspace.diagrams == [] <==> !Others(w.diagrams, id)
    ensures r.workspace.diagrams == [] ==>
              r.deferred == Some(Diagram(freshId, Numbered("Diagram ", w.counter), Untitled, None))
              && r.workspace.counter == w.counter + 1
    ensures r.workspace.diagrams != [] ==> r.deferred == None && r.workspace.counter == w.counter
  {
    var remaining := Filter(w.diagrams, (d: Diagram) => d.id != id);
    var active :=
      if w.active == Some(id) then (if |remaining| > 0 then Some(remaining[0].id) else None)
      else w.active;
    if |remaining| == 0 then
      Closing(Workspace([], active, w.counter + 1), Some(UntitledTab(freshId, w.counter)))
    else
      Closing(Workspace(remaining, active, w.counter), None)
  }

  /** Closing the active tab never leaves the active id pointing at a missing tab. */
  lemma CloseKeepsActiveValid(w: Workspace, id: string, freshId: string)
    requires w.active.Some? && HasId(w.diagrams, w.active.value)
    ensures var r := CloseTab(w, id, freshId).workspace;
            r.active.None? || HasId(r.diagrams, r.active.value)
  {
    var r := CloseTab(w, id, freshId).workspace;
    if w.active != Some(id) {
      var i :| 0 <= i < |w.diagrams| && w.diagrams[i].id == w.active.value;
      assert w.diagrams[i] in r.diagrams;
    } else if r.diagrams != [] {
      assert r.diagrams[0].id == r.active.value;
    }
  }

  /** `<type> Diagram <word>` */
  function GeneratedName(t: Notation, word: string): string {
    KindName(t) + " Diagram " + word
  }

  /** `handleDiagramGenerated`: with an active id, the tab with that id takes the content,
      the type and the name `<type> Diagram <last word of its old name>`; with none, a
      new tab named from the counter is appended and made active. */
  function Generated(w: Workspace, content: string, t: Notation, freshId: string): (r: Workspace)
    ensures Truthy(w.active) ==>
              && r.active == w.active && r.counter == w.counter && SameIds(r.diagrams, w.diagrams)
              && forall i :: 0 <= i < |w.diagrams| ==>
                   r.diagrams[i] == if w.diagrams[i].id == w.active.value
                                    then w.diagrams[i].(content := Some(content), kind := t,
                                                        name := GeneratedName(t, LastWord(w.diagrams[i].name)))
                                    else w.diagrams[i]
    ensures !Truthy(w.active) ==>
              && r.diagrams == w.diagrams + [Diagram(freshId, GeneratedName(t, ShowNat(w.counter)), t, Some(content))]
              && r.active == Some(freshId) && r.counter == w.counter + 1
  {
    if Truthy(w.active) then
      var named := (d: Diagram) => d.(content := Some(content), kind := t, name := GeneratedName(t, LastWord(d.name)));
      Workspace(Update(w.diagrams, w.active.value, named), w.active, w.counter)
    else
      Workspace(w.diagrams + [Diagram(freshId, GeneratedName(t, ShowNat(w.counter)), t, Some(content))],
                Some(freshId), w.counter + 1)
  }

  /** A generated name's last word is the word it was built from. */
  lemma GeneratedNameWord(t: Notation, word: string)
    requires ' ' !in word
    ensures LastWord(GeneratedName(t, word)) == word
  {
    var p := KindName(t) + " Diagram ";
    assert GeneratedName(t, word) == p + word;
    LastPieceAfter(p, word, ' ');
  }

  /** Generating into the same tab again, of any type, keeps the name's last word. */
  lemma RegenerateKeepsWord(w: Workspace, a: string, b: string, t: Notation, u: Notation, freshId: string)
    requires Truthy(w.active)
    ensures var once := Generated(w, a, t, freshId);
            var twice := Generated(once, b, u, freshId);
            forall i :: 0 <= i < |w.diagrams| && w.diagrams[i].id == w.active.value ==>
              twice.diagrams[i].name == GeneratedName(u, LastWord(w.diagrams[i].name))
  {
    var once := Generated(w, a, t, freshId);
    forall i | 0 <= i < |w.diagrams| && w.diagrams[i].id == w.active.value
      ensures Generated(once, b, u, freshId).diagrams[i].name == GeneratedName(u, LastWord(w.diagrams[i].name))
    {
      GeneratedNameWord(t, LastWord(w.diagrams[i].name));
    }
  }

  /** A tab opened as `Diagram n` is renamed `<type> Diagram n` by a generated diagram. */
  lemma AddThenGenerate(w: Workspace, id: string, content: string, t: Notation, freshId: string)
    requires id != []
    ensures var added := AddTab(w, id);
            var r := Generated(added, content, t, freshId);
            r.diagrams[|w.diagrams|].name == GeneratedName(t, ShowNat(w.counter))
  {
    var p := "Diagram ";
    assert Numbered(p, w.counter) == p + ShowNat(w.counter);
    LastPieceAfter(p, ShowNat(w.counter), ' ');
  }
}

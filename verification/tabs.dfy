/**
 * The tab workspace every editor page keeps: an ordered list of diagram records and the
 * id of the active one. The operations here are the ones the four pages share word for
 * word; the pages differ only in how they name new tabs and what they put in them.
 */
module Tabs {
  import opened JsText
  import opened Seqs

  datatype DiagramType = ER | DFD | Untitled

  /** The types a generated diagram can have: `'ER' | 'DFD'`. */
  type Notation = t: DiagramType | t != Untitled witness ER

  /** `{ id, name, type, content }`; `content` is `string | null`. */
  datatype Diagram = Diagram(id: string, name: string, kind: DiagramType, content: Option<string>)

  /** How a type is spelled inside a template string. */
  function KindName(t: DiagramType): (r: string)
    ensures |r| >= 2 && ' ' !in r
  {
    match t
    case ER => "ER"
    case DFD => "DFD"
    case Untitled => "Untitled"
  }

  /** `${prefix}${n}`: the names the pages hand out from a number. */
  function Numbered(prefix: string, n: nat): string {
    prefix + ShowNat(n)
  }

  /** Different numbers give different names. */
  lemma NumberedInjective(prefix: string, m: nat, n: nat)
    requires Numbered(prefix, m) == Numbered(prefix, n)
    ensures m == n
  {
    assert Numbered(prefix, m)[|prefix|..] == ShowNat(m);
    assert Numbered(prefix, n)[|prefix|..] == ShowNat(n);
    ShowNatInjective(m, n);
  }

  /** JavaScript truthiness of a `string | null`: present and not empty. */
  predicate Truthy(s: Option<string>) {
    s.Some? && s.value != []
  }

  predicate HasId(ds: seq<Diagram>, id: string) {
    exists i :: 0 <= i < |ds| && ds[i].id == id
  }

  predicate UniqueIds(ds: seq<Diagram>) {
    forall i, j :: 0 <= i < j < |ds| ==> ds[i].id != ds[j].id
  }

  /** `ds.find(d => d.id === id)`: the first tab with that id. */
  function FindById(ds: seq<Diagram>, id: string): (r: Option<Diagram>)
    ensures r.Some? <==> HasId(ds, id)
    ensures r.Some? ==> r.value.id == id && r.value in ds
    ensures r.Some? ==> exists i :: 0 <= i < |ds| && ds[i] == r.value && forall j :: 0 <= j < i ==> ds[j].id != id
    ensures r.Some? && UniqueIds(ds) ==> forall i :: 0 <= i < |ds| && ds[i].id == id ==> ds[i] == r.value
  {
    match FirstWhere(ds, (d: Diagram) => d.id == id)
    case None => None
    case Some(i) => Some(ds[i])
  }

  /** `ds.find(d => d.id === active)` where `active` may be null, which no id equals. */
  function ActiveTab(ds: seq<Diagram>, active: Option<string>): (r: Option<Diagram>)
    ensures r.Some? <==> active.Some? && HasId(ds, active.value)
    ensures r.Some? ==> r.value in ds && r.value.id == active.value
  {
    if active.None? then None else FindById(ds, active.value)
  }

  /** The code the editor shows: `activeDiagram?.content || ''`. */
  function ActiveCode(ds: seq<Diagram>, active: Option<string>): (r: string)
    ensures active.None? || !HasId(ds, active.value) ==> r == []
    ensures r != [] ==> active.Some? && exists i :: 0 <= i < |ds| && ds[i].id == active.value && ds[i].content == Some(r)
  {
    match ActiveTab(ds, active)
    case Some(d) => if d.content.Some? then d.content.value else []
    case None => []
  }

  /** The effect that keeps the active id valid: with tabs present a missing or stale id
      falls back to the first tab; with no tabs the id becomes null. */
  function ResolveActive(ds: seq<Diagram>, active: Option<string>): (r: Option<string>)
    ensures r.None? <==> |ds| == 0
    ensures r.Some? ==> HasId(ds, r.value)
    ensures Truthy(active) && HasId(ds, active.value) ==> r == active
    ensures |ds| > 0 && r != active ==> r == Some(ds[0].id)
  {
    if |ds| > 0 then
      if !Truthy(active) || !HasId(ds, active.value) then Some(ds[0].id) else active
    else None
  }

  /** Once the effect has run, running it again sets nothing new. */
  lemma ResolveSettles(ds: seq<Diagram>, active: Option<string>)
    ensures ResolveActive(ds, ResolveActive(ds, active)) == ResolveActive(ds, active)
  {
  }

  /** `ds.map(d => d.id === id ? f(d) : d)` */
  function Update(ds: seq<Diagram>, id: string, f: Diagram -> Diagram): (r: seq<Diagram>)
    ensures |r| == |ds|
    ensures forall i :: 0 <= i < |ds| ==> r[i] == if ds[i].id == id then f(ds[i]) else ds[i]
  {
    seq(|ds|, i requires 0 <= i < |ds| => if ds[i].id == id then f(ds[i]) else ds[i])
  }

  /** Two lists with the same ids in the same order. */
  predicate SameIds(a: seq<Diagram>, b: seq<Diagram>) {
    |a| == |b| && forall i :: 0 <= i < |a| ==> a[i].id == b[i].id
  }

  /** An update that keeps every id keeps the whole id list, so the active id stays
      valid and uniqueness is kept. */
  lemma UpdateKeepsIds(ds: seq<Diagram>, id: string, f: Diagram -> Diagram)
    requires forall d :: f(d).id == d.id
    ensures SameIds(Update(ds, id, f), ds)
    ensures UniqueIds(ds) ==> UniqueIds(Update(ds, id, f))
    ensures forall x :: HasId(Update(ds, id, f), x) <==> HasId(ds, x)
  {
    var r := Update(ds, id, f);
    forall x ensures HasId(r, x) <==> HasId(ds, x) {
      if HasId(ds, x) {
        var i :| 0 <= i < |ds| && ds[i].id == x;
        assert r[i].id == x;
      }
    }
  }

  /** `handleMermaidCodeChange`: when an active id is set, the tab with that id gets the
      new code and nothing else changes. */
  function SetContent(ds: seq<Diagram>, active: Option<string>, code: string): (r: seq<Diagram>)
    ensures SameIds(r, ds)
    ensures forall i :: 0 <= i < |ds| ==>
              if Truthy(active) && ds[i].id == active.value then r[i] == ds[i].(content := Some(code))
              else r[i] == ds[i]
  {
    if Truthy(active) then Update(ds, active.value, (d: Diagram) => d.(content := Some(code))) else ds
  }

  /** After an edit the editor shows exactly the edited code. */
  lemma SetContentShows(ds: seq<Diagram>, active: Option<string>, code: string)
    requires Truthy(active) && HasId(ds, active.value)
    ensures ActiveCode(SetContent(ds, active, code), active) == code
  {
    var r := SetContent(ds, active, code);
    var i :| 0 <= i < |ds| && ds[i].id == active.value;
    assert r[i].id == active.value;
  }

  /** Only the last of two edits of the same tab is kept. */
  lemma SetContentTwice(ds: seq<Diagram>, active: Option<string>, a: string, b: string)
    ensures SetContent(SetContent(ds, active, a), active, b) == SetContent(ds, active, b)
  {
  }

  /** `handleClearCanvas`: with an active tab present, its code becomes the editor's
      minimal content; otherwise nothing happens. */
  function Clear(ds: seq<Diagram>, active: Option<string>, minimal: string): (r: seq<Diagram>)
    ensures SameIds(r, ds)
    ensures ActiveTab(ds, active).None? ==> r == ds
    ensures ActiveTab(ds, active).Some? && Truthy(active) ==> ActiveCode(r, active) == minimal
    ensures forall i :: 0 <= i < |ds| && (active.None? || ds[i].id != active.value) ==> r[i] == ds[i]
  {
    if ActiveTab(ds, active).None? then ds
    else
      assert Truthy(active) ==> ActiveCode(SetContent(ds, active, minimal), active) == minimal by {
        if Truthy(active) { SetContentShows(ds, active, minimal); }
      }
      SetContent(ds, active, minimal)
  }

  /** `[...ds, d]` with `d` made active. */
  function Add(ds: seq<Diagram>, d: Diagram): (r: (seq<Diagram>, Option<string>))
    ensures |r.0| == |ds| + 1 && r.0[..|ds|] == ds && r.0[|ds|] == d
    ensures r.1 == Some(d.id) && HasId(r.0, d.id)
    ensures UniqueIds(ds) && !HasId(ds, d.id) ==> UniqueIds(r.0)
  {
    var r := ds + [d];
    assert r[|ds|] == d;
    (r, Some(d.id))
  }

  /** `ds.filter(d => d.id !== id)`, replaced by `[replacement]` when nothing is left. */
  function Close(ds: seq<Diagram>, id: string, replacement: Diagram): (r: seq<Diagram>)
    ensures |r| >= 1
    ensures Others(ds, id) ==> IsSubsequence(r, ds) && !HasId(r, id)
    ensures forall i :: 0 <= i < |ds| && ds[i].id != id ==> ds[i] in r
    ensures !Others(ds, id) ==> r == [replacement]
    ensures UniqueIds(ds) ==> UniqueIds(r)
  {
    var kept := Filter(ds, (d: Diagram) => d.id != id);
    assert UniqueIds(ds) ==> UniqueIds(kept) by {
      if UniqueIds(ds) { FilterUnique(ds, (d: Diagram) => d.id != id); }
    }
    if |kept| == 0 then [replacement] else kept
  }

  /** Does some tab have an id other than `id`? */
  predicate Others(ds: seq<Diagram>, id: string) {
    exists i :: 0 <= i < |ds| && ds[i].id != id
  }

  /** Closing one of several tabs with distinct ids removes exactly one tab. */
  lemma CloseRemovesOne(ds: seq<Diagram>, id: string, replacement: Diagram)
    requires UniqueIds(ds) && HasId(ds, id) && |ds| > 1
    ensures |Close(ds, id, replacement)| == |ds| - 1
  {
    var keep := (d: Diagram) => d.id != id;
    var i :| 0 <= i < |ds| && ds[i].id == id;
    var j := if i == 0 then 1 else 0;
    assert ds[j].id != id;
    assert ds == ds[..i] + [ds[i]] + ds[i + 1..];
    CountAppend(ds[..i] + [ds[i]], ds[i + 1..], keep);
    CountAppend(ds[..i], [ds[i]], keep);
    var pre, post := ds[..i], ds[i + 1..];
    assert forall k :: 0 <= k < |pre| ==> keep(pre[k]);
    assert forall k :: 0 <= k < |post| ==> keep(post[k]) by {
      forall k | 0 <= k < |post| ensures keep(post[k]) {
        assert post[k] == ds[i + 1 + k];
      }
    }
  }

  lemma {:induction false} FilterUnique(ds: seq<Diagram>, keep: Diagram -> bool)
    requires UniqueIds(ds)
    ensures UniqueIds(Filter(ds, keep))
  {
    if |ds| > 0 {
      var tail := ds[1..];
      FilterUnique(tail, keep);
      var rest := Filter(tail, keep);
      if keep(ds[0]) {
        FirstIdFresh(ds);
        UniqueCons(ds[0], rest, tail);
      }
    }
  }

  lemma FirstIdFresh(ds: seq<Diagram>)
    requires UniqueIds(ds) && |ds| > 0
    ensures forall x :: x in ds[1..] ==> x.id != ds[0].id
  {
    forall x | x in ds[1..] ensures x.id != ds[0].id {
      var m :| 0 <= m < |ds[1..]| && ds[1..][m] == x;
      assert x == ds[m + 1];
    }
  }

  lemma UniqueCons(d: Diagram, rest: seq<Diagram>, pool: seq<Diagram>)
    requires UniqueIds(rest)
    requires forall k :: 0 <= k < |rest| ==> rest[k] in pool
    requires forall x :: x in pool ==> x.id != d.id
    ensures UniqueIds([d] + rest)
  {
    var r := [d] + rest;
    assert forall k :: 1 <= k < |r| ==> r[k] == rest[k - 1];
  }

  /** A page that names tabs from a counter: its tabs, its active id and the counter's
      current value. */
  datatype Workspace = Workspace(diagrams: seq<Diagram>, active: Option<string>, counter: nat)

  /** `Diagram ${n}`, untitled and empty: the AI pages' new tab. */
  function UntitledTab(id: string, n: nat): Diagram {
    Diagram(id, Numbered("Diagram ", n), Untitled, None)
  }

  /** Add a tab that took the counter's value: appended, made active, counter bumped. */
  function AddCounted(w: Workspace, tab: Diagram): (r: Workspace)
    ensures |r.diagrams| == |w.diagrams| + 1 && r.diagrams[..|w.diagrams|] == w.diagrams
    ensures r.diagrams[|w.diagrams|] == tab && r.active == Some(tab.id) && r.counter == w.counter + 1
  {
    var (ds, active) := Add(w.diagrams, tab);
    Workspace(ds, active, w.counter + 1)
  }

  /** Close a tab; when none is left, `replacement` (which took the counter's value)
      takes its place. The active id is left to the fallback effect. */
  function CloseCounted(w: Workspace, id: string, replacement: Diagram): (r: Workspace)
    ensures r.active == w.active && |r.diagrams| >= 1
    ensures Others(w.diagrams, id) ==>
              IsSubsequence(r.diagrams, w.diagrams) && !HasId(r.diagrams, id) && r.counter == w.counter
    ensures forall i :: 0 <= i < |w.diagrams| && w.diagrams[i].id != id ==> w.diagrams[i] in r.diagrams
    ensures !Others(w.diagrams, id) ==> r.diagrams == [replacement] && r.counter == w.counter + 1
  {
    var emptied := !Others(w.diagrams, id);
    Workspace(Close(w.diagrams, id, replacement), w.active, if emptied then w.counter + 1 else w.counter)
  }

  /** What a rename commit leaves behind. */
  datatype RenameNotice = Renamed(name: string) | NameEmpty | NoNotice

  /** Rename mode: the tab being renamed (`renamingTabId`) and the text typed so far. */
  datatype RenameMode = RenameMode(tab: Option<string>, editText: string)

  datatype Renaming = Renaming(diagrams: seq<Diagram>, mode: RenameMode, notice: RenameNotice)

  /** `handleRenameCommit`: a trimmed, non-empty name that differs from the tab's current
      one renames that tab; an empty name is refused; rename mode always ends. */
  function CommitRename(ds: seq<Diagram>, mode: RenameMode): (r: Renaming)
    ensures !Truthy(mode.tab) ==> r == Renaming(ds, mode, NoNotice)
    ensures Truthy(mode.tab) ==> r.mode == RenameMode(None, [])
    ensures SameIds(r.diagrams, ds)
    ensures r.notice == NameEmpty <==> Truthy(mode.tab) && Trim(mode.editText) == []
    ensures r.notice.Renamed? ==> r.notice.name == Trim(mode.editText) != []
    ensures forall i :: 0 <= i < |ds| ==>
              if r.notice.Renamed? && ds[i].id == mode.tab.value then r.diagrams[i] == ds[i].(name := r.notice.name)
              else r.diagrams[i] == ds[i]
    ensures Truthy(mode.tab) && Trim(mode.editText) != [] && UniqueIds(ds) ==>
              (r.notice.Renamed? <==> !exists i :: 0 <= i < |ds| && ds[i].id == mode.tab.value && ds[i].name == Trim(mode.editText))
  {
    if !Truthy(mode.tab) then Renaming(ds, mode, NoNotice)
    else
      var t := Trim(mode.editText);
      var original := FindById(ds, mode.tab.value);
      var closed := RenameMode(None, []);
      if t != [] && (original.None? || t != original.value.name) then
        Renaming(Update(ds, mode.tab.value, (d: Diagram) => d.(name := t)), closed, Renamed(t))
      else if t == [] then Renaming(ds, closed, NameEmpty)
      else Renaming(ds, closed, NoNotice)
  }

  /** Committing the name a tab already carries changes nothing: a rename applied twice
      is applied once. */
  lemma RenameTwice(ds: seq<Diagram>, mode: RenameMode)
    requires UniqueIds(ds) && Truthy(mode.tab)
    ensures var once := CommitRename(ds, mode).diagrams;
            CommitRename(once, mode).diagrams == once
  {
    var r := CommitRename(ds, mode);
    if r.notice.Renamed? && HasId(ds, mode.tab.value) {
      UpdateKeepsIds(ds, mode.tab.value, (d: Diagram) => d.(name := r.notice.name));
      var i :| 0 <= i < |ds| && ds[i].id == mode.tab.value;
      assert r.diagrams[i].name == r.notice.name;
    }
  }
}

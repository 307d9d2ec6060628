/**
 * The ERD editor's tabs: new tabs take the smallest number no `ERD n` tab uses, and
 * closing the last tab leaves a fresh `ERD 1`.
 */
module ErdTabs {
  import opened JsText
  import opened Seqs
  import opened Tabs

  /** What a cleared canvas holds. */
  const MinimalErdContent: string := "erDiagram\n"

  /** The lines of the sample diagram every new ERD tab starts with. */
  const DefaultErdLines: seq<string> := [
    "erDiagram",
    "    USER {",
    "        int id PK \"User ID\"",
    "        string username \"Username\"",
    "        string email \"Email address\"",
    "        datetime createdAt \"Timestamp of creation\"",
    "    }",
    "    PROFILE {",
    "        int id PK \"Profile ID\"",
    "        string bio \"User biography\"",
    "        int userId FK \"Foreign key to USER table\"",
    "    }",
    "    POST {",
    "        int id PK \"Post ID\"",
    "        string title \"Post title\"",
    "        text content \"Post content\"",
    "        int authorId FK \"Foreign key to USER table (author)\"",
    "        datetime publishedAt \"Timestamp of publication\"",
    "    }",
    "    USER ||--o{ PROFILE : \"has one\"",
    "    USER ||--o{ POST : \"writes\""
  ]

  /** The sample diagram every new ERD tab starts with: its lines joined by newlines. */
  function DefaultErdContent(): string {
    Join(DefaultErdLines, '\n')
  }

  const ErdPrefix: string := "ERD "

  /** `ERD ${n}` */
  function ErdName(n: nat): string {
    Numbered(ErdPrefix, n)
  }

  /** The number `/^ERD (\d+)$/` and `parseInt` read from a tab name, 0 when the name
      does not match. */
  function ErdNumber(name: string): nat {
    if |name| > |ErdPrefix| && name[..|ErdPrefix|] == ErdPrefix && AllDigits(name[|ErdPrefix|..])
    then ParseDigits(name[|ErdPrefix|..])
    else 0
  }

  /** The name a tab is given reads back as its number. */
  lemma ErdNumberOfName(n: nat)
    ensures ErdNumber(ErdName(n)) == n
  {
    var s := ErdName(n);
    assert s[..|ErdPrefix|] == ErdPrefix && s[|ErdPrefix|..] == ShowNat(n);
    ParseShowNat(n);
  }

  /** Does some tab carry number `k`? */
  predicate NumberTaken(ds: seq<Diagram>, k: nat) {
    exists i :: 0 <= i < |ds| && ErdNumber(ds[i].name) == k
  }

  /** The positive numbers the tab names carry, one per matching tab. */
  function UsedNumbers(ds: seq<Diagram>): (r: seq<nat>)
    ensures |r| <= |ds|
    ensures forall k: nat :: k in r <==> k > 0 && NumberTaken(ds, k)
  {
    var all: seq<nat> := seq(|ds|, i requires 0 <= i < |ds| => ErdNumber(ds[i].name));
    var r := Filter(all, (n: nat) => n > 0);
    assert forall k: nat :: k in all <==> NumberTaken(ds, k) by {
      forall k: nat ensures k in all <==> NumberTaken(ds, k) {
        if NumberTaken(ds, k) {
          var i :| 0 <= i < |ds| && ErdNumber(ds[i].name) == k;
          assert all[i] == k;
        }
      }
    }
    r
  }

  /** If `1..m` all occur in `nums`, then `nums` has at least `m` elements. */
  lemma {:induction false} Pigeonhole(nums: seq<nat>, m: nat)
    requires forall k :: 1 <= k <= m ==> k in nums
    ensures m <= |nums|
  {
    if m > 0 {
      assert m in nums;
      var j :| 0 <= j < |nums| && nums[j] == m;
      var rest := RemoveAt(nums, j);
      forall k | 1 <= k <= m - 1 ensures k in rest {
        assert k in nums;
        var p :| 0 <= p < |nums| && nums[p] == k;
        if p < j { assert rest[p] == k; } else { assert rest[p - 1] == k; }
      }
      Pigeonhole(rest, m - 1);
    }
  }

  /** The loop `for (i = from; i <= nums.length + 1; i++) if (!nums.includes(i)) return i`
      entered with `1..from-1` all in use. */
  function FirstFreeFrom(nums: seq<nat>, from: nat): (n: nat)
    requires from >= 1 && forall k :: 1 <= k < from ==> k in nums
    ensures from <= n <= |nums| + 1 && n !in nums
    ensures forall k :: 1 <= k < n ==> k in nums
    decreases |nums| + 1 - from
  {
    Pigeonhole(nums, from - 1);
    if from !in nums then from
    else
      Pigeonhole(nums, from);
      FirstFreeFrom(nums, from + 1)
  }

  /** `getNextDiagramNumber`: the smallest positive number no tab name `ERD <digits>`
      carries, at most one more than the number of such tabs. */
  function NextDiagramNumber(ds: seq<Diagram>): (n: nat)
    ensures n >= 1 && !NumberTaken(ds, n)
    ensures forall k :: 1 <= k < n ==> NumberTaken(ds, k)
    ensures n <= |UsedNumbers(ds)| + 1
    ensures |UsedNumbers(ds)| == 0 ==> n == 1
  {
    var nums := UsedNumbers(ds);
    if |nums| == 0 then 1 else FirstFreeFrom(nums, 1)
  }

  /** A fresh ERD tab. */
  function ErdTab(id: string, n: nat): Diagram {
    Diagram(id, ErdName(n), ER, Some(DefaultErdContent()))
  }

  /** `handleAddTab`: a new tab with the default diagram, named after the next free
      number, appended and made active. */
  function AddTab(ds: seq<Diagram>, id: string): (r: (seq<Diagram>, Option<string>))
    ensures |r.0| == |ds| + 1 && r.0[..|ds|] == ds && r.1 == Some(id)
    ensures var t := r.0[|ds|];
            && t.id == id && t.kind == ER && t.content == Some(DefaultErdContent())
            && ErdNumber(t.name) == NextDiagramNumber(ds)
            && forall i :: 0 <= i < |ds| ==> ds[i].name != t.name
  {
    var n := NextDiagramNumber(ds);
    ErdNumberOfName(n);
    Add(ds, ErdTab(id, n))
  }

  /** No two tabs carry the same positive number. */
  predicate DistinctNumbers(ds: seq<Diagram>) {
    forall i, j :: 0 <= i < j < |ds| && ErdNumber(ds[i].name) > 0 ==> ErdNumber(ds[i].name) != ErdNumber(ds[j].name)
  }

  /** Adding tabs never makes two tabs share a number. */
  lemma AddKeepsNumbersDistinct(ds: seq<Diagram>, id: string)
    requires DistinctNumbers(ds)
    ensures DistinctNumbers(AddTab(ds, id).0)
  {
    var r := AddTab(ds, id).0;
    assert r == ds + [r[|ds|]];
    AppendFreeNumber(ds, r[|ds|]);
  }

  lemma AppendFreeNumber(ds: seq<Diagram>, t: Diagram)
    requires DistinctNumbers(ds) && ErdNumber(t.name) == NextDiagramNumber(ds)
    ensures DistinctNumbers(ds + [t])
  {
    var r := ds + [t];
    forall i, j | 0 <= i < j < |r| && ErdNumber(r[i].name) > 0
      ensures ErdNumber(r[i].name) != ErdNumber(r[j].name)
    {
      assert r[i] == ds[i];
      if j < |ds| { assert r[j] == ds[j]; }
    }
  }

  /** `handleCloseTab`: the tab goes; closing the last one leaves a fresh `ERD 1`. */
  function CloseTab(ds: seq<Diagram>, id: string, freshId: string): (r: seq<Diagram>)
    ensures Others(ds, id) ==> IsSubsequence(r, ds) && !HasId(r, id)
    ensures forall i :: 0 <= i < |ds| && ds[i].id != id ==> ds[i] in r
    ensures !Others(ds, id) ==> r == [Diagram(freshId, "ERD 1", ER, Some(DefaultErdContent()))]
  {
    assert ErdName(1) == "ERD 1";
    Close(ds, id, ErdTab(freshId, 1))
  }

  /** `handleClearCanvas`: the active tab's code becomes `erDiagram\n`. */
  function ClearCanvas(ds: seq<Diagram>, active: Option<string>): (r: seq<Diagram>)
    ensures SameIds(r, ds)
    ensures ActiveTab(ds, active).None? ==> r == ds
    ensures ActiveTab(ds, active).Some? && Truthy(active) ==> ActiveCode(r, active) == MinimalErdContent
    ensures forall i :: 0 <= i < |ds| && (active.None? || ds[i].id != active.value) ==> r[i] == ds[i]
  {
    Clear(ds, active, MinimalErdContent)
  }
}

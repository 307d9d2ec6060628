/**
 * Array helpers the components use through `Array.prototype`: `filter`, `findIndex`,
 * a last-index scan (the `reduce` idiom), and order-preserving removal.
 */
module Seqs {
  import opened JsText

  /** `a` is `b` with some elements deleted and the rest kept in order. */
  ghost predicate IsSubsequence<T>(a: seq<T>, b: seq<T>)
    decreases |b|
  {
    if |a| == 0 then true
    else if |b| == 0 then false
    else (a[0] == b[0] && IsSubsequence(a[1..], b[1..])) || IsSubsequence(a, b[1..])
  }

  /** `s.filter(keep)` */
  function Filter<T>(s: seq<T>, keep: T -> bool): (r: seq<T>)
    ensures |r| <= |s|
    ensures forall i :: 0 <= i < |r| ==> r[i] in s && keep(r[i])
    ensures forall i :: 0 <= i < |s| && keep(s[i]) ==> s[i] in r
    ensures IsSubsequence(r, s)
    ensures (forall i :: 0 <= i < |s| ==> keep(s[i])) ==> r == s
  {
    if |s| == 0 then []
    else if keep(s[0]) then [s[0]] + Filter(s[1..], keep)
    else Filter(s[1..], keep)
  }

  lemma {:induction false} FilterAppend<T>(a: seq<T>, b: seq<T>, keep: T -> bool)
    ensures Filter(a + b, keep) == Filter(a, keep) + Filter(b, keep)
  {
    if |a| > 0 {
      assert (a + b)[1..] == a[1..] + b;
      FilterAppend(a[1..], b, keep);
    } else {
      assert a + b == b;
    }
  }

  /** `s.findIndex(p)`, with `None` for -1. */
  function FirstWhere<T>(s: seq<T>, p: T -> bool): (r: Option<nat>)
    ensures r.Some? ==> r.value < |s| && p(s[r.value])
    ensures forall j :: 0 <= j < |s| && (r.None? || j < r.value) ==> !p(s[j])
  {
    FirstWhereFrom(s, p, 0)
  }

  /** The first index at or after `from` whose element satisfies `p`. */
  function FirstWhereFrom<T>(s: seq<T>, p: T -> bool, from: nat): (r: Option<nat>)
    ensures r.Some? ==> from <= r.value < |s| && p(s[r.value])
    ensures forall j :: from <= j < |s| && (r.None? || j < r.value) ==> !p(s[j])
    decreases |s| - from
  {
    if from >= |s| then None
    else if p(s[from]) then Some(from)
    else FirstWhereFrom(s, p, from + 1)
  }

  /** The last index whose element satisfies `p`, as
      `s.reduce((acc, x, i) => p(x) ? i : acc, -1)` computes it. */
  function LastWhere<T>(s: seq<T>, p: T -> bool): (r: Option<nat>)
    ensures r.Some? ==> r.value < |s| && p(s[r.value])
    ensures forall j :: 0 <= j < |s| && (r.None? || j > r.value) ==> !p(s[j])
  {
    if |s| == 0 then None
    else if p(s[|s| - 1]) then Some(|s| - 1)
    else LastWhere(s[..|s| - 1], p)
  }

  /** `s.splice(i, 1)`: the sequence without its element at `i`. */
  function RemoveAt<T>(s: seq<T>, i: nat): (r: seq<T>)
    requires i < |s|
    ensures |r| == |s| - 1
    ensures forall j :: 0 <= j < i ==> r[j] == s[j]
    ensures forall j :: i <= j < |r| ==> r[j] == s[j + 1]
  {
    s[..i] + s[i + 1..]
  }

  /** `s.splice(i, 0, ...xs)`: `xs` inserted so that it starts at index `i`. */
  function InsertAt<T>(s: seq<T>, i: nat, xs: seq<T>): (r: seq<T>)
    requires i <= |s|
    ensures |r| == |s| + |xs|
    ensures r[..i] == s[..i] && r[i..i + |xs|] == xs && r[i + |xs|..] == s[i..]
  {
    s[..i] + xs + s[i..]
  }

  /** Removing what `InsertAt` put in gives back the original sequence. */
  lemma InsertAtThenRemove<T>(s: seq<T>, i: nat, xs: seq<T>)
    requires i <= |s|
    ensures var r := InsertAt(s, i, xs); r[..i] + r[i + |xs|..] == s
  {
    var r := InsertAt(s, i, xs);
    assert r[..i] + r[i + |xs|..] == s[..i] + s[i..];
  }

  lemma {:induction false} SubsequenceReflexive<T>(a: seq<T>)
    ensures IsSubsequence(a, a)
  {
    if |a| > 0 { SubsequenceReflexive(a[1..]); }
  }

  lemma AppendAssociative<T>(a: seq<T>, b: seq<T>, c: seq<T>)
    ensures a + (b + c) == (a + b) + c
  {
  }

  lemma DropAppend<T>(a: seq<T>, b: seq<T>, k: nat)
    requires k <= |a|
    ensures (a + b)[k..] == a[k..] + b
  {
  }

  /** Deleting elements in two rounds is deleting elements. */
  lemma {:induction false} SubsequenceTransitive<T>(a: seq<T>, b: seq<T>, c: seq<T>)
    requires IsSubsequence(a, b) && IsSubsequence(b, c)
    ensures IsSubsequence(a, c)
    decreases |c|
  {
    if |a| > 0 {
      if IsSubsequence(b, c[1..]) {
        SubsequenceTransitive(a, b, c[1..]);
      } else {
        assert b[0] == c[0] && IsSubsequence(b[1..], c[1..]);
        if a[0] == b[0] && IsSubsequence(a[1..], b[1..]) {
          SubsequenceTransitive(a[1..], b[1..], c[1..]);
        } else {
          SubsequenceTransitive(a, b[1..], c[1..]);
        }
      }
    }
  }

  /** Every element of a subsequence is an element of the whole. */
  lemma {:induction false} SubsequenceMembers<T>(a: seq<T>, b: seq<T>)
    requires IsSubsequence(a, b)
    ensures forall i :: 0 <= i < |a| ==> a[i] in b
    decreases |b|
  {
    if |a| > 0 {
      if a[0] == b[0] && IsSubsequence(a[1..], b[1..]) {
        SubsequenceMembers(a[1..], b[1..]);
        forall i | 0 <= i < |a| ensures a[i] in b {
          if i > 0 { assert a[i] == a[1..][i - 1]; assert a[i] in b[1..]; }
        }
      } else {
        SubsequenceMembers(a, b[1..]);
      }
    }
  }

  /** How many elements satisfy `p`. */
  function Count<T>(s: seq<T>, p: T -> bool): nat {
    |Filter(s, p)|
  }

  lemma CountAppend<T>(a: seq<T>, b: seq<T>, p: T -> bool)
    ensures Count(a + b, p) == Count(a, p) + Count(b, p)
  {
    FilterAppend(a, b, p);
  }

  lemma {:induction false} CountZero<T>(s: seq<T>, p: T -> bool)
    ensures Count(s, p) == 0 <==> forall i :: 0 <= i < |s| ==> !p(s[i])
  {
    if |s| > 0 {
      CountZero(s[1..], p);
      assert forall i :: 1 <= i < |s| ==> s[i] == s[1..][i - 1];
    }
  }

  lemma FilterOne<T>(x: T, keep: T -> bool)
    ensures Filter([x], keep) == if keep(x) then [x] else []
  {
    assert [x][1..] == [];
  }

  lemma AllCons<T>(x: T, s: seq<T>, p: T -> bool)
    requires p(x) && forall i :: 0 <= i < |s| ==> p(s[i])
    ensures forall i :: 0 <= i < |s| + 1 ==> p(([x] + s)[i])
  {
    forall i | 0 <= i < |s| + 1 ensures p(([x] + s)[i]) {
      if i > 0 { assert ([x] + s)[i] == s[i - 1]; }
    }
  }

  /** The sequence without its first element satisfying `p`, or unchanged when none
      does: the effect of `findIndex` followed by `splice(i, 1)`. */
  function RemoveFirst<T>(s: seq<T>, p: T -> bool): (r: seq<T>)
    ensures FirstWhere(s, p).None? ==> r == s
    ensures FirstWhere(s, p).Some? ==> var g := FirstWhere(s, p).value; r == s[..g] + s[g + 1..]
    ensures Count(r, p) == if Count(s, p) > 0 then Count(s, p) - 1 else 0
  {
    match FirstWhere(s, p)
    case None =>
      CountZero(s, p);
      s
    case Some(g) =>
      assert s == s[..g] + [s[g]] + s[g + 1..];
      CountAppend(s[..g] + [s[g]], s[g + 1..], p);
      CountAppend(s[..g], [s[g]], p);
      CountAppend(s[..g], s[g + 1..], p);
      s[..g] + s[g + 1..]
  }
}

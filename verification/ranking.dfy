/**
 * Ranking one row of the similarity matrix: `np.argsort(row)[::-1]`, drop the
 * source position, keep the first `n`.
 *
 * numpy's default sort is not stable, so the order among equal scores is not
 * fixed by the source. `IsArgsortDesc` states only what every admissible order
 * satisfies, and the selection lemmas hold for every such order; `ArgsortDesc`
 * computes one of them.
 */
module Ranking {

  /** One row of the similarity matrix: the score of every catalog row against one source row. */
  type Row = seq<real>

  predicate Below(s: seq<nat>, n: nat) {
    forall k :: 0 <= k < |s| ==> s[k] < n
  }

  predicate Distinct(s: seq<nat>) {
    forall a, b :: 0 <= a < b < |s| ==> s[a] != s[b]
  }

  /** The positions in `order` are rows of `row` and their scores never increase. */
  predicate Descending(row: Row, order: seq<nat>) {
    Below(order, |row|) && forall a, b :: 0 <= a < b < |order| ==> row[order[a]] >= row[order[b]]
  }

  /** What `np.argsort(row)[::-1]` promises: every position once, scores non-increasing. */
  predicate IsArgsortDesc(row: Row, order: seq<nat>) {
    && |order| == |row|
    && Descending(row, order)
    && Distinct(order)
    && forall j :: 0 <= j < |row| ==> j in order
  }

  function Range(n: nat): (r: seq<nat>)
    ensures |r| == n && forall k :: 0 <= k < n ==> r[k] == k
  {
    if n == 0 then [] else Range(n - 1) + [n - 1]
  }

  /** Putting a position that outscores every element in front keeps the order descending. */
  lemma ConsDescending(row: Row, x: nat, s: seq<nat>)
    requires x < |row| && Descending(row, s)
    requires forall y :: y in s ==> row[x] >= row[y]
    ensures Descending(row, [x] + s)
  {
    var r := [x] + s;
    forall a, b | 0 <= a < b < |r|
      ensures row[r[a]] >= row[r[b]]
    {
      if a == 0 {
        assert r[b] == s[b - 1] && s[b - 1] in s;
      } else {
        assert r[a] == s[a - 1] && r[b] == s[b - 1];
      }
    }
  }

  /** The tail of a distinct list is distinct and lacks the head. */
  lemma DistinctTail(s: seq<nat>)
    requires s != [] && Distinct(s)
    ensures Distinct(s[1..]) && s[0] !in s[1..]
  {
    forall y | y in s[1..]
      ensures y != s[0]
    {
      var b :| 0 <= b < |s[1..]| && s[1..][b] == y;
      assert s[b + 1] == y;
    }
  }

  /** In a descending order the first position outscores every later one. */
  lemma HeadDominates(row: Row, s: seq<nat>)
    requires s != [] && Descending(row, s)
    ensures forall y :: y in s[1..] ==> row[s[0]] >= row[y]
  {
    forall y | y in s[1..]
      ensures row[s[0]] >= row[y]
    {
      var b :| 0 <= b < |s[1..]| && s[1..][b] == y;
      assert s[b + 1] == y;
    }
  }

  lemma ConsDistinct(x: nat, s: seq<nat>)
    requires Distinct(s) && x !in s
    ensures Distinct([x] + s)
  {
    var r := [x] + s;
    forall a, b | 0 <= a < b < |r|
      ensures r[a] != r[b]
    {
      assert r[b] == s[b - 1] && s[b - 1] in s;
      if a > 0 {
        assert r[a] == s[a - 1];
      }
    }
  }

  /** Place position `i` into a list already ordered by descending score. */
  function Insert(row: Row, i: nat, s: seq<nat>): (r: seq<nat>)
    requires i < |row| && Descending(row, s)
    ensures |r| == |s| + 1
    ensures forall x :: x in r <==> x == i || x in s
    ensures Descending(row, r)
    ensures Distinct(s) && i !in s ==> Distinct(r)
  {
    if s == [] then [i]
    else if row[i] >= row[s[0]] then
      HeadDominates(row, s);
      assert s == [s[0]] + s[1..];
      ConsDescending(row, i, s);
      if Distinct(s) && i !in s then ConsDistinct(i, s); [i] + s else [i] + s
    else
      assert s == [s[0]] + s[1..];
      var t := Insert(row, i, s[1..]);
      HeadDominates(row, s);
      ConsDescending(row, s[0], t);
      if Distinct(s) && i !in s then
        DistinctTail(s);
        ConsDistinct(s[0], t);
        [s[0]] + t
      else [s[0]] + t
  }

  /** Insertion sort of the positions `xs` by descending score. */
  function SortDesc(row: Row, xs: seq<nat>): (r: seq<nat>)
    requires Below(xs, |row|)
    ensures |r| == |xs|
    ensures forall x :: x in r <==> x in xs
    ensures Descending(row, r)
    ensures Distinct(xs) ==> Distinct(r)
  {
    if xs == [] then []
    else
      var t := SortDesc(row, xs[1..]);
      assert Distinct(xs) ==> xs[0] !in xs[1..];
      Insert(row, xs[0], t)
  }

  /** One admissible result of `np.argsort(row)[::-1]`. */
  function ArgsortDesc(row: Row): (order: seq<nat>)
    ensures IsArgsortDesc(row, order)
  {
    var r := Range(|row|);
    forall j | 0 <= j < |row|
      ensures j in r
    {
      assert r[j] == j;
    }
    SortDesc(row, r)
  }

  /** `order[order != src]`: every position but `src`, in the same order. */
  function Without(s: seq<nat>, src: nat): (r: seq<nat>)
    ensures |r| <= |s|
    ensures forall y :: y in r <==> y in s && y != src
    ensures src !in s ==> r == s
    ensures Distinct(s) ==> Distinct(r) && (src in s ==> |r| == |s| - 1)
  {
    if s == [] then []
    else
      assert s == [s[0]] + s[1..];
      var t := Without(s[1..], src);
      if Distinct(s) then
        DistinctTail(s);
        if s[0] == src then t
        else ConsDistinct(s[0], t); [s[0]] + t
      else if s[0] == src then t
      else [s[0]] + t
  }

  /** Dropping positions keeps the survivors in descending order. */
  lemma {:induction false} WithoutDescending(row: Row, s: seq<nat>, src: nat)
    requires Descending(row, s)
    ensures Descending(row, Without(s, src))
  {
    if s != [] {
      WithoutDescending(row, s[1..], src);
      if s[0] != src {
        HeadDominates(row, s);
        ConsDescending(row, s[0], Without(s[1..], src));
      }
    }
  }

  /** Length of the Python slice `a[:n]` of a sequence of length `len`. */
  function SliceLength(len: nat, n: int): nat {
    if n >= 0 then (if n <= len then n else len)
    else if len + n >= 0 then len + n else 0
  }

  /** Python's `a[:n]`; a negative `n` counts from the end. */
  function SlicePrefix(s: seq<nat>, n: int): (r: seq<nat>)
    ensures |r| == SliceLength(|s|, n)
    ensures r == s[..|r|]
  {
    s[..SliceLength(|s|, n)]
  }

  /** `order[order != src][:n]`. */
  function TopPositions(order: seq<nat>, src: nat, n: int): seq<nat> {
    SlicePrefix(Without(order, src), n)
  }

  /**
   * A top-`n` selection for source position `src` over `row`: distinct
   * positions other than `src`, as many as the slice keeps of the `|row| - 1`
   * others, in non-increasing score order, each at least as good as every row
   * left out, and all the others when `n` reaches `|row| - 1`.
   */
  predicate IsTopSelection(row: Row, top: seq<nat>, src: nat, n: int)
    requires src < |row|
  {
    && src !in top
    && Distinct(top)
    && Descending(row, top)
    && |top| == SliceLength(|row| - 1, n)
    && (forall j :: 0 <= j < |row| && j != src && j !in top && |top| > 0 ==>
          row[j] <= row[top[|top| - 1]])
    && (n >= |row| - 1 ==> forall j :: 0 <= j < |row| ==> (j in top <==> j != src))
  }

  /** A prefix of a distinct, descending order is distinct and descending. */
  lemma PrefixKeepsOrder(row: Row, w: seq<nat>, m: nat)
    requires m <= |w| && Descending(row, w) && Distinct(w)
    ensures Descending(row, w[..m]) && Distinct(w[..m])
    ensures forall x :: x in w[..m] ==> x in w
  {
    assert forall a :: 0 <= a < m ==> w[..m][a] == w[a];
  }

  /** For every admissible argsort order, dropping the source and slicing gives a true top-n. */
  lemma TopPositionsAreTopN(row: Row, order: seq<nat>, src: nat, n: int)
    requires IsArgsortDesc(row, order) && src < |row|
    ensures IsTopSelection(row, TopPositions(order, src, n), src, n)
  {
    var w := Without(order, src);
    WithoutDescending(row, order, src);
    assert src in order;
    assert |w| == |row| - 1;
    var top := TopPositions(order, src, n);
    assert top == w[..|top|];
    PrefixKeepsOrder(row, w, |top|);
    forall j | 0 <= j < |row| && j != src && j !in top && |top| > 0
      ensures row[j] <= row[top[|top| - 1]]
    {
      assert j in order;
      var p :| 0 <= p < |w| && w[p] == j;
      assert top[|top| - 1] == w[|top| - 1];
    }
    if n >= |row| - 1 {
      assert top == w;
    }
  }
}

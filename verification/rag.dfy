/** The retrieval library: the chunk and index records, the vector
    similarity, and top-k retrieval by a stable descending sort. */
module Rag {
  import opened Common
  import opened Text

  type Vector = seq<real>

  /** One indexed chunk of a PDF page. `embedding` is absent until the
      embedding script has filled it in. */
  datatype Chunk = Chunk(
    id: String,
    docId: String,
    filename: String,
    page: nat,
    chunkIndex: nat,
    text: String,
    embedding: Option<Vector>)

  /** The index file: when it was built, and its chunks in file, page and
      chunk order. */
  datatype Index = Index(createdAt: String, chunks: seq<Chunk>)

  // ---------------------------------------------------------------------------
  // Vector similarity (over the reals)

  /** `dot(a, b)`: the loop runs over the positions of `a`, so it is only a
      number when `b` is at least as long. */
  function Dot(a: Vector, b: Vector): (r: real)
    requires |a| <= |b|
    ensures a == b[..|a|] ==> r >= 0.0
    decreases |a|
  {
    if |a| == 0 then 0.0
    else
      var n := |a| - 1;
      assert a == b[..|a|] ==> a[..n] == b[..n] && a[n] == b[n];
      Dot(a[..n], b) + a[n] * b[n]
  }

  /** The accumulating loop of `dot`, which adds the products front to back. */
  method ComputeDot(a: Vector, b: Vector) returns (s: real)
    requires |a| <= |b|
    ensures s == Dot(a, b)
  {
    s := 0.0;
    var i := 0;
    while i < |a|
      invariant 0 <= i <= |a|
      invariant s == Dot(a[..i], b)
    {
      assert a[..i + 1][..i] == a[..i];
      s := s + a[i] * b[i];
      i := i + 1;
    }
    assert a[..|a|] == a;
  }

  /** The dot product of two vectors of the same length does not depend on
      their order. */
  lemma {:induction false} DotSymmetric(a: Vector, b: Vector)
    requires |a| == |b|
    ensures Dot(a, b) == Dot(b, a)
    decreases |a|
  {
    if |a| > 0 {
      var n := |a| - 1;
      DotPrefix(a[..n], b, n);
      DotPrefix(b[..n], a, n);
      DotSymmetric(a[..n], b[..n]);
    }
  }

  /** Only the first |a| positions of `b` take part in `Dot(a, b)`. */
  lemma {:induction false} DotPrefix(a: Vector, b: Vector, m: nat)
    requires |a| <= m <= |b|
    ensures Dot(a, b) == Dot(a, b[..m])
    decreases |a|
  {
    if |a| > 0 {
      DotPrefix(a[..|a| - 1], b, m);
    }
  }

  /** `dot(a, a)` is a sum of squares, so `norm` takes the root of a
      non-negative number. */
  lemma DotSelfNonNegative(a: Vector)
    ensures Dot(a, a) >= 0.0
  {
    assert a == a[..|a|];
  }

  /** The guard added to the product of the norms. */
  const Epsilon: real := 0.000000000001

  /** A square-root function: non-negative on non-negative arguments. The
      floating-point `Math.sqrt` is not part of this model. */
  ghost predicate IsRoot(sqrt: real -> real) {
    forall x :: 0.0 <= x ==> 0.0 <= sqrt(x)
  }

  function Norm(a: Vector, sqrt: real -> real): (r: real)
    requires IsRoot(sqrt)
    ensures r >= 0.0
  {
    DotSelfNonNegative(a);
    sqrt(Dot(a, a))
  }

  /** `cosineSim(a, b)`: the guard keeps the denominator positive, so the
      similarity has the sign of the dot product and is zero exactly for
      orthogonal vectors. */
  function CosineSim(a: Vector, b: Vector, sqrt: real -> real): (r: real)
    requires |a| <= |b| && IsRoot(sqrt)
    ensures r > 0.0 <==> Dot(a, b) > 0.0
    ensures r == 0.0 <==> Dot(a, b) == 0.0
  {
    var d := Norm(a, sqrt) * Norm(b, sqrt) + Epsilon;
    Dot(a, b) / d
  }

  /** Cosine similarity of two vectors of the same length is symmetric. */
  lemma CosineSymmetric(a: Vector, b: Vector, sqrt: real -> real)
    requires |a| == |b| && IsRoot(sqrt)
    ensures CosineSim(a, b, sqrt) == CosineSim(b, a, sqrt)
  {
    DotSymmetric(a, b);
    assert Norm(a, sqrt) * Norm(b, sqrt) == Norm(b, sqrt) * Norm(a, sqrt);
  }

  // ---------------------------------------------------------------------------
  // Ranking: a stable sort by descending score

  /** Position `i` comes before position `j` in a stable descending sort of
      `scores`: its score is higher, or equal with `i` earlier in the input. */
  predicate Before(scores: seq<real>, i: int, j: int) {
    && 0 <= i < |scores| && 0 <= j < |scores|
    && (scores[i] > scores[j] || (scores[i] == scores[j] && i < j))
  }

  /** The positions in `p` are listed in the order of the stable descending sort. */
  predicate Sorted(scores: seq<real>, p: seq<int>) {
    forall a, b :: 0 <= a < b < |p| ==> Before(scores, p[a], p[b])
  }

  /** `p` lists every position of `scores` once, in stable descending order. */
  predicate RankedBy(scores: seq<real>, p: seq<int>) {
    && |p| == |scores|
    && (forall q :: 0 <= q < |scores| ==> q in p)
    && Sorted(scores, p)
  }

  /** Inserts position `j`, later than every position in `p`, after all
      positions whose score is at least its own. */
  function Insert(scores: seq<real>, p: seq<int>, j: int): (r: seq<int>)
    requires 0 <= j < |scores| && Sorted(scores, p)
    requires forall i :: 0 <= i < |p| ==> 0 <= p[i] < j
    ensures |r| == |p| + 1
    ensures forall x :: x in r <==> x in p || x == j
    ensures Sorted(scores, r)
  {
    if |p| == 0 then [j]
    else if scores[p[0]] < scores[j] then
      InsertFirst(scores, p, j);
      [j] + p
    else
      assert forall i :: 0 <= i < |p| - 1 ==> p[1..][i] == p[i + 1];
      var rest := Insert(scores, p[1..], j);
      InsertLater(scores, p, j, rest);
      [p[0]] + rest
  }

  lemma InsertFirst(scores: seq<real>, p: seq<int>, j: int)
    requires 0 <= j < |scores| && |p| > 0 && Sorted(scores, p)
    requires forall i :: 0 <= i < |p| ==> 0 <= p[i] < j
    requires scores[p[0]] < scores[j]
    ensures Sorted(scores, [j] + p)
  {
    var r := [j] + p;
    forall a, b | 0 <= a < b < |r|
      ensures Before(scores, r[a], r[b])
    {
      if a == 0 {
        assert r[b] == p[b - 1];
        assert b - 1 == 0 || Before(scores, p[0], p[b - 1]);
      } else {
        assert r[a] == p[a - 1] && r[b] == p[b - 1];
      }
    }
  }

  lemma InsertLater(scores: seq<real>, p: seq<int>, j: int, rest: seq<int>)
    requires 0 <= j < |scores| && |p| > 0 && Sorted(scores, p)
    requires forall i :: 0 <= i < |p| ==> 0 <= p[i] < j
    requires scores[j] <= scores[p[0]]
    requires forall x :: x in rest <==> x in p[1..] || x == j
    requires Sorted(scores, rest)
    ensures Sorted(scores, [p[0]] + rest)
  {
    var r := [p[0]] + rest;
    forall a, b | 0 <= a < b < |r|
      ensures Before(scores, r[a], r[b])
    {
      if a == 0 {
        var x := rest[b - 1];
        assert r[b] == x && x in rest;
        if x != j {
          var t :| 0 <= t < |p[1..]| && p[1..][t] == x;
          assert p[t + 1] == x;
        }
      } else {
        assert r[a] == rest[a - 1] && r[b] == rest[b - 1];
      }
    }
  }

  /** The stable descending sort of positions `0 .. m-1`, built by inserting
      each position in input order. */
  function Ranking(scores: seq<real>, m: nat): (r: seq<int>)
    requires m <= |scores|
    ensures |r| == m
    ensures forall x :: x in r <==> 0 <= x < m
    ensures Sorted(scores, r)
  {
    if m == 0 then []
    else
      var p := Ranking(scores, m - 1);
      assert forall i :: 0 <= i < |p| ==> p[i] in p;
      Insert(scores, p, m - 1)
  }

  /** The insertion order ranks every position of `scores`. */
  lemma RankingRanks(scores: seq<real>)
    ensures RankedBy(scores, Ranking(scores, |scores|))
  {
  }

  /** A stable descending order is unique: any two rankings of the same scores
      agree, so the result does not depend on how the sort is carried out. */
  lemma RankingUnique(scores: seq<real>, p: seq<int>, q: seq<int>)
    requires RankedBy(scores, p) && RankedBy(scores, q)
    ensures p == q
  {
    RankedElements(scores, p);
    RankedElements(scores, q);
    SortedSameElements(scores, p, q);
  }

  /** A ranking holds exactly the positions of `scores`. */
  lemma RankedElements(scores: seq<real>, p: seq<int>)
    requires RankedBy(scores, p)
    ensures forall x :: x in p <==> 0 <= x < |scores|
  {
    PrefixDominates(scores, p, |p|);
  }

  /** Two sorted lists of positions with the same elements are equal. */
  lemma {:induction false} SortedSameElements(scores: seq<real>, p: seq<int>, q: seq<int>)
    requires Sorted(scores, p) && Sorted(scores, q)
    requires forall x :: x in p <==> x in q
    ensures p == q
    decreases |p|
  {
    HeadIsElement(q);
    if |p| > 0 {
      assert p[0] in p && q[0] in q;
      HeadFirst(scores, p, q[0]);
      HeadFirst(scores, q, p[0]);
      assert p[0] == q[0];
      SortedTail(scores, p);
      SortedTail(scores, q);
      forall x
        ensures x in p[1..] <==> x in q[1..]
      {
        SortedTailElements(scores, p, x);
        SortedTailElements(scores, q, x);
      }
      SortedSameElements(scores, p[1..], q[1..]);
      assert p == [p[0]] + p[1..] && q == [q[0]] + q[1..];
    }
  }

  lemma HeadIsElement(q: seq<int>)
    ensures |q| > 0 ==> q[0] in q
  {
  }

  /** The head of a sorted list comes before every other element in it. */
  lemma HeadFirst(scores: seq<real>, p: seq<int>, x: int)
    requires |p| > 0 && Sorted(scores, p)
    ensures x in p && x != p[0] ==> Before(scores, p[0], x)
  {
    if x in p && x != p[0] {
      var t :| 0 <= t < |p| && p[t] == x;
      assert Before(scores, p[0], p[t]);
    }
  }

  lemma SortedTail(scores: seq<real>, p: seq<int>)
    requires |p| > 0 && Sorted(scores, p)
    ensures Sorted(scores, p[1..])
  {
    forall a, b | 0 <= a < b < |p| - 1
      ensures Before(scores, p[1..][a], p[1..][b])
    {
      assert p[1..][a] == p[a + 1] && p[1..][b] == p[b + 1];
    }
  }

  /** In a sorted list the head does not occur again. */
  lemma SortedTailElements(scores: seq<real>, p: seq<int>, x: int)
    requires |p| > 0 && Sorted(scores, p)
    ensures x in p[1..] <==> x in p && x != p[0]
  {
    if x in p[1..] {
      var t :| 0 <= t < |p| - 1 && p[1..][t] == x;
      assert Before(scores, p[0], p[t + 1]);
    }
    if x in p && x != p[0] {
      var t :| 0 <= t < |p| && p[t] == x;
      assert p[1..][t - 1] == x;
    }
  }

  // ---------------------------------------------------------------------------
  // Top-k retrieval

  /** The end index of JavaScript's `slice(0, k)` on a list of length `n`: a
      negative `k` counts back from the end. */
  function SliceEnd(k: int, n: nat): (e: nat)
    ensures e <= n
    ensures 0 <= k ==> e == if k < n then k else n
    ensures k < 0 ==> e == if n + k > 0 then n + k else 0
  {
    if k < 0 then (if n + k > 0 then n + k else 0)
    else if k < n then k
    else n
  }

  /** The input positions `retrieveTopK` returns, in output order: they are
      distinct positions in stable descending order, and every position left
      out ranks after every position returned (so its score is no higher). */
  function TopPositions(scores: seq<real>, k: int): (r: seq<int>)
    ensures |r| == SliceEnd(k, |scores|)
    ensures forall i :: 0 <= i < |r| ==> 0 <= r[i] < |scores|
    ensures Sorted(scores, r)
    ensures forall q :: 0 <= q < |scores| && q !in r ==>
              forall i :: 0 <= i < |r| ==> Before(scores, r[i], q)
  {
    var p := Ranking(scores, |scores|);
    var m := SliceEnd(k, |scores|);
    PrefixDominates(scores, p, m);
    p[..m]
  }

  lemma PrefixDominates(scores: seq<real>, p: seq<int>, m: nat)
    requires RankedBy(scores, p) && m <= |p|
    ensures forall i :: 0 <= i < m ==> 0 <= p[i] < |scores|
    ensures Sorted(scores, p[..m])
    ensures forall q :: 0 <= q < |scores| && q !in p[..m] ==>
              forall i :: 0 <= i < m ==> Before(scores, p[..m][i], q)
  {
    forall i | 0 <= i < m
      ensures 0 <= p[i] < |scores|
    {
      if |p| > 1 {
        var j := if i == 0 then 1 else 0;
        assert Before(scores, p[if i < j then i else j], p[if i < j then j else i]);
      } else {
        assert p[i] in p;
        assert 0 in p;
      }
    }
    forall q, i | 0 <= q < |scores| && q !in p[..m] && 0 <= i < m
      ensures Before(scores, p[..m][i], q)
    {
      assert q in p;
      var t :| 0 <= t < |p| && p[t] == q;
      assert p[..m][i] == p[i];
    }
  }

  /** A retrieved chunk with its score against the query. */
  datatype ScoredChunk = ScoredChunk(chunk: Chunk, score: real)

  /** `retrieveTopK(query, chunks, k)`, with the similarity of the query to a
      chunk given as the opaque function `sim`. Entry i pairs the chunk at a
      position `P[i]` of the input with that chunk's own score; the positions
      are distinct and listed by descending score, equal scores in input
      order; every chunk not returned scores no higher than any returned one;
      and there are `min(k, |chunks|)` entries for a non-negative `k`. */
  function RetrieveTopK(query: Vector, chunks: seq<Chunk>, k: int, sim: (Vector, Chunk) -> real)
    : (r: seq<ScoredChunk>)
    ensures |r| == SliceEnd(k, |chunks|)
    ensures 0 <= k ==> |r| == if k < |chunks| then k else |chunks|
    ensures var P := TopPositions(Scores(query, chunks, sim), k);
            forall i :: 0 <= i < |r| ==>
              0 <= P[i] < |chunks| && r[i] == ScoredChunk(chunks[P[i]], sim(query, chunks[P[i]]))
    ensures forall i, j :: 0 <= i < j < |r| ==> r[i].score >= r[j].score
    ensures var P := TopPositions(Scores(query, chunks, sim), k);
            forall i, j :: 0 <= i < j < |r| ==>
              P[i] != P[j] && (r[i].score == r[j].score ==> P[i] < P[j])
    ensures forall q :: 0 <= q < |chunks| && q !in TopPositions(Scores(query, chunks, sim), k) ==>
              forall i :: 0 <= i < |r| ==> sim(query, chunks[q]) <= r[i].score
  {
    var scores := Scores(query, chunks, sim);
    var P := TopPositions(scores, k);
    seq(|P|, i requires 0 <= i < |P| => ScoredChunk(chunks[P[i]], scores[P[i]]))
  }

  /** The score of each chunk against the query, in input order. */
  function Scores(query: Vector, chunks: seq<Chunk>, sim: (Vector, Chunk) -> real): (s: seq<real>)
    ensures |s| == |chunks|
    ensures forall i :: 0 <= i < |chunks| ==> s[i] == sim(query, chunks[i])
  {
    seq(|chunks|, i requires 0 <= i < |chunks| => sim(query, chunks[i]))
  }
}

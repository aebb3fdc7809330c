/** Scoring, ranking and filtering of stored chunks: `cosine_similarity` and
    `DatabaseVectorStore.search` of backend/app/services/ai/vector_store.py, and `retrieve` of
    backend/app/services/knowledge_base.py. Scores are exact reals. */
module Retrieval {
  import opened Wrappers
  import opened Sequences
  import opened StableSort

  type Vector = seq<real>

  // ---------------------------------------------------------------------------
  // Cosine similarity
  // ---------------------------------------------------------------------------

  function Dot(a: Vector, b: Vector): real
    requires |a| == |b|
  {
    if a == [] then 0.0 else a[0] * b[0] + Dot(a[1..], b[1..])
  }

  /** `n` is the Euclidean norm of `v`. */
  predicate IsNorm(n: real, v: Vector) { n >= 0.0 && n * n == Dot(v, v) }

  lemma SquareIsNotNegative(x: real)
    ensures x * x >= 0.0
  {
  }

  lemma {:induction false} DotWithItself(v: Vector)
    ensures Dot(v, v) >= 0.0
  {
    if v != [] {
      DotWithItself(v[1..]);
      SquareIsNotNegative(v[0]);
    }
  }

  lemma SquaresCompare(r: real, s: real)
    requires s >= 0.0 && r * r <= s * s
    ensures -s <= r <= s
  {
    SquaresGrow(s, r);
    SquaresGrow(s, -r);
    assert (-r) * (-r) == r * r;
  }

  lemma SquaresGrow(s: real, r: real)
    requires 0.0 <= s
    ensures s < r ==> s * s < r * r
  {
    if s < r {
      PositiveProduct(r - s, r + s);
      assert r * r - s * s == (r - s) * (r + s);
    }
  }

  lemma PositiveProduct(x: real, y: real)
    requires x > 0.0 && y > 0.0
    ensures x * y > 0.0
  {
  }

  /** Twice a geometric mean is at most the sum. */
  lemma MeanInequality(p: real, q: real, r: real)
    requires p >= 0.0 && q >= 0.0 && r * r <= p * q
    ensures 2.0 * r <= p + q
  {
    SquareIsNotNegative(p - q);
    assert (p - q) * (p - q) == (p + q) * (p + q) - 4.0 * (p * q);
    assert (2.0 * r) * (2.0 * r) == 4.0 * (r * r);
    SquaresCompare(2.0 * r, p + q);
  }

  /** One more coordinate keeps the inequality. */
  lemma OneMoreCoordinate(a: real, b: real, c: real, x: real, y: real)
    requires a >= 0.0 && b >= 0.0 && c * c <= a * b
    ensures (x * y + c) * (x * y + c) <= (x * x + a) * (y * y + b)
  {
    var p, q, r := a * (y * y), b * (x * x), c * (x * y);
    SquareIsNotNegative(x);
    SquareIsNotNegative(y);
    SquareIsNotNegative(x * y);
    ProductIsNotNegative(a, y * y);
    ProductIsNotNegative(b, x * x);
    assert r * r == (c * c) * ((x * y) * (x * y)) by { Regroup(c, x * y); }
    assert p * q == (a * b) * ((x * y) * (x * y)) by { RegroupFour(a, b, x, y); }
    ScaleBySquare(c * c, a * b, x * y);
    MeanInequality(p, q, r);
    Expand(a, b, c, x, y);
  }

  lemma ProductIsNotNegative(x: real, y: real)
    requires x >= 0.0 && y >= 0.0
    ensures x * y >= 0.0
  {
  }

  lemma Regroup(c: real, z: real)
    ensures (c * z) * (c * z) == (c * c) * (z * z)
  {
  }

  lemma RegroupFour(a: real, b: real, x: real, y: real)
    ensures (a * (y * y)) * (b * (x * x)) == (a * b) * ((x * y) * (x * y))
  {
    assert (y * y) * (x * x) == (x * y) * (x * y);
    var s, t := y * y, x * x;
    assert (a * s) * (b * t) == (a * b) * (s * t);
  }

  lemma ScaleBySquare(x: real, y: real, z: real)
    requires x <= y
    ensures x * (z * z) <= y * (z * z)
  {
    SquareIsNotNegative(z);
  }

  lemma Expand(a: real, b: real, c: real, x: real, y: real)
    ensures (x * x + a) * (y * y + b) - (x * y + c) * (x * y + c) ==
            a * b - c * c + (a * (y * y) + b * (x * x) - 2.0 * (c * (x * y)))
  {
    assert (x * x) * (y * y) == (x * y) * (x * y);
  }

  /** The same with the new sums named, so that no product has to be taken apart again. */
  lemma NextSums(a: real, b: real, c: real, x: real, y: real, a': real, b': real, c': real)
    requires a >= 0.0 && b >= 0.0 && c * c <= a * b
    requires a' == x * x + a && b' == y * y + b && c' == x * y + c
    ensures c' * c' <= a' * b'
  {
    OneMoreCoordinate(a, b, c, x, y);
  }

  /** One more coordinate adds its product. */
  lemma {:induction false} DotAddsUp(a: Vector, b: Vector, x: real, y: real)
    requires |a| == |b|
    ensures Dot([], []) == 0.0 && Dot(a + [x], b + [y]) == Dot(a, b) + x * y
  {
    if a == [] {
      assert [x][1..] == [] && [y][1..] == [];
      assert a + [x] == [x] && b + [y] == [y];
    } else {
      DotAddsUp(a[1..], b[1..], x, y);
      assert (a + [x])[1..] == a[1..] + [x] && (b + [y])[1..] == b[1..] + [y];
    }
  }

  lemma DotStep(a: Vector, b: Vector)
    requires |a| == |b| && a != []
    ensures Dot(a, b) == a[0] * b[0] + Dot(a[1..], b[1..])
  {
  }

  /** The Cauchy-Schwarz inequality. */
  lemma {:induction false} CauchySchwarz(a: Vector, b: Vector)
    requires |a| == |b|
    ensures Dot(a, b) * Dot(a, b) <= Dot(a, a) * Dot(b, b)
  {
    if a == [] {
      assert Dot(a, b) == 0.0 && Dot(a, a) == 0.0;
    } else {
      hide Dot;
      CauchySchwarz(a[1..], b[1..]);
      DotWithItself(a[1..]);
      DotWithItself(b[1..]);
      DotStep(a, b);
      DotStep(a, a);
      DotStep(b, b);
      NextSums(Dot(a[1..], a[1..]), Dot(b[1..], b[1..]), Dot(a[1..], b[1..]), a[0], b[0], Dot(a, a), Dot(b, b), Dot(a, b));
    }
  }

  // ---------------------------------------------------------------------------
  // Scores
  // ---------------------------------------------------------------------------

  /** What a score means: the cosine of the angle, and 0 against a zero vector. */
  ghost predicate IsScore(score: real, dot: real, queryNorm: real, rowNorm: real) {
    && -1.0 <= score <= 1.0
    && (queryNorm == 0.0 || rowNorm == 0.0 ==> score == 0.0)
    && score * (rowNorm * queryNorm) == dot
  }

  function Over(c: real, m: real): real
    requires m != 0.0
  {
    c / m
  }

  lemma QuotientOfNonZero(c: real, m: real)
    requires m > 0.0 && c * c <= m * m
    ensures -1.0 <= Over(c, m) <= 1.0 && Over(c, m) * m == c
  {
    SquaresCompare(c, m);
    QuotientInRange(c, m);
  }

  lemma QuotientOfZero(c: real, m: real)
    requires m > 0.0 && c * c <= 0.0
    ensures c == 0.0 && Over(c, m) == 0.0
  {
    SquaresCompare(c, 0.0);
  }

  lemma DotIsBounded(query: Vector, row: Vector, queryNorm: real, rowNorm: real)
    requires |query| == |row| && IsNorm(queryNorm, query) && IsNorm(rowNorm, row)
    ensures Dot(row, query) * Dot(row, query) <= (rowNorm * queryNorm) * (rowNorm * queryNorm)
  {
    hide Dot;
    CauchySchwarz(row, query);
    BoundedByNorms(Dot(row, query), Dot(row, row), Dot(query, query), rowNorm, queryNorm);
  }

  lemma BoundedByNorms(c: real, rows: real, queries: real, rowNorm: real, queryNorm: real)
    requires c * c <= rows * queries && rowNorm * rowNorm == rows && queryNorm * queryNorm == queries
    ensures c * c <= (rowNorm * queryNorm) * (rowNorm * queryNorm)
  {
    Regroup(rowNorm, queryNorm);
  }

  /** Patching a zero norm does not change what the quotient means. */
  lemma QuotientIsScore(c: real, rowNorm: real, queryNorm: real, patched: real)
    requires rowNorm >= 0.0 && queryNorm > 0.0 && c * c <= (rowNorm * queryNorm) * (rowNorm * queryNorm)
    requires patched == if rowNorm == 0.0 then 1.0 else rowNorm
    ensures patched * queryNorm > 0.0 && IsScore(Over(c, patched * queryNorm), c, queryNorm, rowNorm)
  {
    PositiveProduct(patched, queryNorm);
    if rowNorm == 0.0 {
      QuotientOfZero(c, patched * queryNorm);
    } else {
      QuotientOfNonZero(c, patched * queryNorm);
    }
  }

  lemma QuotientInRange(c: real, m: real)
    requires m > 0.0
    ensures (c / m) * m == c
    ensures c == 0.0 ==> c / m == 0.0
    ensures -m <= c <= m ==> -1.0 <= c / m <= 1.0
  {
    if -m <= c <= m {
      assert c / m <= m / m;
      assert -m / m <= c / m;
    }
  }

  lemma ZeroQueryScores(query: Vector, row: Vector, queryNorm: real, rowNorm: real)
    requires |query| == |row| && IsNorm(queryNorm, query) && queryNorm == 0.0
    ensures IsScore(0.0, Dot(row, query), queryNorm, rowNorm)
  {
    CauchySchwarz(row, query);
    SquaresCompare(Dot(row, query), 0.0);
  }

  /** `cosine_similarity`, with the norm passed in: the square root is not computable here. A
      matrix without entries gives no scores, even if it has rows. */
  method CosineSimilarity(query: Vector, matrix: seq<Vector>, norm: Vector -> real) returns (scores: seq<real>)
    requires forall i :: 0 <= i < |matrix| ==> |matrix[i]| == |query| && IsNorm(norm(matrix[i]), matrix[i])
    requires IsNorm(norm(query), query)
    ensures |scores| == if query == [] then 0 else |matrix|
    ensures forall i :: 0 <= i < |scores| ==>
              IsScore(scores[i], Dot(matrix[i], query), norm(query), norm(matrix[i]))
  {
    hide IsScore, Over;
    if matrix == [] || query == [] {
      return [];
    }
    var queryNorm := norm(query);
    if queryNorm == 0.0 {
      forall i | 0 <= i < |matrix| ensures IsScore(0.0, Dot(matrix[i], query), queryNorm, norm(matrix[i])) {
        ZeroQueryScores(query, matrix[i], queryNorm, norm(matrix[i]));
      }
      return seq(|matrix|, _ => 0.0);
    }
    var rowNorms := new real[|matrix|](i requires 0 <= i < |matrix| => norm(matrix[i]));
    for i := 0 to |matrix|
      invariant forall j :: 0 <= j < |matrix| ==>
                  rowNorms[j] == if j < i && norm(matrix[j]) == 0.0 then 1.0 else norm(matrix[j])
    {
      if rowNorms[i] == 0.0 {
        rowNorms[i] := 1.0;
      }
    }
    scores := [];
    for i := 0 to |matrix|
      invariant forall j :: 0 <= j < |matrix| ==>
                  rowNorms[j] == if norm(matrix[j]) == 0.0 then 1.0 else norm(matrix[j])
      invariant |scores| == i
      invariant forall j :: 0 <= j < i ==> IsScore(scores[j], Dot(matrix[j], query), queryNorm, norm(matrix[j]))
    {
      var row, rowNorm := matrix[i], rowNorms[i];
      DotIsBounded(query, row, queryNorm, norm(row));
      QuotientIsScore(Dot(row, query), norm(row), queryNorm, rowNorm);
      var score := Over(Dot(row, query), rowNorm * queryNorm);
      scores := scores + [score];
    }
  }

  // ---------------------------------------------------------------------------
  // Ranking
  // ---------------------------------------------------------------------------

  datatype Hit = Hit(chunk: nat, score: real)

  predicate Ahead(a: Hit, b: Hit) { a.score >= b.score }

  function AtLeast(floor: real): Hit -> bool { (h: Hit) => h.score >= floor }

  /** `search`: stably sorted, best first, and cut to the first `k`. */
  function Search(scored: seq<Hit>, k: nat): seq<Hit> { Take(Sort(Ahead, scored), k) }

  /** `top_k or self.settings.RAG_TOP_K`. */
  function Chosen(topK: Option<nat>, defaultK: nat): nat {
    if topK.Some? && topK.value != 0 then topK.value else defaultK
  }

  /** `retrieve`: an absent or zero `top_k` means the configured one; hits below the floor go. */
  function Retrieve(scored: seq<Hit>, topK: Option<nat>, defaultK: nat, floor: real): seq<Hit> {
    Filter(AtLeast(floor), Search(scored, Chosen(topK, defaultK)))
  }

  lemma AheadIsPreorder()
    ensures TotalPreorder(Ahead)
  {
  }

  lemma {:induction false} BelowFloorBelow(hits: seq<Hit>, floor: real)
    requires SortedBy(Ahead, hits) && hits != [] && hits[0].score < floor
    ensures Filter(AtLeast(floor), hits) == []
  {
    if |hits| > 1 {
      BelowFloorBelow(hits[1..], floor);
    }
  }

  /** In a ranking the hits above the floor come first, so cutting and filtering commute. */
  lemma {:induction false} CutThenFilter(hits: seq<Hit>, k: nat, floor: real)
    requires SortedBy(Ahead, hits)
    ensures Filter(AtLeast(floor), Take(hits, k)) == Take(Filter(AtLeast(floor), hits), k)
  {
    if hits == [] {
    } else if k == 0 {
      assert Take(hits, 0) == [];
    } else if hits[0].score >= floor {
      CutThenFilter(hits[1..], k - 1, floor);
      assert Take(hits, k) == [hits[0]] + Take(hits[1..], k - 1);
      FilterHead(AtLeast(floor), hits[0], Take(hits[1..], k - 1));
      var rest := Filter(AtLeast(floor), hits[1..]);
      assert Take([hits[0]] + rest, k) == [hits[0]] + Take(rest, k - 1);
    } else {
      BelowFloorBelow(hits, floor);
      BelowFloorBelow(Take(hits, k), floor);
    }
  }

  /** Retrieving is searching among the relevant chunks only. */
  lemma FloorFirst(scored: seq<Hit>, k: nat, floor: real)
    ensures Filter(AtLeast(floor), Search(scored, k)) == Search(Filter(AtLeast(floor), scored), k)
  {
    AheadIsPreorder();
    SortSorted(Ahead, scored);
    CutThenFilter(Sort(Ahead, scored), k, floor);
    FilterSort(Ahead, AtLeast(floor), scored);
  }

  /** The hits are the best candidates; `rest` is what was cut off. */
  lemma SearchIsBest(scored: seq<Hit>, k: nat) returns (rest: seq<Hit>)
    ensures var hits := Search(scored, k);
            && |hits| == (if k < |scored| then k else |scored|)
            && (forall i, j :: 0 <= i < j < |hits| ==> hits[i].score >= hits[j].score)
            && multiset(hits) + multiset(rest) == multiset(scored)
            && forall h, r :: h in hits && r in rest ==> h.score >= r.score
  {
    AheadIsPreorder();
    var ranked := Sort(Ahead, scored);
    SortSorted(Ahead, scored);
    SortElements(Ahead, scored);
    hide Sort;
    var n := if k < |scored| then k else |scored|;
    rest := ranked[n..];
    assert ranked == ranked[..n] + rest;
    assert Search(scored, k) == ranked[..n];
  }

  function Below(floor: real): Hit -> bool { (h: Hit) => h.score < floor }

  lemma {:induction false} FilterSplits(s: seq<Hit>, floor: real)
    ensures multiset(Filter(AtLeast(floor), s)) + multiset(Filter(Below(floor), s)) == multiset(s)
  {
    if s != [] {
      FilterSplits(s[1..], floor);
      assert s == [s[0]] + s[1..];
    }
  }

  /** `rest` is what was left out, and none of it should have come back instead. */
  ghost predicate RightlyLeftOut(hits: seq<Hit>, rest: seq<Hit>, k: nat, floor: real) {
    forall r :: r in rest && r.score >= floor ==>
      |hits| == k && forall h :: h in hits ==> h.score >= r.score
  }

  /** Hits come best first and reach the floor; the candidates that are left out lie below the
      floor or, if as many hits as asked for were returned, are no better than any of them. */
  lemma RetrieveIsBest(scored: seq<Hit>, topK: Option<nat>, defaultK: nat, floor: real) returns (rest: seq<Hit>)
    ensures var hits := Retrieve(scored, topK, defaultK, floor);
            var k := if topK.Some? && topK.value > 0 then topK.value else defaultK;
            && |hits| <= k && (forall i, j :: 0 <= i < j < |hits| ==> hits[i].score >= hits[j].score)
            && (forall h :: h in hits ==> h.score >= floor)
            && multiset(hits) + multiset(rest) == multiset(scored)
            && RightlyLeftOut(hits, rest, k, floor)
  {
    var k := Chosen(topK, defaultK);
    var hits, relevant := Retrieve(scored, topK, defaultK, floor), Filter(AtLeast(floor), scored);
    var irrelevant := Filter(Below(floor), scored);
    FloorFirst(scored, k, floor);
    var cut := SearchIsBest(relevant, k);
    FilterSubset(AtLeast(floor), Search(scored, k));
    FilterSubset(Below(floor), scored);
    FilterSplits(scored, floor);
    hide Filter, Search, SortedBy;
    rest := cut + irrelevant;
    LeftOverMeansFull(hits, cut, relevant, k);
  }

  lemma LeftOverMeansFull(hits: seq<Hit>, rest: seq<Hit>, relevant: seq<Hit>, k: nat)
    requires multiset(hits) + multiset(rest) == multiset(relevant)
    requires |hits| == if k < |relevant| then k else |relevant|
    ensures rest != [] ==> |hits| == k
  {
    assert |multiset(hits) + multiset(rest)| == |multiset(relevant)|;
  }
}

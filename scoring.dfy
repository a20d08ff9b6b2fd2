/** `WorldcatAPI.calculate_score`: a record's title is preprocessed and
    compared with the (already preprocessed) query title; the score is the
    share of the query title's length left after subtracting the edit
    distance, as a whole percentage floored at 0. */
module Scoring {
  import opened Wrappers
  import opened Catalog
  import opened Normalize
  import opened EditDistance

  /** Euclidean division by a positive divisor is monotone. */
  lemma DivMonotone(x: nat, y: nat, n: nat)
    requires n > 0 && x <= y
    ensures x / n <= y / n
  {
    if x / n > y / n {
      calc {
        x;
      >= (x / n) * n;
      >= (y / n + 1) * n;
      == (y / n) * n + n;
      >  y;
      }
    }
  }

  lemma MulMonotone(a: nat, b: nat, n: nat)
    requires a <= b
    ensures a * n <= b * n
  {
    assert b * n == a * n + (b - a) * n;
  }

  /** `x / n` reaches `k` exactly when `x` reaches `k * n`. */
  lemma DivAtLeast(x: nat, n: nat, k: nat)
    requires n > 0
    ensures x / n >= k <==> x >= k * n
  {
    var q, r := x / n, x % n;
    assert x == q * n + r && r < n;
    if q >= k {
      MulMonotone(k, q, n);
    } else {
      MulMonotone(q + 1, k, n);
      assert (q + 1) * n == q * n + n;
    }
  }

  /** The score for distance `d` against a title of length `n`:
      `int(max((1 - d / n) * 100, 0))` computed exactly. */
  function ScoreFromDistance(n: nat, d: nat): (r: nat)
    requires n > 0
    ensures r <= 100
    ensures r == 100 <==> d == 0
    ensures d >= n ==> r == 0
    ensures r > 0 <==> d < n && 100 * (n - d) >= n
  {
    if d >= n then 0
    else
      DivAtLeast(100 * (n - d), n, 100);
      DivAtLeast(100 * (n - d), n, 101);
      DivAtLeast(100 * (n - d), n, 1);
      (100 * (n - d)) / n
  }

  /** A larger distance never gives a higher score. */
  lemma ScoreMonotone(n: nat, d1: nat, d2: nat)
    requires n > 0 && d1 <= d2
    ensures ScoreFromDistance(n, d1) >= ScoreFromDistance(n, d2)
  {
    if d2 < n {
      DivMonotone(100 * (n - d2), 100 * (n - d1), n);
    }
  }

  /** `calculate_score(title, record)`: `title` is the preprocessed query
      title and must not be empty (the source divides by its length);
      the record must carry a title. */
  function CalculateScore(title: string, record: Record): (r: nat)
    requires |title| > 0 && record.title.Some?
    ensures r <= 100
    ensures r == 100 <==> Preprocess(record.title.value) == title
    ensures Distance(title, Preprocess(record.title.value)) >= |title| ==> r == 0
    ensures r > 0 ==> Distance(title, Preprocess(record.title.value)) < |title|
  {
    var found := Preprocess(record.title.value);
    DistanceZeroIff(title, found);
    ScoreFromDistance(|title|, Distance(title, found))
  }

  /** A record whose preprocessed title is at least twice as long as the
      query title scores 0: the length gap alone uses up the query. */
  lemma LongTitlesScoreZero(title: string, record: Record)
    requires |title| > 0 && record.title.Some?
    requires |Preprocess(record.title.value)| >= 2 * |title|
    ensures CalculateScore(title, record) == 0
  {
    DistanceAtLeastLengthGap(title, Preprocess(record.title.value));
  }
}

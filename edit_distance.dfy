/** Levenshtein edit distance, which `calculate_score` takes from the
    `Levenshtein` package: the least number of single-character insertions,
    deletions and substitutions turning one string into the other. The
    package itself is not part of this model; `Distance` is the textbook
    recursive definition and `Levenshtein` the row-by-row dynamic program,
    proved to compute it. */
module EditDistance {

  function Min3(x: nat, y: nat, z: nat): (m: nat)
    ensures m <= x && m <= y && m <= z
    ensures m == x || m == y || m == z
  {
    if x <= y && x <= z then x else if y <= z then y else z
  }

  /** Edit distance between `a` and `b`, by recursion on their last
      characters: delete the last of `a`, insert the last of `b`, or match
      the two (free when they are equal, one substitution otherwise). */
  function Distance(a: string, b: string): (d: nat)
    ensures d <= |a| + |b|
    ensures |a| == 0 || |b| == 0 ==> d == |a| + |b|
    decreases |a| + |b|
  {
    if |a| == 0 then |b|
    else if |b| == 0 then |a|
    else Min3(Distance(a[..|a| - 1], b) + 1,
              Distance(a, b[..|b| - 1]) + 1,
              Distance(a[..|a| - 1], b[..|b| - 1]) + (if a[|a| - 1] == b[|b| - 1] then 0 else 1))
  }

  /** A string is at distance 0 from itself. */
  lemma {:induction false} DistanceToSelf(a: string)
    ensures Distance(a, a) == 0
    decreases |a|
  {
    if |a| > 0 {
      DistanceToSelf(a[..|a| - 1]);
    }
  }

  /** Distance 0 only between equal strings. */
  lemma {:induction false} DistanceZeroOnlyIfEqual(a: string, b: string)
    requires Distance(a, b) == 0
    ensures a == b
    decreases |a| + |b|
  {
    if |a| > 0 && |b| > 0 {
      var a', b' := a[..|a| - 1], b[..|b| - 1];
      assert Distance(a', b') == 0 && a[|a| - 1] == b[|b| - 1];
      DistanceZeroOnlyIfEqual(a', b');
      assert a == a' + [a[|a| - 1]] && b == b' + [b[|b| - 1]];
    }
  }

  /** Distance 0 exactly between equal strings. */
  lemma DistanceZeroIff(a: string, b: string)
    ensures Distance(a, b) == 0 <==> a == b
  {
    if a == b {
      DistanceToSelf(a);
    } else if Distance(a, b) == 0 {
      DistanceZeroOnlyIfEqual(a, b);
    }
  }

  /** The distance is at least the difference of the lengths: every edit
      changes the length by at most one. */
  lemma {:induction false} DistanceAtLeastLengthGap(a: string, b: string)
    ensures Distance(a, b) >= |a| - |b| && Distance(a, b) >= |b| - |a|
    decreases |a| + |b|
  {
    if |a| > 0 && |b| > 0 {
      DistanceAtLeastLengthGap(a[..|a| - 1], b);
      DistanceAtLeastLengthGap(a, b[..|b| - 1]);
      DistanceAtLeastLengthGap(a[..|a| - 1], b[..|b| - 1]);
    }
  }

  /** The distance is at most the longer length: substitute along the
      shorter string and insert or delete the rest. */
  lemma {:induction false} DistanceAtMostLonger(a: string, b: string)
    ensures Distance(a, b) <= if |a| <= |b| then |b| else |a|
    decreases |a| + |b|
  {
    if |a| > 0 && |b| > 0 {
      DistanceAtMostLonger(a[..|a| - 1], b[..|b| - 1]);
    }
  }

  /** One cell of the dynamic program, from its three neighbours. */
  lemma DistanceCell(a: string, b: string, i: nat, j: nat)
    requires i < |a| && 0 < j <= |b|
    ensures Distance(a[..i + 1], b[..j])
         == Min3(Distance(a[..i], b[..j]) + 1,
                 Distance(a[..i + 1], b[..j - 1]) + 1,
                 Distance(a[..i], b[..j - 1]) + (if a[i] == b[j - 1] then 0 else 1))
  {
    assert a[..i + 1][..i] == a[..i] && a[..i + 1][i] == a[i];
    assert b[..j][..j - 1] == b[..j - 1] && b[..j][j - 1] == b[j - 1];
  }

  /** Row `i + 1` of the dynamic program from row `i`. */
  method NextRow(a: string, b: string, i: nat, prev: seq<nat>) returns (cur: seq<nat>)
    requires i < |a| && |prev| == |b| + 1
    requires forall j :: 0 <= j <= |b| ==> prev[j] == Distance(a[..i], b[..j])
    ensures |cur| == |b| + 1
    ensures forall j :: 0 <= j <= |b| ==> cur[j] == Distance(a[..i + 1], b[..j])
  {
    cur := [i + 1];
    var j := 1;
    while j <= |b|
      invariant 1 <= j <= |b| + 1
      invariant |cur| == j
      invariant forall k :: 0 <= k < j ==> cur[k] == Distance(a[..i + 1], b[..k])
    {
      DistanceCell(a, b, i, j);
      var cell := Min3(prev[j] + 1, cur[j - 1] + 1, prev[j - 1] + (if a[i] == b[j - 1] then 0 else 1));
      assert cell == Distance(a[..i + 1], b[..j]);
      cur := cur + [cell];
      j := j + 1;
    }
  }

  /** The dynamic program: row `i` holds the distances from `a[..i]` to
      every prefix of `b`. */
  method Levenshtein(a: string, b: string) returns (d: nat)
    ensures d == Distance(a, b)
  {
    var row: seq<nat> := seq(|b| + 1, j requires 0 <= j <= |b| => j);
    var i := 0;
    while i < |a|
      invariant 0 <= i <= |a|
      invariant |row| == |b| + 1
      invariant forall j :: 0 <= j <= |b| ==> row[j] == Distance(a[..i], b[..j])
    {
      row := NextRow(a, b, i, row);
      i := i + 1;
    }
    assert a[..|a|] == a && b[..|b|] == b;
    d := row[|b|];
  }
}

/** Edit distance over two rows (levenshtein and nearestFlag of src/cli/flag-bridge.ts), against the cheapest
    script of keeps, replacements, removals and additions, and beside the longest common subsequence of Lcs. */
module Levenshtein {
  import opened Lcs
  import opened Options

  // ---------------------------------------------------------------- scripts

  datatype Edit<T> = Keep(item: T) | Replace(before: T, after: T) | Remove(gone: T) | Add(item: T)

  function Source<T>(script: seq<Edit<T>>): seq<T> {
    if script == [] then []
    else
      var last := script[|script| - 1];
      Source(script[..|script| - 1])
      + match last {
        case Keep(x) => [x]
        case Replace(x, _) => [x]
        case Remove(x) => [x]
        case Add(_) => []
      }
  }

  function Target<T>(script: seq<Edit<T>>): seq<T> {
    if script == [] then []
    else
      var last := script[|script| - 1];
      Target(script[..|script| - 1])
      + match last {
        case Keep(x) => [x]
        case Replace(_, y) => [y]
        case Remove(_) => []
        case Add(y) => [y]
      }
  }

  /** Every edit but a keep costs one. */
  function Cost<T>(script: seq<Edit<T>>): nat {
    if script == [] then 0
    else Cost(script[..|script| - 1]) + if script[|script| - 1].Keep? then 0 else 1
  }

  ghost predicate Turns<T>(script: seq<Edit<T>>, a: seq<T>, b: seq<T>) {
    Source(script) == a && Target(script) == b
  }

  // ---------------------------------------------------------------- the recursive distance

  function Least(x: nat, y: nat, z: nat): nat {
    if x <= y && x <= z then x else if y <= z then y else z
  }

  /** The distance between the first i items of a and the first j items of b. */
  function Prefixes<T(==)>(a: seq<T>, b: seq<T>, i: nat, j: nat): nat
    requires i <= |a| && j <= |b|
    decreases i + j
  {
    if i == 0 then j
    else if j == 0 then i
    else Least(
      Prefixes(a, b, i - 1, j) + 1,
      Prefixes(a, b, i, j - 1) + 1,
      Prefixes(a, b, i - 1, j - 1) + if a[i - 1] == b[j - 1] then 0 else 1)
  }

  function Distance<T(==)>(a: seq<T>, b: seq<T>): nat {
    Prefixes(a, b, |a|, |b|)
  }

  // ---------------------------------------------------------------- the recurrence

  /** Away from the borders the recurrence is the least of its three branches. */
  lemma LeastBranch<T>(a: seq<T>, b: seq<T>, i: nat, j: nat)
    requires 0 < i <= |a| && 0 < j <= |b|
    ensures var remove, add, keep := Prefixes(a, b, i - 1, j), Prefixes(a, b, i, j - 1), Prefixes(a, b, i - 1, j - 1);
      var cost := if a[i - 1] == b[j - 1] then 0 else 1;
      && Prefixes(a, b, i, j) <= remove + 1
      && Prefixes(a, b, i, j) <= add + 1
      && Prefixes(a, b, i, j) <= keep + cost
      && (Prefixes(a, b, i, j) == remove + 1 || Prefixes(a, b, i, j) == add + 1 || Prefixes(a, b, i, j) == keep + cost)
  {
  }

  lemma Borders<T>(a: seq<T>, b: seq<T>, i: nat, j: nat)
    requires i <= |a| && j <= |b| && (i == 0 || j == 0)
    ensures Prefixes(a, b, i, j) == i + j
  {
  }

  lemma {:induction false} DistanceBounds<T>(a: seq<T>, b: seq<T>, i: nat, j: nat)
    requires i <= |a| && j <= |b|
    ensures Max(i, j) - Min(i, j) <= Prefixes(a, b, i, j) <= Max(i, j)
    decreases i + j
  {
    hide Prefixes;
    if i == 0 || j == 0 {
      Borders(a, b, i, j);
    } else {
      LeastBranch(a, b, i, j);
      DistanceBounds(a, b, i - 1, j);
      DistanceBounds(a, b, i, j - 1);
      DistanceBounds(a, b, i - 1, j - 1);
    }
  }

  /** No branch is undercut, on the borders either. */
  lemma Branches<T>(a: seq<T>, b: seq<T>, i: nat, j: nat)
    requires i <= |a| && j <= |b|
    ensures i > 0 ==> Prefixes(a, b, i, j) <= Prefixes(a, b, i - 1, j) + 1
    ensures j > 0 ==> Prefixes(a, b, i, j) <= Prefixes(a, b, i, j - 1) + 1
    ensures i > 0 && j > 0 ==>
      Prefixes(a, b, i, j) <= Prefixes(a, b, i - 1, j - 1) + if a[i - 1] == b[j - 1] then 0 else 1
  {
    if i > 0 && j > 0 {
      LeastBranch(a, b, i, j);
    } else if i > 0 {
      DistanceBounds(a, b, i - 1, 0);
    } else if j > 0 {
      DistanceBounds(a, b, 0, j - 1);
    }
  }

  // ---------------------------------------------------------------- the cheapest script

  /** No script from a[..i] to b[..j] costs less than the distance. */
  lemma {:induction false} NoCheaperScript<T>(script: seq<Edit<T>>, a: seq<T>, b: seq<T>, i: nat, j: nat)
    requires i <= |a| && j <= |b| && Turns(script, a[..i], b[..j])
    ensures Prefixes(a, b, i, j) <= Cost(script)
    decreases |script|
  {
    hide Prefixes;
    if script == [] {
      DistanceBounds(a, b, i, j);
    } else {
      var front, last := script[..|script| - 1], script[|script| - 1];
      Branches(a, b, i, j);
      match last {
        case Keep(x) =>
          PrefixEnds(a, i, Source(front), x);
          PrefixEnds(b, j, Target(front), x);
          NoCheaperScript(front, a, b, i - 1, j - 1);
        case Replace(x, y) =>
          PrefixEnds(a, i, Source(front), x);
          PrefixEnds(b, j, Target(front), y);
          NoCheaperScript(front, a, b, i - 1, j - 1);
        case Remove(x) =>
          PrefixEnds(a, i, Source(front), x);
          NoCheaperScript(front, a, b, i - 1, j);
        case Add(y) =>
          PrefixEnds(b, j, Target(front), y);
          NoCheaperScript(front, a, b, i, j - 1);
      }
    }
  }

  lemma PrefixEnds<T>(a: seq<T>, i: nat, front: seq<T>, x: T)
    requires i <= |a| && a[..i] == front + [x]
    ensures i > 0 && a[i - 1] == x && a[..i - 1] == front
  {
    assert |a[..i]| == |front| + 1;
    assert a[..i][i - 1] == x;
    assert a[..i - 1] == a[..i][..i - 1];
  }

  lemma PrefixGrows<T>(a: seq<T>, i: nat)
    requires 0 < i <= |a|
    ensures a[..i] == a[..i - 1] + [a[i - 1]]
  {
  }

  /** Some script reaches the distance. */
  lemma {:induction false} SomeScriptReaches<T>(a: seq<T>, b: seq<T>, i: nat, j: nat) returns (script: seq<Edit<T>>)
    requires i <= |a| && j <= |b|
    ensures Turns(script, a[..i], b[..j]) && Cost(script) == Prefixes(a, b, i, j)
    decreases i + j
  {
    if i == 0 && j == 0 {
      script := [];
    } else if i > 0 && (j == 0 || Prefixes(a, b, i, j) == Prefixes(a, b, i - 1, j) + 1) {
      var front := SomeScriptReaches(a, b, i - 1, j);
      script := front + [Remove(a[i - 1])];
      PrefixGrows(a, i);
    } else if i == 0 || Prefixes(a, b, i, j) == Prefixes(a, b, i, j - 1) + 1 {
      var front := SomeScriptReaches(a, b, i, j - 1);
      script := front + [Add(b[j - 1])];
      PrefixGrows(b, j);
    } else {
      var front := SomeScriptReaches(a, b, i - 1, j - 1);
      script := front + [if a[i - 1] == b[j - 1] then Keep(a[i - 1]) else Replace(a[i - 1], b[j - 1])];
      PrefixGrows(a, i);
      PrefixGrows(b, j);
    }
    assert script != [] ==> script[..|script| - 1] + [script[|script| - 1]] == script;
  }

  /** The distance is the least cost of any script turning a into b. */
  lemma DistanceIsLeastCost<T(!new)>(a: seq<T>, b: seq<T>)
    ensures forall script: seq<Edit<T>> :: Turns(script, a, b) ==> Distance(a, b) <= Cost(script)
    ensures exists script: seq<Edit<T>> :: Turns(script, a, b) && Cost(script) == Distance(a, b)
  {
    assert a[..|a|] == a && b[..|b|] == b;
    forall script: seq<Edit<T>> | Turns(script, a, b)
      ensures Distance(a, b) <= Cost(script)
    {
      NoCheaperScript(script, a, b, |a|, |b|);
    }
    var script := SomeScriptReaches(a, b, |a|, |b|);
  }

  // ---------------------------------------------------------------- a metric

  lemma {:induction false} PrefixesSymmetric<T>(a: seq<T>, b: seq<T>, i: nat, j: nat)
    requires i <= |a| && j <= |b|
    ensures Prefixes(a, b, i, j) == Prefixes(b, a, j, i)
    decreases i + j
  {
    hide Prefixes;
    if i == 0 || j == 0 {
      Borders(a, b, i, j);
      Borders(b, a, j, i);
    } else {
      LeastBranch(a, b, i, j);
      LeastBranch(b, a, j, i);
      PrefixesSymmetric(a, b, i - 1, j);
      PrefixesSymmetric(a, b, i, j - 1);
      PrefixesSymmetric(a, b, i - 1, j - 1);
    }
  }

  lemma {:induction false} TriangleOfPrefixes<T>(a: seq<T>, b: seq<T>, c: seq<T>, i: nat, j: nat, k: nat)
    requires i <= |a| && j <= |b| && k <= |c|
    ensures Prefixes(a, c, i, k) <= Prefixes(a, b, i, j) + Prefixes(b, c, j, k)
    decreases i + j + k
  {
    hide Prefixes;
    if i == 0 || j == 0 || k == 0 {
      DistanceBounds(a, c, i, k);
      DistanceBounds(a, b, i, j);
      DistanceBounds(b, c, j, k);
    } else {
      Branches(a, c, i, k);
      LeastBranch(a, b, i, j);
      LeastBranch(b, c, j, k);
      if Prefixes(a, b, i, j) == Prefixes(a, b, i - 1, j) + 1 {
        TriangleOfPrefixes(a, b, c, i - 1, j, k);
      } else if Prefixes(b, c, j, k) == Prefixes(b, c, j, k - 1) + 1 {
        TriangleOfPrefixes(a, b, c, i, j, k - 1);
      } else if Prefixes(a, b, i, j) == Prefixes(a, b, i, j - 1) + 1 {
        if Prefixes(b, c, j, k) == Prefixes(b, c, j - 1, k) + 1 {
          TriangleOfPrefixes(a, b, c, i, j - 1, k);
        } else {
          TriangleOfPrefixes(a, b, c, i, j - 1, k - 1);
        }
      } else if Prefixes(b, c, j, k) == Prefixes(b, c, j - 1, k) + 1 {
        TriangleOfPrefixes(a, b, c, i - 1, j - 1, k);
      } else {
        TriangleOfPrefixes(a, b, c, i - 1, j - 1, k - 1);
      }
    }
  }

  /** Zero only between equals, symmetric, and no detour is shorter. */
  lemma DistanceIsMetric<T>(a: seq<T>, b: seq<T>, c: seq<T>)
    ensures Distance(a, b) == 0 <==> a == b
    ensures Distance(a, b) == Distance(b, a)
    ensures Distance(a, c) <= Distance(a, b) + Distance(b, c)
  {
    PrefixesSymmetric(a, b, |a|, |b|);
    TriangleOfPrefixes(a, b, c, |a|, |b|, |c|);
    DistanceBetweenLcsBounds(a, b);
    ScoreBound(a, b, |a|, |b|);
    if Distance(a, b) == 0 {
      FullScoreMeansEqual(a, b, |a|);
      assert a[..|a|] == a && b[..|b|] == b;
    }
    if a == b {
      ScoreOfSelf(a, |a|);
    }
  }

  // ---------------------------------------------------------------- beside the LCS

  lemma ScoreTakes<T>(a: seq<T>, b: seq<T>, i: nat, j: nat)
    requires 0 < i <= |a| && 0 < j <= |b|
    ensures Score(a, b, i, j) ==
      if a[i - 1] == b[j - 1] then Score(a, b, i - 1, j - 1) + 1 else Max(Score(a, b, i - 1, j), Score(a, b, i, j - 1))
  {
  }

  lemma {:induction false} PrefixesBetweenScores<T>(a: seq<T>, b: seq<T>, i: nat, j: nat)
    requires i <= |a| && j <= |b|
    ensures Max(i, j) - Score(a, b, i, j) <= Prefixes(a, b, i, j) <= i + j - 2 * Score(a, b, i, j)
    decreases i + j
  {
    hide Prefixes, Score;
    if i == 0 || j == 0 {
      DistanceBounds(a, b, i, j);
      ScoreBound(a, b, i, j);
    } else {
      LeastBranch(a, b, i, j);
      ScoreTakes(a, b, i, j);
      PrefixesBetweenScores(a, b, i - 1, j);
      PrefixesBetweenScores(a, b, i, j - 1);
      PrefixesBetweenScores(a, b, i - 1, j - 1);
      ScoreSteps(a, b, i, j);
      ScoreSteps(a, b, i - 1, j);
    }
  }

  /** The longest common subsequence bounds the distance from both sides. */
  lemma DistanceBetweenLcsBounds<T>(a: seq<T>, b: seq<T>)
    ensures Max(|a|, |b|) - LcsLength(a, b) <= Distance(a, b) <= |a| + |b| - 2 * LcsLength(a, b)
  {
    PrefixesBetweenScores(a, b, |a|, |b|);
  }

  // ---------------------------------------------------------------- two rows

  ghost predicate IsRow<T>(row: array<nat>, a: seq<T>, b: seq<T>, i: nat, upto: nat)
    requires i <= |a|
    reads row
  {
    row.Length == |b| + 1 && upto <= row.Length
    && forall j :: 0 <= j < upto ==> row[j] == Prefixes(a, b, i, j)
  }

  method FillRow<T(==)>(a: seq<T>, b: seq<T>, i: nat, prev: array<nat>, cur: array<nat>)
    requires 0 < i <= |a| && prev != cur
    requires IsRow(prev, a, b, i - 1, |b| + 1) && cur.Length == |b| + 1
    modifies cur
    ensures IsRow(cur, a, b, i, |b| + 1)
  {
    cur[0] := i;
    for j := 1 to |b| + 1
      invariant IsRow(prev, a, b, i - 1, |b| + 1)
      invariant IsRow(cur, a, b, i, j)
    {
      var cost := if a[i - 1] == b[j - 1] then 0 else 1;
      cur[j] := Least(prev[j] + 1, cur[j - 1] + 1, prev[j - 1] + cost);
    }
  }

  method LevenshteinDistance<T(==)>(a: seq<T>, b: seq<T>) returns (distance: nat)
    ensures distance == Distance(a, b)
  {
    var m, n := |a|, |b|;
    if m == 0 {
      return n;
    }
    if n == 0 {
      return m;
    }
    var prev := new nat[n + 1](j => j);
    var cur := new nat[n + 1];
    for i := 1 to m + 1
      invariant prev != cur && fresh(prev) && fresh(cur) && cur.Length == n + 1
      invariant IsRow(prev, a, b, i - 1, n + 1)
    {
      FillRow(a, b, i, prev, cur);
      prev, cur := cur, prev;
    }
    return prev[n];
  }

  // ---------------------------------------------------------------- the nearest flag

  const TOO_FAR := 3

  /** known[k] is the first of the closest candidates. */
  ghost predicate IsFirstClosest(wanted: string, known: seq<string>, k: nat) {
    && k < |known|
    && (forall j :: 0 <= j < |known| ==> Distance(wanted, known[k]) <= Distance(wanted, known[j]))
    && (forall j :: 0 <= j < k ==> Distance(wanted, known[k]) < Distance(wanted, known[j]))
  }

  /** A suggestion exactly when some known flag is within two edits, and then the first closest one. */
  method NearestFlag(wanted: string, known: seq<string>) returns (best: Option<string>)
    ensures best.None? <==> forall k :: 0 <= k < |known| ==> Distance(wanted, known[k]) > 2
    ensures best.Some? ==> exists k: nat :: IsFirstClosest(wanted, known, k) && known[k] == best.value
  {
    best := None;
    var bestDistance := TOO_FAR;
    ghost var at := 0;
    for k := 0 to |known|
      invariant bestDistance <= TOO_FAR && (best.None? <==> bestDistance == TOO_FAR)
      invariant forall j :: 0 <= j < k ==> bestDistance <= Distance(wanted, known[j])
      invariant best.Some? ==> at < k && known[at] == best.value && Distance(wanted, known[at]) == bestDistance
      invariant best.Some? ==> forall j :: 0 <= j < at ==> bestDistance < Distance(wanted, known[j])
    {
      var d := LevenshteinDistance(wanted, known[k]);
      if d < bestDistance {
        bestDistance := d;
        best := Some(known[k]);
        at := k;
      }
    }
    if best.Some? {
      assert IsFirstClosest(wanted, known, at);
    }
    best := if bestDistance <= 2 then best else None;
  }
}

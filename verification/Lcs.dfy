/** The longest-common-subsequence theory behind the diff engine, and the two programs that
    compute it: the packed table of src/cache/lcs.ts and the two-row form of
    benchmarks/extraction/tokenizer.ts. */
module Lcs {

  // ---------------------------------------------------------------- theory

  function Max(x: int, y: int): int { if x >= y then x else y }

  function Min(x: int, y: int): int { if x <= y then x else y }

  /** The recurrence: the score of the prefixes a[..i] and b[..j]. */
  function Score<T(==)>(a: seq<T>, b: seq<T>, i: nat, j: nat): nat
    requires i <= |a| && j <= |b|
  {
    if i == 0 || j == 0 then 0
    else if a[i - 1] == b[j - 1] then Score(a, b, i - 1, j - 1) + 1
    else Max(Score(a, b, i - 1, j), Score(a, b, i, j - 1))
  }

  function LcsLength<T(==)>(a: seq<T>, b: seq<T>): nat {
    Score(a, b, |a|, |b|)
  }

  /** `at` lists strictly increasing positions of `a`, below `bound`, at which `c` is read off. */
  ghost predicate Embeds<T>(c: seq<T>, a: seq<T>, bound: nat, at: seq<nat>) {
    && |at| == |c|
    && bound <= |a|
    && (forall k :: 0 <= k < |at| ==> at[k] < bound && a[at[k]] == c[k])
    && (forall k, l :: 0 <= k < l < |at| ==> at[k] < at[l])
  }

  /** `c` is a subsequence of both `a` and `b`. */
  ghost predicate Common<T>(c: seq<T>, a: seq<T>, b: seq<T>) {
    && (exists p :: Embeds(c, a, |a|, p))
    && (exists q :: Embeds(c, b, |b|, q))
  }

  /** One more element on either side raises the score by at most one and never lowers it. */
  lemma {:induction false} ScoreSteps<T>(a: seq<T>, b: seq<T>, i: nat, j: nat)
    requires i <= |a| && j <= |b|
    ensures i > 0 ==> Score(a, b, i - 1, j) <= Score(a, b, i, j) <= Score(a, b, i - 1, j) + 1
    ensures j > 0 ==> Score(a, b, i, j - 1) <= Score(a, b, i, j) <= Score(a, b, i, j - 1) + 1
    decreases i + j
  {
    if i > 0 && j > 0 {
      ScoreSteps(a, b, i - 1, j);
      ScoreSteps(a, b, i, j - 1);
    }
  }

  /** No cell exceeds the shorter prefix, which is why 32 bits never wrap. */
  lemma {:induction false} ScoreBound<T>(a: seq<T>, b: seq<T>, i: nat, j: nat)
    requires i <= |a| && j <= |b|
    ensures Score(a, b, i, j) <= Min(i, j)
    decreases i + j
  {
    if i > 0 && j > 0 {
      ScoreBound(a, b, i - 1, j - 1);
      ScoreSteps(a, b, i - 1, j);
      ScoreSteps(a, b, i, j - 1);
    }
  }

  lemma {:induction false} ScoreSymmetric<T>(a: seq<T>, b: seq<T>, i: nat, j: nat)
    requires i <= |a| && j <= |b|
    ensures Score(a, b, i, j) == Score(b, a, j, i)
    decreases i + j
  {
    if i > 0 && j > 0 {
      ScoreSymmetric(a, b, i - 1, j - 1);
      ScoreSymmetric(a, b, i - 1, j);
      ScoreSymmetric(a, b, i, j - 1);
    }
  }

  lemma {:induction false} NoLongerCommon<T>(a: seq<T>, b: seq<T>, i: nat, j: nat, c: seq<T>, p: seq<nat>, q: seq<nat>)
    requires i <= |a| && j <= |b|
    requires Embeds(c, a, i, p) && Embeds(c, b, j, q)
    ensures |c| <= Score(a, b, i, j)
    decreases i + j
  {
    if c != [] {
      var last := |c| - 1;
      ScoreSteps(a, b, i, j);
      if p[last] < i - 1 {
        NoLongerCommon(a, b, i - 1, j, c, p, q);
      } else if q[last] < j - 1 {
        NoLongerCommon(a, b, i, j - 1, c, p, q);
      } else {
        NoLongerCommon(a, b, i - 1, j - 1, c[..last], p[..last], q[..last]);
      }
    }
  }

  lemma {:induction false} ScoreReached<T>(a: seq<T>, b: seq<T>, i: nat, j: nat)
    returns (c: seq<T>, p: seq<nat>, q: seq<nat>)
    requires i <= |a| && j <= |b|
    ensures |c| == Score(a, b, i, j)
    ensures Embeds(c, a, i, p) && Embeds(c, b, j, q)
    decreases i + j
  {
    if i == 0 || j == 0 {
      c, p, q := [], [], [];
    } else if a[i - 1] == b[j - 1] {
      c, p, q := ScoreReached(a, b, i - 1, j - 1);
      c, p, q := c + [a[i - 1]], p + [i - 1], q + [j - 1];
    } else if Score(a, b, i - 1, j) >= Score(a, b, i, j - 1) {
      c, p, q := ScoreReached(a, b, i - 1, j);
    } else {
      c, p, q := ScoreReached(a, b, i, j - 1);
    }
  }

  /** The recurrence is the length of a longest common subsequence: one of that length exists
      and none is longer. */
  lemma LcsLengthIsLongest<T(!new)>(a: seq<T>, b: seq<T>)
    ensures exists c: seq<T> :: Common(c, a, b) && |c| == LcsLength(a, b)
    ensures forall c: seq<T> :: Common(c, a, b) ==> |c| <= LcsLength(a, b)
  {
    var c, p, q := ScoreReached(a, b, |a|, |b|);
    assert Common(c, a, b);
    forall d: seq<T> | Common(d, a, b)
      ensures |d| <= LcsLength(a, b)
    {
      var p :| Embeds(d, a, |a|, p);
      var q :| Embeds(d, b, |b|, q);
      NoLongerCommon(a, b, |a|, |b|, d, p, q);
    }
  }

  lemma {:induction false} ScoreOfSelf<T>(a: seq<T>, i: nat)
    requires i <= |a|
    ensures Score(a, a, i, i) == i
  {
    if i > 0 {
      ScoreOfSelf(a, i - 1);
    }
  }

  /** Only equal sequences share a common subsequence as long as both. */
  lemma {:induction false} FullScoreMeansEqual<T>(a: seq<T>, b: seq<T>, i: nat)
    requires i <= |a| && i <= |b|
    requires Score(a, b, i, i) == i
    ensures a[..i] == b[..i]
  {
    if i > 0 {
      ScoreBound(a, b, i - 1, i);
      ScoreBound(a, b, i, i - 1);
      FullScoreMeansEqual(a, b, i - 1);
      assert a[..i] == a[..i - 1] + [a[i - 1]];
      assert b[..i] == b[..i - 1] + [b[i - 1]];
    }
  }

  // ---------------------------------------------------------------- packed table

  const TWO_TO_THE_32: int := 0x1_0000_0000

  /** An element of a `Uint32Array`. */
  type Uint32 = x: int | 0 <= x < TWO_TO_THE_32

  /** Storing into a `Uint32Array` keeps the value modulo 2^32. */
  function ToUint32(x: int): Uint32 {
    x % TWO_TO_THE_32
  }

  /** A JavaScript array has fewer than 2^32 elements. */
  ghost predicate ArrayLike<T>(a: seq<T>) {
    |a| < TWO_TO_THE_32
  }

  function MaxCell(up: Uint32, left: Uint32): Uint32 {
    if up >= left then up else left
  }

  /** Row-major position of cell (i, j): i whole rows, then j. */
  function Cell(i: nat, j: nat, stride: nat): nat {
    if i == 0 then j else Cell(i - 1, j, stride) + stride
  }

  lemma {:induction false} CellIsRowMajor(i: nat, j: nat, stride: nat)
    ensures Cell(i, j, stride) == i * stride + j
  {
    if i > 0 {
      CellIsRowMajor(i - 1, j, stride);
      assert i * stride == (i - 1) * stride + stride;
    }
  }

  lemma {:induction false} CellShift(i: nat, j: nat, stride: nat)
    ensures Cell(i, j, stride) == Cell(i, 0, stride) + j
  {
    if i > 0 {
      CellShift(i - 1, j, stride);
    }
  }

  /** The four cells that one step of the inner loop touches. */
  lemma CellOffsets(i: nat, j: nat, stride: nat, rowBase: int)
    requires i >= 1 && j >= 1 && rowBase == Cell(i, 0, stride)
    ensures Cell(i, j, stride) == rowBase + j
    ensures Cell(i, j - 1, stride) == rowBase + (j - 1)
    ensures Cell(i - 1, j, stride) == (rowBase - stride) + j
    ensures Cell(i - 1, j - 1, stride) == (rowBase - stride) + (j - 1)
  {
    CellShift(i, j, stride);
    CellShift(i, j - 1, stride);
  }

  lemma {:induction false} CellOrder(i: nat, j: nat, r: nat, c: nat, stride: nat)
    requires i < r && j < stride
    ensures Cell(i, j, stride) < Cell(r, c, stride)
  {
    if i == 0 {
      CellIsRowMajor(r - 1, c, stride);
    } else {
      CellOrder(i - 1, j, r - 1, c, stride);
    }
  }

  /** Distinct cells never share a position. */
  lemma {:induction false} CellsDistinct(i: nat, j: nat, r: nat, c: nat, stride: nat)
    requires j < stride && c < stride
    requires (i, j) != (r, c)
    ensures Cell(i, j, stride) != Cell(r, c, stride)
  {
    if i < r {
      CellOrder(i, j, r, c, stride);
    } else if r < i {
      CellOrder(r, c, i, j, stride);
    } else {
      CellIsRowMajor(i, j, stride);
      CellIsRowMajor(r, c, stride);
    }
  }

  /** Cell (i, j) of the table holds the score of the two prefixes, for every i and j. */
  ghost predicate IsLcsTable<T>(dp: seq<Uint32>, stride: nat, a: seq<T>, b: seq<T>) {
    && stride == |b| + 1
    && |dp| == Cell(|a| + 1, 0, stride)
    && forall i: nat, j: nat :: i <= |a| && j <= |b| ==>
         Cell(i, j, stride) < |dp| && dp[Cell(i, j, stride)] == Score(a, b, i, j)
  }

  /** The cells before (i, j) in row-major order hold their score, and every later one is still zero. */
  ghost predicate FilledUpTo<T>(dp: seq<Uint32>, stride: nat, a: seq<T>, b: seq<T>, i: nat, j: nat) {
    && stride == |b| + 1
    && |dp| == Cell(|a| + 1, 0, stride)
    && forall r: nat, c: nat :: r <= |a| && c <= |b| ==>
         && Cell(r, c, stride) < |dp|
         && dp[Cell(r, c, stride)] == (if r < i || (r == i && c < j) then Score(a, b, r, c) else 0)
  }

  lemma FreshTable<T>(dp: seq<Uint32>, stride: nat, a: seq<T>, b: seq<T>)
    requires stride == |b| + 1
    requires |dp| == Cell(|a| + 1, 0, stride)
    requires forall k :: 0 <= k < |dp| ==> dp[k] == 0
    ensures FilledUpTo(dp, stride, a, b, 1, 0)
  {
    forall r: nat, c: nat | r <= |a| && c <= |b|
      ensures Cell(r, c, stride) < |dp|
              && dp[Cell(r, c, stride)] == (if r < 1 then Score(a, b, r, c) else 0)
    {
      CellOrder(r, c, |a| + 1, 0, stride);
    }
  }

  /** Column 0 is all zeros, so a pass may start at column 1. */
  lemma SkipColumnZero<T>(dp: seq<Uint32>, stride: nat, a: seq<T>, b: seq<T>, i: nat)
    requires i <= |a|
    requires FilledUpTo(dp, stride, a, b, i, 0)
    ensures FilledUpTo(dp, stride, a, b, i, 1)
  {
  }

  lemma StoreCell<T>(dp: seq<Uint32>, stride: nat, a: seq<T>, b: seq<T>, i: nat, j: nat, value: Uint32)
    requires i <= |a| && j <= |b|
    requires FilledUpTo(dp, stride, a, b, i, j)
    requires value == Score(a, b, i, j)
    ensures Cell(i, j, stride) < |dp|
    ensures FilledUpTo(dp[Cell(i, j, stride) := value], stride, a, b, i, j + 1)
  {
    var stored := dp[Cell(i, j, stride) := value];
    forall r: nat, c: nat | r <= |a| && c <= |b|
      ensures && Cell(r, c, stride) < |stored|
              && stored[Cell(r, c, stride)]
                 == (if r < i || (r == i && c < j + 1) then Score(a, b, r, c) else 0)
    {
      if (i, j) != (r, c) {
        CellsDistinct(i, j, r, c, stride);
      }
    }
  }

  lemma Neighbours<T>(dp: seq<Uint32>, stride: nat, a: seq<T>, b: seq<T>, i: nat, j: nat)
    requires 1 <= i <= |a| && 1 <= j <= |b|
    requires FilledUpTo(dp, stride, a, b, i, j)
    ensures Cell(i - 1, j - 1, stride) < |dp| && dp[Cell(i - 1, j - 1, stride)] == Score(a, b, i - 1, j - 1)
    ensures Cell(i - 1, j, stride) < |dp| && dp[Cell(i - 1, j, stride)] == Score(a, b, i - 1, j)
    ensures Cell(i, j - 1, stride) < |dp| && dp[Cell(i, j - 1, stride)] == Score(a, b, i, j - 1)
  {
  }

  /** Where the next cell and its three neighbours are, and what the next cell must receive. */
  lemma NextCell<T>(dp: seq<Uint32>, stride: nat, a: seq<T>, b: seq<T>, i: nat, j: nat, rowBase: int)
    requires 1 <= i <= |a| && 1 <= j <= |b|
    requires FilledUpTo(dp, stride, a, b, i, j)
    requires ArrayLike(a)
    requires rowBase == Cell(i, 0, stride)
    ensures 0 <= rowBase - stride && rowBase + j < |dp|
    ensures a[i - 1] == b[j - 1] ==>
              FilledUpTo(dp[rowBase + j := ToUint32(dp[rowBase - stride + (j - 1)] as int + 1)], stride, a, b, i, j + 1)
    ensures a[i - 1] != b[j - 1] ==>
              FilledUpTo(dp[rowBase + j := MaxCell(dp[rowBase - stride + j], dp[rowBase + (j - 1)])], stride, a, b, i, j + 1)
  {
    CellOffsets(i, j, stride, rowBase);
    ScoreBound(a, b, i, j);
    StoreCell(dp, stride, a, b, i, j, Score(a, b, i, j));
    Neighbours(dp, stride, a, b, i, j);
    hide FilledUpTo, Cell;
  }

  method ComputeLcsTable<T(==)>(oldLines: seq<T>, newLines: seq<T>) returns (dp: array<Uint32>)
    requires ArrayLike(oldLines) && ArrayLike(newLines)
    ensures fresh(dp)
    ensures IsLcsTable(dp[..], |newLines| + 1, oldLines, newLines)
  {
    var m, n := |oldLines|, |newLines|;
    var stride := n + 1;
    CellIsRowMajor(m + 1, 0, stride);
    dp := new Uint32[(m + 1) * stride](_ => 0);
    FreshTable(dp[..], stride, oldLines, newLines);
    for i := 1 to m + 1
      invariant FilledUpTo(dp[..], |newLines| + 1, oldLines, newLines, i, 0)
    {
      SkipColumnZero(dp[..], stride, oldLines, newLines, i);
      FillRow(oldLines, newLines, dp, i);
      assert FilledUpTo(dp[..], stride, oldLines, newLines, i + 1, 0);
    }
  }

  /** One pass of the inner loop. */
  method FillRow<T(==)>(oldLines: seq<T>, newLines: seq<T>, dp: array<Uint32>, i: nat)
    requires ArrayLike(oldLines) && ArrayLike(newLines)
    requires 1 <= i <= |oldLines|
    requires FilledUpTo(dp[..], |newLines| + 1, oldLines, newLines, i, 1)
    modifies dp
    ensures FilledUpTo(dp[..], |newLines| + 1, oldLines, newLines, i, |newLines| + 1)
  {
    hide FilledUpTo, Score;
    var n := |newLines|;
    var stride := n + 1;
    var oi := oldLines[i - 1];
    var rowBase := i * stride;
    var prevRowBase := rowBase - stride;
    CellIsRowMajor(i, 0, stride);
    for j := 1 to n + 1
      invariant FilledUpTo(dp[..], stride, oldLines, newLines, i, j)
    {
      NextCell(dp[..], stride, oldLines, newLines, i, j, rowBase);
      ghost var before := dp[..];
      if oi == newLines[j - 1] {
        dp[rowBase + j] := ToUint32(dp[prevRowBase + (j - 1)] as int + 1);
        assert dp[..] == before[rowBase + j := ToUint32(before[prevRowBase + (j - 1)] as int + 1)];
      } else {
        var up := dp[prevRowBase + j];
        var left := dp[rowBase + (j - 1)];
        dp[rowBase + j] := if up >= left then up else left;
        assert dp[..] == before[rowBase + j := MaxCell(up, left)];
      }
    }
  }

  // ---------------------------------------------------------------- two rows

  /** `row` holds the first `upto` scores of row i. */
  ghost predicate IsRow<T>(row: array<nat>, a: seq<T>, b: seq<T>, i: nat, upto: nat)
    requires i <= |a|
    reads row
  {
    && row.Length == |b| + 1
    && forall c: nat :: c < upto && c <= |b| ==> row[c] == Score(a, b, i, c)
  }

  ghost predicate AllZero(row: array<nat>)
    reads row
  {
    forall c :: 0 <= c < row.Length ==> row[c] == 0
  }

  /** Two rows that are swapped after every pass, the stale one refilled with zeros. */
  method LongestCommonSubsequence<T(==)>(a: seq<T>, b: seq<T>) returns (length: nat)
    ensures length == LcsLength(a, b)
  {
    if |a| == 0 || |b| == 0 {
      return 0;
    }
    var m, n := |a|, |b|;
    var prev: array<nat> := new nat[n + 1](_ => 0);
    var curr: array<nat> := new nat[n + 1](_ => 0);
    for i := 1 to m + 1
      invariant prev != curr && fresh(prev) && fresh(curr)
      invariant IsRow(prev, a, b, i - 1, n + 1)
      invariant curr.Length == n + 1 && AllZero(curr)
    {
      for j := 1 to n + 1
        invariant IsRow(prev, a, b, i - 1, n + 1)
        invariant IsRow(curr, a, b, i, j)
      {
        if a[i - 1] == b[j - 1] {
          curr[j] := prev[j - 1] + 1;
        } else {
          curr[j] := Max(prev[j], curr[j - 1]);
        }
      }
      prev, curr := curr, prev;
      forall c | 0 <= c < curr.Length {
        curr[c] := 0;
      }
    }
    length := prev[n];
  }
}

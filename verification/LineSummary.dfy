/** The counts both diff modules report for two line lists: the engine's per-run counts, the totals of
    src/cache/diff-summary.ts, and the approximation used above the line cap. */
module LineSummary {
  import opened EditScript
  import opened Lcs
  import LineText

  datatype DiffSummary = DiffSummary(addedLines: nat, removedLines: nat, modifiedLines: nat, totalChangedChars: nat)

  function Length(line: string): nat { |line| }

  // ---------------------------------------------------------------- the engine

  /** What the engine reports for two line lists under the cap. */
  function Exact(a: seq<string>, b: seq<string>): DiffSummary {
    var script := LcsScript(a, b);
    var c := RunCounts(Runs(script));
    DiffSummary(c.added, c.removed, c.modified, ChangedSize(script, Length))
  }

  method Summarize(ops: seq<EditOp<string>>, ghost a: seq<string>, ghost b: seq<string>) returns (summary: DiffSummary)
    requires ops == LcsScript(a, b)
    ensures summary == Exact(a, b)
  {
    var counts := CountsFromOps(ops);
    var total := ChangedCharsFromOps(ops, Length);
    summary := DiffSummary(counts.added, counts.removed, counts.modified, total);
  }

  method CharLen(lines: seq<string>) returns (total: nat)
    ensures total == Total(lines, Length)
  {
    total := 0;
    for k := 0 to |lines|
      invariant total + Total(lines[k..], Length) == Total(lines, Length)
    {
      assert lines[k..][1..] == lines[k + 1..];
      total := total + |lines[k]|;
    }
  }

  // ---------------------------------------------------------------- above the cap

  /** What is reported instead when the lists are too long to compare. */
  function Approximate(a: seq<string>, b: seq<string>): DiffSummary {
    var overlap := Min(|a|, |b|);
    DiffSummary(|b| - overlap, |a| - overlap, overlap, Total(a, Length) + Total(b, Length))
  }

  method ApproximateSummaryForTruncated(oldLines: seq<string>, newLines: seq<string>) returns (summary: DiffSummary)
    ensures summary == Approximate(oldLines, newLines)
  {
    var m, n := |oldLines|, |newLines|;
    var oldChars := CharLen(oldLines);
    var newChars := CharLen(newLines);
    if m == 0 {
      return DiffSummary(n, 0, 0, newChars);
    }
    if n == 0 {
      return DiffSummary(0, m, 0, oldChars);
    }
    var overlap := Min(m, n);
    var modified := overlap;
    var added := Max(0, n - overlap);
    var removed := Max(0, m - overlap);
    summary := DiffSummary(added, removed, modified, oldChars + newChars);
  }

  // ---------------------------------------------------------------- diff-summary.ts

  /** Totals only: everything outside a longest common subsequence, paired up as far as possible. */
  function TotalCounts(a: seq<string>, b: seq<string>): Counts {
    ScoreBound(a, b, |a|, |b|);
    var removed, added := |a| - LcsLength(a, b), |b| - LcsLength(a, b);
    var modified := Min(removed, added);
    Counts(added - modified, removed - modified, modified)
  }

  method ComputeDiffCounts(oldLines: seq<string>, newLines: seq<string>) returns (counts: Counts)
    requires ArrayLike(oldLines) && ArrayLike(newLines)
    ensures counts == TotalCounts(oldLines, newLines)
  {
    var m, n := |oldLines|, |newLines|;
    if m == 0 && n == 0 {
      return Counts(0, 0, 0);
    }
    if m == 0 {
      return Counts(n, 0, 0);
    }
    if n == 0 {
      return Counts(0, m, 0);
    }
    var dp := ComputeLcsTable(oldLines, newLines);
    var stride := n + 1;
    LastCell(dp[..], stride, oldLines, newLines);
    ScoreBound(oldLines, newLines, m, n);
    var lcsLength := dp[m * stride + n];
    var removed := m - lcsLength;
    var added := n - lcsLength;
    var modified := 0;
    var pairable := Min(removed, added);
    if pairable > 0 {
      modified := pairable;
    }
    counts := Counts(added - modified, removed - modified, modified);
  }

  lemma LastCell(dp: seq<Uint32>, stride: nat, a: seq<string>, b: seq<string>)
    requires IsLcsTable(dp, stride, a, b)
    ensures 0 <= |a| * stride + |b| < |dp|
    ensures dp[|a| * stride + |b|] == LcsLength(a, b)
  {
    CellIsRowMajor(|a|, |b|, stride);
  }

  // ---------------------------------------------------------------- the counts compared

  /** Every path keeps added - removed equal to the growth of the file, and all three agree on what is
      added or modified and what is removed or modified where they run the comparison. */
  lemma SummariesAccount(a: seq<string>, b: seq<string>)
    ensures var e, t, p := Exact(a, b), TotalCounts(a, b), Approximate(a, b);
      && e.addedLines - e.removedLines == t.added - t.removed == p.addedLines - p.removedLines == |b| - |a|
      && e.addedLines + e.modifiedLines == t.added + t.modified == |b| - LcsLength(a, b)
      && e.removedLines + e.modifiedLines == t.removed + t.modified == |a| - LcsLength(a, b)
      && p.addedLines + p.modifiedLines == |b| && p.removedLines + p.modifiedLines == |a|
      && (t.added == 0 || t.removed == 0) && (p.addedLines == 0 || p.removedLines == 0)
  {
    LineAccounting(a, b);
    ScoreBound(a, b, |a|, |b|);
  }

  /** The engine pairs changes run by run, the summary over the whole file: the engine never pairs more, and
      they report the same counts exactly when no run grows or no run shrinks. */
  lemma SummariesCompared(a: seq<string>, b: seq<string>)
    ensures var e, t, runs := Exact(a, b), TotalCounts(a, b), Runs(LcsScript(a, b));
      && e.modifiedLines <= t.modified
      && (Counts(e.addedLines, e.removedLines, e.modifiedLines) == t <==> NoneGrows(runs) || NoneShrinks(runs))
      && (t == Counts(0, 0, 0) <==> a == b)
      && (e == DiffSummary(0, 0, 0, 0) <==> a == b)
  {
    hide NoneGrows, NoneShrinks;
    SummariesAccount(a, b);
    LineAccounting(a, b);
    PureCounts(Runs(LcsScript(a, b)));
    if a == b {
      LcsScriptIsMinimal(a, b);
      CharactersConserve(LcsScript(a, b), Length);
      EqualKeepsAll(LcsScript(a, b));
    }
  }

  const MOVED_FROM := ["x", "k"]

  const MOVED_TO := ["k", "y"]

  /** One line gone above a kept line and one new below it: the engine reports an addition and a removal,
      the summary one modification, and the approximation neither an addition nor a removal. */
  lemma CountsDisagree()
    ensures Exact(MOVED_FROM, MOVED_TO) == DiffSummary(1, 1, 0, 2)
    ensures TotalCounts(MOVED_FROM, MOVED_TO) == Counts(0, 0, 1)
    ensures Approximate(MOVED_FROM, MOVED_TO) == DiffSummary(0, 0, 2, 4)
  {
    var a, b := MOVED_FROM, MOVED_TO;
    assert a[0] != b[0] && a[1] == b[0] && a[0] != b[1] && a[1] != b[1];
    assert Score(a, b, 1, 1) == 0 && Score(a, b, 2, 1) == 1 && Score(a, b, 1, 2) == 0 && Score(a, b, 2, 2) == 1;
    var script := [Delete("x"), Equal("k", "k"), Insert("y")];
    assert Backtrack(a, b, 1, 0) == [] + [Delete("x")];
    assert Backtrack(a, b, 2, 1) == [Delete("x")] + [Equal("k", "k")];
    assert Backtrack(a, b, 2, 2) == [Delete("x")] + [Equal("k", "k")] + [Insert("y")];
    assert LcsScript(a, b) == script;
    assert script[1..] == [Equal("k", "k"), Insert("y")] && script[1..][1..] == [Insert("y")] && script[1..][1..][1..] == [];
    var last: seq<EditOp<string>> := [Insert("y")];
    assert last[1..] == [] && [] + ["y"] == ["y"] && [] + ["x"] == ["x"];
    assert RunsFrom(last, [], []) == [Run([], ["y"])];
    assert RunsFrom(script[1..], ["x"], []) == [Run(["x"], [])] + [Run([], ["y"])];
    var runs := [Run(["x"], []), Run([], ["y"])];
    assert Runs(script) == RunsFrom(script[1..], ["x"], []) == runs;
    assert runs[1..] == [Run([], ["y"])] && runs[1..][1..] == [];
    assert a[1..] == ["k"] && b[1..] == ["y"] && a[1..][1..] == [] && b[1..][1..] == [];
  }

  /** A script without changes keeps every character. */
  lemma {:induction false} EqualKeepsAll(ops: seq<EditOp<string>>)
    requires |OldOf(ops)| == |NewOf(ops)| == EqualCount(ops)
    ensures ChangedSize(ops, Length) == 0
  {
    if ops != [] {
      ScriptLengths(ops[1..]);
      EqualKeepsAll(ops[1..]);
    }
  }

  /** The characters of a list of lines, line breaks not counted. */
  function CharactersOf(lines: seq<string>): int {
    if lines == [] then 0 else |LineText.Join(lines)| - (|lines| - 1)
  }

  lemma {:induction false} TotalIsText(lines: seq<string>)
    ensures Total(lines, Length) == CharactersOf(lines)
  {
    if |lines| > 1 {
      TotalIsText(lines[1..]);
    } else if |lines| == 1 {
      assert lines[1..] == [];
    }
  }

  /** The approximation counts every character of both lists, and the comparison all but those of the kept lines on
      both sides. */
  lemma CharactersCounted(a: seq<string>, b: seq<string>)
    ensures var e, p := Exact(a, b), Approximate(a, b);
      && p.totalChangedChars == CharactersOf(a) + CharactersOf(b)
      && e.totalChangedChars == p.totalChangedChars - 2 * KeptSize(LcsScript(a, b), Length)
  {
    TotalIsText(a);
    TotalIsText(b);
    LcsScriptIsMinimal(a, b);
    CharactersConserve(LcsScript(a, b), Length);
  }

  /** The approximation never understates the changed characters, the modified lines, or on either side the
      lines added, removed and modified together. */
  lemma ApproximationIsUpperBound(a: seq<string>, b: seq<string>)
    ensures var e, p := Exact(a, b), Approximate(a, b);
      && e.totalChangedChars <= p.totalChangedChars
      && e.modifiedLines <= p.modifiedLines
      && e.addedLines + e.modifiedLines <= p.addedLines + p.modifiedLines
      && e.removedLines + e.modifiedLines <= p.removedLines + p.modifiedLines
  {
    SummariesAccount(a, b);
    LcsScriptIsMinimal(a, b);
    CharactersConserve(LcsScript(a, b), Length);
  }

  /** Added lines alone, and removed lines alone, are understated exactly when some run of the real comparison
      grows and some other run shrinks. */
  lemma ApproximationUnderstatesExactly(a: seq<string>, b: seq<string>)
    ensures var e, p, runs := Exact(a, b), Approximate(a, b), Runs(LcsScript(a, b));
      && (p.addedLines < e.addedLines <==> !NoneGrows(runs) && !NoneShrinks(runs))
      && (p.removedLines < e.removedLines <==> !NoneGrows(runs) && !NoneShrinks(runs))
  {
    hide NoneGrows, NoneShrinks;
    SummariesAccount(a, b);
    PureCounts(Runs(LcsScript(a, b)));
  }
}

/** The entry points of src/cache/diff-engine.ts: the unified diff, the hunks at three granularities
    and the envelope around them. */
module DiffEngine {
  import opened ChangeHunks
  import opened EditScript
  import opened HunkGrouping
  import opened Lcs
  import opened LineSummary
  import opened LineText
  import opened Options
  import opened PatchText
  import opened Sections
  import opened UnifiedPatch

  const DIFF_TOKEN_CAP: nat := 50_000

  datatype UnifiedDiffResult = UnifiedDiffResult(diff: string, truncated: bool, summary: DiffSummary)

  /** The script the engine renders: minimal, normalized, still turning the old lines into the new. */
  lemma NormalScript(a: seq<string>, b: seq<string>)
    ensures IsScript(Normal(LcsScript(a, b)), a, b)
  {
    LcsScriptIsMinimal(a, b);
    NormalIsAReordering(LcsScript(a, b));
  }

  /** The text prints the normalized minimal script; equal lines have no text. */
  ghost predicate PrintsMinimal(diff: string, a: seq<string>, b: seq<string>) {
    if a == b then diff == "" else Renders(Normal(LcsScript(a, b)), diff)
  }

  /** Under the cap the diff text is a patch: read back and applied to the old lines it gives the new
      lines, and in reverse the old ones. It is empty exactly when nothing changed or nothing was compared. */
  method ComputeUnifiedDiff(oldText: string, newText: string) returns (r: UnifiedDiffResult)
    ensures r.truncated == OverCap(LinesOf(oldText), LinesOf(newText))
    ensures r.summary == BodySummary(oldText, newText)
    ensures r.diff == "" <==> r.truncated || LinesOf(oldText) == LinesOf(newText)
    ensures !r.truncated ==> ApplyPatch(r.diff, LinesOf(oldText)) == Some(LinesOf(newText))
    ensures !r.truncated ==> ApplyPatchReverse(r.diff, LinesOf(newText)) == Some(LinesOf(oldText))
    ensures !r.truncated ==> PrintsMinimal(r.diff, LinesOf(oldText), LinesOf(newText))
  {
    hide LinesOf, Exact, ReadPatch, Apply, Normal, LcsScript, AllPlain, Renders;
    var oldLines := SplitLines(oldText);
    var newLines := SplitLines(newText);
    if |oldLines| > DIFF_LINE_CAP || |newLines| > DIFF_LINE_CAP {
      var approximate := ApproximateSummaryForTruncated(oldLines, newLines);
      return UnifiedDiffResult("", true, approximate);
    }
    var ops := BuildEditScript(oldLines, newLines);
    var summary := Summarize(ops, oldLines, newLines);
    ExactZero(oldLines, newLines);
    if summary.addedLines == 0 && summary.removedLines == 0 && summary.modifiedLines == 0 {
      EmptyPatch(oldLines);
      return UnifiedDiffResult("", false, summary);
    }
    var normalized := NormalizeEditOrder(ops);
    var diff := RenderUnifiedDiff(normalized);
    NormalScript(oldLines, newLines);
    LinesArePlain(oldText);
    LinesArePlain(newText);
    PatchTextRoundTrip(normalized, diff);
    r := UnifiedDiffResult(diff, false, summary);
  }

  lemma ExactZero(a: seq<string>, b: seq<string>)
    ensures var e := Exact(a, b);
      e.addedLines == 0 && e.removedLines == 0 && e.modifiedLines == 0 <==> a == b
  {
    LineAccounting(a, b);
  }

  lemma EmptyPatch(lines: seq<string>)
    ensures ApplyPatch("", lines) == Some(lines) && ApplyPatchReverse("", lines) == Some(lines)
  {
    assert lines[0..] == lines;
  }

  // ---------------------------------------------------------------- hunks

  datatype Granularity = ByLine | ByWord | BySection

  datatype HunksResult = HunksResult(hunks: seq<DiffHunk>, truncated: bool, summary: DiffSummary)

  function LineResult(oldText: string, newText: string): HunksResult {
    var a, b := LinesOf(oldText), LinesOf(newText);
    HunksResult(LineHunksOf(Runs(LcsScript(a, b))), false, Exact(a, b))
  }

  /** Word hunks with the line summary; too many tokens degrade to line hunks, marked as truncated. */
  function WordResult(oldText: string, newText: string, isSpace: char -> bool): HunksResult {
    var oldTokens, newTokens := TokenizeWords(oldText, isSpace), TokenizeWords(newText, isSpace);
    if |oldTokens| > DIFF_TOKEN_CAP || |newTokens| > DIFF_TOKEN_CAP then LineResult(oldText, newText).(truncated := true)
    else HunksResult(WordHunksOf(Runs(LcsScript(oldTokens, newTokens)), isSpace), false,
                     Exact(LinesOf(oldText), LinesOf(newText)))
  }

  function SectionResult(oldText: string, newText: string, heading: Heading): HunksResult {
    var olds, news := SectionsOf(oldText, heading), SectionsOf(newText, heading);
    var report := SectionReport(olds, news, |news|);
    HunksResult(report.hunks, false, report.summary)
  }

  function HunksFor(oldText: string, newText: string, granularity: Granularity, heading: Heading, isSpace: char -> bool): HunksResult {
    var a, b := LinesOf(oldText), LinesOf(newText);
    if OverCap(a, b) then HunksResult([], true, Approximate(a, b))
    else match granularity
      case BySection => SectionResult(oldText, newText, heading)
      case ByWord => WordResult(oldText, newText, isSpace)
      case ByLine => LineResult(oldText, newText)
  }

  method ComputeWordHunks(oldText: string, newText: string, isSpace: char -> bool) returns (r: HunksResult)
    requires !OverCap(LinesOf(oldText), LinesOf(newText))
    ensures r == WordResult(oldText, newText, isSpace)
  {
    hide LinesOf, TokenizeWords, Exact, LcsScript, LineHunksOf, WordHunksOf, Runs;
    var oldLines := SplitLines(oldText);
    var newLines := SplitLines(newText);
    var lineOps := BuildEditScript(oldLines, newLines);
    var summary := Summarize(lineOps, oldLines, newLines);
    var oldTokens := TokenizeWords(oldText, isSpace);
    var newTokens := TokenizeWords(newText, isSpace);
    if |oldTokens| > DIFF_TOKEN_CAP || |newTokens| > DIFF_TOKEN_CAP {
      var lineHunks := LineHunks(lineOps);
      return HunksResult(lineHunks, true, summary);
    }
    var ops := BuildEditScript(oldTokens, newTokens);
    var hunks := WordHunks(ops, isSpace);
    r := HunksResult(hunks, false, summary);
  }

  method ComputeHunks(oldText: string, newText: string, granularity: Granularity, heading: Heading, isSpace: char -> bool)
    returns (r: HunksResult)
    ensures r == HunksFor(oldText, newText, granularity, heading, isSpace)
  {
    hide LinesOf, Exact, LcsScript, LineHunksOf, WordResult, SectionsOf, SectionReport, Runs;
    var oldLines := SplitLines(oldText);
    var newLines := SplitLines(newText);
    if |oldLines| > DIFF_LINE_CAP || |newLines| > DIFF_LINE_CAP {
      var approximate := ApproximateSummaryForTruncated(oldLines, newLines);
      return HunksResult([], true, approximate);
    }
    match granularity {
      case BySection =>
        var report := ComputeSectionHunks(oldText, newText, heading);
        r := HunksResult(report.hunks, false, report.summary);
      case ByWord =>
        r := ComputeWordHunks(oldText, newText, isSpace);
      case ByLine =>
        var ops := BuildEditScript(oldLines, newLines);
        var hunks := LineHunks(ops);
        var summary := Summarize(ops, oldLines, newLines);
        r := HunksResult(hunks, false, summary);
    }
  }

  // ---------------------------------------------------------------- envelope

  predicate TooManyTokens(oldText: string, newText: string, isSpace: char -> bool) {
    |TokenizeWords(oldText, isSpace)| > DIFF_TOKEN_CAP || |TokenizeWords(newText, isSpace)| > DIFF_TOKEN_CAP
  }

  datatype Shape = SummaryOnly | HunkList | UnifiedText

  datatype DiffOutput = DiffOutput(changed: bool, summary: DiffSummary, unifiedDiff: Option<string>,
                                   hunks: Option<seq<DiffHunk>>, truncated: bool)

  predicate SomeLines(s: DiffSummary) { s.addedLines > 0 || s.removedLines > 0 || s.modifiedLines > 0 }

  /** Two texts count as changed when they differ and their lines differ or were too many to compare. */
  predicate LinesChanged(oldText: string, newText: string) {
    && oldText != newText
    && (OverCap(LinesOf(oldText), LinesOf(newText)) || LinesOf(oldText) != LinesOf(newText))
  }

  lemma SummaryShowsChange(oldText: string, newText: string)
    ensures SomeLines(BodySummary(oldText, newText))
            <==> OverCap(LinesOf(oldText), LinesOf(newText)) || LinesOf(oldText) != LinesOf(newText)
  {
    hide LinesOf, Exact;
    ExactZero(LinesOf(oldText), LinesOf(newText));
  }

  /** What `changed` says when hunks are asked for. */
  function Changed(oldText: string, newText: string, granularity: Granularity, heading: Heading, isSpace: char -> bool): bool {
    var h := HunksFor(oldText, newText, granularity, heading, isSpace);
    oldText != newText && (h.hunks != [] || SomeLines(h.summary))
  }

  lemma HunksTruncated(oldText: string, newText: string, granularity: Granularity, heading: Heading, isSpace: char -> bool)
    ensures HunksFor(oldText, newText, granularity, heading, isSpace).truncated <==>
      OverCap(LinesOf(oldText), LinesOf(newText)) || (granularity == ByWord && TooManyTokens(oldText, newText, isSpace))
  {
    hide LinesOf, Exact, LcsScript, Runs, TokenizeWords;
  }

  /** Unless words or sections are asked for, `changed` says whether the lines changed. */
  method ComputeDiffEnvelope(oldMarkdown: string, newMarkdown: string, output: Shape, granularity: Granularity,
                             heading: Heading, isSpace: char -> bool) returns (out: DiffOutput)
    ensures output != HunkList || granularity == ByLine ==> out.changed == LinesChanged(oldMarkdown, newMarkdown)
    ensures output == HunkList ==> out.changed == Changed(oldMarkdown, newMarkdown, granularity, heading, isSpace)
    ensures oldMarkdown == newMarkdown ==>
              out == DiffOutput(false, DiffSummary(0, 0, 0, 0), None, None, false)
    ensures oldMarkdown != newMarkdown && output == HunkList ==>
              var h := HunksFor(oldMarkdown, newMarkdown, granularity, heading, isSpace);
              out == DiffOutput(h.hunks != [] || SomeLines(h.summary), h.summary, None, Some(h.hunks), h.truncated)
    ensures oldMarkdown != newMarkdown && output != HunkList ==>
              out.summary == BodySummary(oldMarkdown, newMarkdown) && out.hunks == None
    ensures out.unifiedDiff.Some? <==> oldMarkdown != newMarkdown && output == UnifiedText && !out.truncated
    ensures out.unifiedDiff.Some? ==>
              && ApplyPatch(out.unifiedDiff.value, LinesOf(oldMarkdown)) == Some(LinesOf(newMarkdown))
              && ApplyPatchReverse(out.unifiedDiff.value, LinesOf(newMarkdown)) == Some(LinesOf(oldMarkdown))
              && PrintsMinimal(out.unifiedDiff.value, LinesOf(oldMarkdown), LinesOf(newMarkdown))
    ensures out.truncated <==>
              && oldMarkdown != newMarkdown
              && (OverCap(LinesOf(oldMarkdown), LinesOf(newMarkdown))
                  || (output == HunkList && granularity == ByWord && TooManyTokens(oldMarkdown, newMarkdown, isSpace)))
  {
    hide LinesOf, Exact, ApplyPatch, ApplyPatchReverse, LcsScript, Runs, WordResult, SectionResult, BodySummary;
    if oldMarkdown == newMarkdown {
      return DiffOutput(false, DiffSummary(0, 0, 0, 0), None, None, false);
    }
    SummaryShowsChange(oldMarkdown, newMarkdown);
    if output == HunkList {
      var h := ComputeHunks(oldMarkdown, newMarkdown, granularity, heading, isSpace);
      LineHunksShowChange(oldMarkdown, newMarkdown, heading, isSpace);
      HunksTruncated(oldMarkdown, newMarkdown, granularity, heading, isSpace);
      return DiffOutput(|h.hunks| > 0 || SomeLines(h.summary), h.summary, None, Some(h.hunks), h.truncated);
    }
    var u := ComputeUnifiedDiff(oldMarkdown, newMarkdown);
    var changed := SomeLines(u.summary) || u.truncated;
    out := DiffOutput(changed, u.summary, if output == UnifiedText && !u.truncated then Some(u.diff) else None, None, u.truncated);
  }

  lemma LineHunksShowChange(oldText: string, newText: string, heading: Heading, isSpace: char -> bool)
    ensures var h := HunksFor(oldText, newText, ByLine, heading, isSpace);
      h.hunks != [] || SomeLines(h.summary)
      <==> OverCap(LinesOf(oldText), LinesOf(newText)) || LinesOf(oldText) != LinesOf(newText)
  {
    hide LinesOf, Exact, LcsScript, Runs;
    ExactZero(LinesOf(oldText), LinesOf(newText));
    LineHunksWhenChanged(LinesOf(oldText), LinesOf(newText));
  }

  // ---------------------------------------------------------------- section granularity and changes

  lemma {:induction false} SameSectionsReportNothing(sections: seq<Section>, n: nat)
    requires n <= |sections|
    ensures OldReports(sections, sections, n) == Nothing()
  {
    if n > 0 {
      SameSectionsReportNothing(sections, n - 1);
      if Titled(sections[n - 1]) {
        IndexOfNamesake(sections, sections[n - 1].title.value, |sections|, n - 1);
        assert Partner(sections, sections, n - 1) == Some(n - 1);
      }
      NothingToAdd(Nothing());
    }
  }

  lemma {:induction false} NoSurplusInSame(sections: seq<Section>, n: nat)
    requires n <= |sections|
    ensures SectionReport(sections, sections, n) == Nothing()
  {
    if n == 0 {
      SameSectionsReportNothing(sections, |sections|);
    } else {
      NoSurplusInSame(sections, n - 1);
      if Titled(sections[n - 1]) {
        IndexOfNamesake(sections, sections[n - 1].title.value, |sections|, n - 1);
      }
      NothingToAdd(Nothing());
    }
  }

  /** Texts with the same lines never produce a section hunk. */
  lemma SectionsSameWhenLinesSame(oldText: string, newText: string, heading: Heading)
    requires LinesOf(oldText) == LinesOf(newText)
    ensures SectionResult(oldText, newText, heading) == HunksResult([], false, DiffSummary(0, 0, 0, 0))
  {
    var sections := SectionsOf(oldText, heading);
    assert SectionsOf(newText, heading) == sections;
    NoSurplusInSame(sections, |sections|);
  }

  /** The converse fails: a heading that keeps its title but changes its level is not reported, because
      sections are compared by title and body only. */
  lemma SectionsMissHeadingLevel()
    ensures NonEmptyTitles(LevelBlindHeading) && LinesOf("# A") != LinesOf("## A")
    ensures SectionResult("# A", "## A", LevelBlindHeading) == HunksResult([], false, DiffSummary(0, 0, 0, 0))
  {
    hide LinesOf, SectionsOf, SectionReport, NonEmptyTitles;
    LevelBlindTitles();
    HeadingOnly("# A", "A", LevelBlindHeading);
    HeadingOnly("## A", "A", LevelBlindHeading);
    NoSurplusInSame([Section(Some("A"), "")], 1);
  }

  function LevelBlindHeading(line: string): Option<string> {
    if line == "# A" || line == "## A" then Some("A") else None
  }

  lemma LevelBlindTitles()
    ensures NonEmptyTitles(LevelBlindHeading)
  {
  }

  lemma HeadingOnly(line: string, title: string, heading: Heading)
    requires Plain(line) && line != "" && heading(line) == Some(title)
    ensures LinesOf(line) == [line]
    ensures SectionsOf(line, heading) == [Section(Some(title), "")]
  {
    PlainUnchanged(line);
    SplitAfterLine(line, "");
    assert [line][1..] == [];
    assert PartsFrom([], heading, Some(title), []) == [Part(Some(title), [])];
    assert PartsFrom([line], heading, None, []) == [Part(Some(title), [])];
  }

  /** The bodies under one title, in order. */
  function BodiesOf(sections: seq<Section>, title: string): (bodies: seq<string>)
    ensures |bodies| == CountOf(sections, title, |sections|)
    ensures forall k: nat :: k < |bodies| ==>
              IndicesOf(sections, title, |sections|)[k] < |sections| && bodies[k] == sections[IndicesOf(sections, title, |sections|)[k]].body
  {
    BodiesFrom(sections, title, |sections|)
  }

  function BodiesFrom(sections: seq<Section>, title: string, n: nat): (bodies: seq<string>)
    requires n <= |sections|
    ensures |bodies| == CountOf(sections, title, n)
    ensures forall k: nat :: k < |bodies| ==>
              IndicesOf(sections, title, n)[k] < |sections| && bodies[k] == sections[IndicesOf(sections, title, n)[k]].body
  {
    if n == 0 then []
    else BodiesFrom(sections, title, n - 1) + if HasTitle(sections[n - 1], title) then [sections[n - 1].body] else []
  }

  lemma QuietPrelude(olds: seq<Section>, news: seq<Section>)
    ensures PreludeReport(olds, news).hunks == [] <==> PreludeBody(olds) == PreludeBody(news)
  {
  }

  lemma {:induction false} QuietOld(olds: seq<Section>, news: seq<Section>, n: nat)
    requires n <= |olds|
    ensures OldReports(olds, news, n).hunks == [] <==>
              && PreludeBody(olds) == PreludeBody(news)
              && forall i: nat :: i < n ==> OldReport(olds, news, i).hunks == []
  {
    hide PreludeBody, OldReport, PreludeReport;
    if n == 0 {
      QuietPrelude(olds, news);
    } else {
      QuietOld(olds, news, n - 1);
    }
  }

  lemma {:induction false} QuietNew(olds: seq<Section>, news: seq<Section>, n: nat)
    requires n <= |news|
    ensures SectionReport(olds, news, n).hunks == [] <==>
              && OldReports(olds, news, |olds|).hunks == []
              && forall j: nat :: j < n ==> NewReport(olds, news, j).hunks == []
  {
    hide NewReport, OldReports;
    if n > 0 {
      QuietNew(olds, news, n - 1);
    }
  }

  lemma QuietBody(olds: seq<Section>, news: seq<Section>, title: string, k: nat)
    requires forall i: nat :: i < |olds| ==> OldReport(olds, news, i).hunks == []
    requires k < CountOf(olds, title, |olds|)
    ensures k < CountOf(news, title, |news|)
    ensures BodiesOf(olds, title)[k] == BodiesOf(news, title)[k]
  {
    IndicesAreNamesakes(olds, title, |olds|, k);
    var i := IndicesOf(olds, title, |olds|)[k];
    assert OldReport(olds, news, i).hunks == [];
    PartnerMatches(olds, news, i);
  }

  lemma SurplusReported(olds: seq<Section>, news: seq<Section>, title: string)
    requires CountOf(olds, title, |olds|) < CountOf(news, title, |news|)
    ensures exists j: nat :: j < |news| && NewReport(olds, news, j).hunks != []
  {
    var k := CountOf(olds, title, |olds|);
    IndicesAreNamesakes(news, title, |news|, k);
    assert NewReport(olds, news, IndicesOf(news, title, |news|)[k]).hunks != [];
  }

  lemma QuietTitle(olds: seq<Section>, news: seq<Section>, title: string)
    requires forall i: nat :: i < |olds| ==> OldReport(olds, news, i).hunks == []
    requires forall j: nat :: j < |news| ==> NewReport(olds, news, j).hunks == []
    ensures BodiesOf(olds, title) == BodiesOf(news, title)
  {
    var o, n := CountOf(olds, title, |olds|), CountOf(news, title, |news|);
    if o > 0 {
      QuietBody(olds, news, title, o - 1);
    }
    if o < n {
      SurplusReported(olds, news, title);
    }
    assert o == n;
    hide OldReport, NewReport, IndicesOf;
    forall k: nat | k < o
      ensures BodiesOf(olds, title)[k] == BodiesOf(news, title)[k]
    {
      QuietBody(olds, news, title, k);
    }
  }

  lemma QuietSections(olds: seq<Section>, news: seq<Section>)
    requires forall title: string :: BodiesOf(olds, title) == BodiesOf(news, title)
    ensures forall i: nat :: i < |olds| ==> OldReport(olds, news, i).hunks == []
    ensures forall j: nat :: j < |news| ==> NewReport(olds, news, j).hunks == []
  {
    forall i: nat | i < |olds|
      ensures OldReport(olds, news, i).hunks == []
    {
      if Titled(olds[i]) {
        var title := olds[i].title.value;
        assert BodiesOf(olds, title) == BodiesOf(news, title);
        IndexOfNamesake(olds, title, |olds|, i);
        assert BodiesOf(olds, title)[CountOf(olds, title, i)] == olds[i].body;
      }
    }
    forall j: nat | j < |news|
      ensures NewReport(olds, news, j).hunks == []
    {
      if Titled(news[j]) {
        var title := news[j].title.value;
        assert BodiesOf(olds, title) == BodiesOf(news, title);
        IndexOfNamesake(news, title, |news|, j);
      }
    }
  }

  /** Section granularity is silent exactly when the text before the first heading is the same and,
      for every title, the bodies under it are the same in the same order. */
  lemma SectionsSilentExactly(olds: seq<Section>, news: seq<Section>)
    ensures SectionReport(olds, news, |news|).hunks == [] <==>
              && PreludeBody(olds) == PreludeBody(news)
              && forall title: string :: BodiesOf(olds, title) == BodiesOf(news, title)
  {
    hide SectionReport, OldReports, PreludeBody, OldReport, NewReport;
    QuietOld(olds, news, |olds|);
    QuietNew(olds, news, |news|);
    if SectionReport(olds, news, |news|).hunks == [] {
      forall title: string
        ensures BodiesOf(olds, title) == BodiesOf(news, title)
      {
        QuietTitle(olds, news, title);
      }
    }
    if forall title: string :: BodiesOf(olds, title) == BodiesOf(news, title) {
      QuietSections(olds, news);
    }
  }
}

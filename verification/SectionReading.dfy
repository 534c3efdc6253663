/** What the section hunks of src/cache/diff-engine.ts report: which sections, with which text on which side, in which
    order, and what the totals sum up. */
module SectionReading {
  import opened ChangeHunks
  import opened LineSummary
  import opened LineText
  import opened Options
  import opened Positions
  import opened Sections

  // ---------------------------------------------------------------- old sections

  /** The old section is gone, or the body of its partner is another one. */
  ghost predicate GoneOrChanged(olds: seq<Section>, news: seq<Section>, k: nat)
    requires k < |olds|
  {
    && Titled(olds[k])
    && match Partner(olds, news, k)
       case None => true
       case Some(j) => j < |news| && news[j].body != olds[k].body
  }

  /** The hunk names the old section and shows its body before, and after it the body of the partner, if any. */
  ghost predicate ShowsOld(olds: seq<Section>, news: seq<Section>, k: nat, hunk: DiffHunk)
    requires k < |olds|
  {
    && hunk.sectionTitle == olds[k].title && hunk.before == olds[k].body
    && match Partner(olds, news, k)
       case None => hunk.after == "" && hunk.changeType == RemovedText
       case Some(j) => j < |news| && hunk.after == news[j].body && hunk.changeType == ModifiedText
  }

  ghost predicate OldsAt(olds: seq<Section>, news: seq<Section>, at: seq<nat>, n: nat)
    requires n <= |olds|
  {
    && Increasing(at, n)
    && (forall k :: 0 <= k < n ==> (k in at <==> GoneOrChanged(olds, news, k)))
  }

  ghost predicate OldsShown(olds: seq<Section>, news: seq<Section>, hunks: seq<DiffHunk>, at: seq<nat>) {
    && |hunks| == |at|
    && (forall i :: 0 <= i < |at| ==> at[i] < |olds| && ShowsOld(olds, news, at[i], hunks[i]))
  }

  lemma OneOld(olds: seq<Section>, news: seq<Section>, k: nat)
    requires k < |olds|
    ensures var hunks := OldReport(olds, news, k).hunks;
      if GoneOrChanged(olds, news, k) then |hunks| == 1 && ShowsOld(olds, news, k, hunks[0]) else hunks == []
  {
    hide BodySummary, LinesOf, IndicesOf;
    if Titled(olds[k]) {
      PartnerMatches(olds, news, k);
      hide Partner;
    }
  }

  lemma OldAtMore(olds: seq<Section>, news: seq<Section>, at: seq<nat>, n: nat)
    requires n < |olds| && OldsAt(olds, news, at, n)
    ensures OldsAt(olds, news, Extended(at, n, GoneOrChanged(olds, news, n)), n + 1)
  {
    hide GoneOrChanged;
    ExtendedIncreases(at, n, GoneOrChanged(olds, news, n));
    hide Increasing;
  }

  lemma OldShownMore(olds: seq<Section>, news: seq<Section>, hunks: seq<DiffHunk>, more: seq<DiffHunk>, at: seq<nat>, n: nat, shown: bool)
    requires n < |olds| && OldsShown(olds, news, hunks, at)
    requires if shown then |more| == 1 && ShowsOld(olds, news, n, more[0]) else more == []
    ensures OldsShown(olds, news, hunks + more, Extended(at, n, shown))
  {
    hide ShowsOld;
  }

  lemma NoOlds(olds: seq<Section>, news: seq<Section>)
    ensures OldReports(olds, news, 0).hunks == PreludeReport(olds, news).hunks + []
    ensures OldsAt(olds, news, [], 0) && OldsShown(olds, news, [], [])
  {
    hide PreludeReport;
  }

  lemma OldStep(olds: seq<Section>, news: seq<Section>, n: nat)
    requires n < |olds|
    ensures OldReports(olds, news, n + 1).hunks == OldReports(olds, news, n).hunks + OldReport(olds, news, n).hunks
  {
    hide OldReport, PreludeReport;
  }

  lemma {:induction false} OldHunks(olds: seq<Section>, news: seq<Section>, n: nat) returns (hunks: seq<DiffHunk>, at: seq<nat>)
    requires n <= |olds|
    ensures OldReports(olds, news, n).hunks == PreludeReport(olds, news).hunks + hunks
    ensures OldsAt(olds, news, at, n) && OldsShown(olds, news, hunks, at)
  {
    hide OldsAt, OldsShown, GoneOrChanged, OldReport, PreludeReport, OldReports;
    if n == 0 {
      hunks, at := [], [];
      NoOlds(olds, news);
    } else {
      OldStep(olds, news, n - 1);
      hunks, at := OldHunks(olds, news, n - 1);
      var more := OldReport(olds, news, n - 1).hunks;
      OneOld(olds, news, n - 1);
      OldAtMore(olds, news, at, n - 1);
      OldShownMore(olds, news, hunks, more, at, n - 1, GoneOrChanged(olds, news, n - 1));
      at := Extended(at, n - 1, GoneOrChanged(olds, news, n - 1));
      LineText.Regroup(PreludeReport(olds, news).hunks, hunks, more);
      hunks := hunks + more;
    }
  }

  // ---------------------------------------------------------------- new sections

  /** No old section has this one for a partner. */
  ghost predicate IsNew(olds: seq<Section>, news: seq<Section>, k: nat)
    requires k < |news|
  {
    Titled(news[k]) && forall i: nat :: i < |olds| ==> Partner(olds, news, i) != Some(k)
  }

  ghost predicate NewsAt(olds: seq<Section>, news: seq<Section>, at: seq<nat>, n: nat)
    requires n <= |news|
  {
    && Increasing(at, n)
    && (forall k :: 0 <= k < n ==> (k in at <==> IsNew(olds, news, k)))
  }

  ghost predicate NewsShown(news: seq<Section>, hunks: seq<DiffHunk>, at: seq<nat>) {
    && |hunks| == |at|
    && (forall i :: 0 <= i < |at| ==> at[i] < |news| && hunks[i] == DiffHunk(news[at[i]].title, "", news[at[i]].body, AddedText))
  }

  lemma OneNew(olds: seq<Section>, news: seq<Section>, k: nat)
    requires k < |news|
    ensures NewReport(olds, news, k).hunks == if IsNew(olds, news, k) then [DiffHunk(news[k].title, "", news[k].body, AddedText)] else []
  {
    hide LinesOf, IndicesOf;
    if Titled(news[k]) {
      PartnerExists(olds, news, k);
    }
  }

  lemma NewAtMore(olds: seq<Section>, news: seq<Section>, at: seq<nat>, n: nat)
    requires n < |news| && NewsAt(olds, news, at, n)
    ensures NewsAt(olds, news, Extended(at, n, IsNew(olds, news, n)), n + 1)
  {
    hide IsNew;
    ExtendedIncreases(at, n, IsNew(olds, news, n));
    hide Increasing;
  }

  lemma NewShownMore(news: seq<Section>, hunks: seq<DiffHunk>, at: seq<nat>, n: nat, shown: bool)
    requires n < |news| && NewsShown(news, hunks, at)
    ensures NewsShown(news, hunks + if shown then [DiffHunk(news[n].title, "", news[n].body, AddedText)] else [], Extended(at, n, shown))
  {
  }

  lemma NoNews(olds: seq<Section>, news: seq<Section>)
    ensures SectionReport(olds, news, 0).hunks == OldReports(olds, news, |olds|).hunks + []
    ensures NewsAt(olds, news, [], 0) && NewsShown(news, [], [])
  {
    hide OldReports;
  }

  lemma NewStep(olds: seq<Section>, news: seq<Section>, n: nat)
    requires n < |news|
    ensures SectionReport(olds, news, n + 1).hunks == SectionReport(olds, news, n).hunks + NewReport(olds, news, n).hunks
  {
    hide OldReports, NewReport;
  }

  lemma {:induction false} NewHunks(olds: seq<Section>, news: seq<Section>, n: nat) returns (hunks: seq<DiffHunk>, at: seq<nat>)
    requires n <= |news|
    ensures SectionReport(olds, news, n).hunks == OldReports(olds, news, |olds|).hunks + hunks
    ensures NewsAt(olds, news, at, n) && NewsShown(news, hunks, at)
  {
    hide NewsAt, NewsShown, IsNew, NewReport, OldReports, SectionReport;
    if n == 0 {
      hunks, at := [], [];
      NoNews(olds, news);
    } else {
      NewStep(olds, news, n - 1);
      hunks, at := NewHunks(olds, news, n - 1);
      var more := NewReport(olds, news, n - 1).hunks;
      OneNew(olds, news, n - 1);
      NewAtMore(olds, news, at, n - 1);
      NewShownMore(news, hunks, at, n - 1, IsNew(olds, news, n - 1));
      at := Extended(at, n - 1, IsNew(olds, news, n - 1));
      LineText.Regroup(OldReports(olds, news, |olds|).hunks, hunks, more);
      hunks := hunks + more;
    }
  }

  // ---------------------------------------------------------------- the whole report

  /** The text before the first heading. */
  ghost function Prelude(sections: seq<Section>): string {
    if sections == [] || Titled(sections[0]) then "" else sections[0].body
  }

  /** One hunk when the untitled texts differ, of the kind their emptiness tells. */
  ghost predicate ShowsPreludes(olds: seq<Section>, news: seq<Section>, hunks: seq<DiffHunk>) {
    if Prelude(olds) == Prelude(news) then hunks == []
    else
      && |hunks| == 1 && hunks[0].sectionTitle == None
      && hunks[0].before == Prelude(olds) && hunks[0].after == Prelude(news)
      && (hunks[0].changeType == AddedText <==> Prelude(olds) == "")
      && (hunks[0].changeType == RemovedText <==> Prelude(news) == "")
  }

  /** What one hunk adds to the totals: a removed or an added section counts all its lines and characters, any other
      hunk the comparison of its two sides. */
  function HunkTotals(hunk: DiffHunk): DiffSummary {
    if hunk.sectionTitle.None? || hunk.changeType == ModifiedText then BodySummary(hunk.before, hunk.after)
    else DiffSummary(|LinesOf(hunk.after)|, |LinesOf(hunk.before)|, 0, |hunk.before| + |hunk.after|)
  }

  function Totals(hunks: seq<DiffHunk>): DiffSummary {
    if hunks == [] then DiffSummary(0, 0, 0, 0)
    else
      var front, last := Totals(hunks[..|hunks| - 1]), HunkTotals(hunks[|hunks| - 1]);
      DiffSummary(front.addedLines + last.addedLines, front.removedLines + last.removedLines,
                  front.modifiedLines + last.modifiedLines, front.totalChangedChars + last.totalChangedChars)
  }

  lemma TotalsPlus(r: Report, s: Report)
    requires r.summary == Totals(r.hunks) && s.summary == Totals(s.hunks) && |s.hunks| <= 1
    ensures Plus(r, s).summary == Totals(Plus(r, s).hunks)
  {
    hide HunkTotals;
    if s.hunks == [] {
      assert r.hunks + s.hunks == r.hunks;
    } else {
      assert (r.hunks + s.hunks)[..|r.hunks|] == r.hunks;
      assert s.hunks[..0] == [];
    }
  }

  lemma OneHunk(r: Report, hunk: DiffHunk)
    requires r.hunks == [hunk] && r.summary == HunkTotals(hunk)
    ensures r.summary == Totals(r.hunks)
  {
    hide HunkTotals;
    assert r.hunks[..0] == [];
  }

  lemma OldTotals(olds: seq<Section>, news: seq<Section>, k: nat)
    requires k < |olds|
    ensures OldReport(olds, news, k).summary == Totals(OldReport(olds, news, k).hunks) && |OldReport(olds, news, k).hunks| <= 1
  {
    hide BodySummary, IndicesOf, Totals, LinesOf;
    NoLinesInNothing();
    NoTotals();
    var r := OldReport(olds, news, k);
    if r.hunks != [] {
      hide Partner;
      OneHunk(r, r.hunks[0]);
    }
  }

  lemma NoTotals()
    ensures Totals([]) == DiffSummary(0, 0, 0, 0)
  {
  }

  lemma NewTotals(olds: seq<Section>, news: seq<Section>, k: nat)
    requires k < |news|
    ensures NewReport(olds, news, k).summary == Totals(NewReport(olds, news, k).hunks) && |NewReport(olds, news, k).hunks| <= 1
  {
    hide BodySummary, IndicesOf, Totals, LinesOf;
    NoLinesInNothing();
    NoTotals();
    var r := NewReport(olds, news, k);
    if r.hunks != [] {
      OneHunk(r, r.hunks[0]);
    }
  }

  lemma PreludeTotals(olds: seq<Section>, news: seq<Section>)
    ensures PreludeReport(olds, news).summary == Totals(PreludeReport(olds, news).hunks)
  {
    hide BodySummary, Totals, PreludeBody, LinesOf;
    NoTotals();
    var r := PreludeReport(olds, news);
    if r.hunks != [] {
      OneHunk(r, r.hunks[0]);
    }
  }

  lemma {:induction false} TotalsOfOlds(olds: seq<Section>, news: seq<Section>, n: nat)
    requires n <= |olds|
    ensures OldReports(olds, news, n).summary == Totals(OldReports(olds, news, n).hunks)
  {
    hide OldReport, PreludeReport, Totals, Plus;
    if n == 0 {
      PreludeTotals(olds, news);
    } else {
      TotalsOfOlds(olds, news, n - 1);
      OldTotals(olds, news, n - 1);
      TotalsPlus(OldReports(olds, news, n - 1), OldReport(olds, news, n - 1));
    }
  }

  lemma {:induction false} TotalsOfNews(olds: seq<Section>, news: seq<Section>, n: nat)
    requires n <= |news|
    ensures SectionReport(olds, news, n).summary == Totals(SectionReport(olds, news, n).hunks)
  {
    hide OldReports, NewReport, Totals, Plus;
    if n == 0 {
      TotalsOfOlds(olds, news, |olds|);
    } else {
      TotalsOfNews(olds, news, n - 1);
      NewTotals(olds, news, n - 1);
      TotalsPlus(SectionReport(olds, news, n - 1), NewReport(olds, news, n - 1));
    }
  }

  /** The report lists, in this order, the differing untitled texts, every old section that is gone or changed, and
      every new section that is nobody's partner, each once and in document order; the totals are those of the listed
      hunks. */
  lemma SectionReportRead(olds: seq<Section>, news: seq<Section>)
    returns (preludes: seq<DiffHunk>, removed: seq<DiffHunk>, added: seq<DiffHunk>, atOld: seq<nat>, atNew: seq<nat>)
    requires UntitledFirst(olds) && UntitledFirst(news)
    ensures var report := SectionReport(olds, news, |news|);
      report.hunks == preludes + removed + added && report.summary == Totals(report.hunks)
    ensures ShowsPreludes(olds, news, preludes)
    ensures OldsAt(olds, news, atOld, |olds|) && OldsShown(olds, news, removed, atOld)
    ensures NewsAt(olds, news, atNew, |news|) && NewsShown(news, added, atNew)
  {
    hide OldsAt, OldsShown, NewsAt, NewsShown, OldReports, SectionReport, Totals;
    removed, atOld := OldHunks(olds, news, |olds|);
    added, atNew := NewHunks(olds, news, |news|);
    preludes := PreludeReport(olds, news).hunks;
    TotalsOfNews(olds, news, |news|);
    PreludeIs(olds);
    PreludeIs(news);
    hide PreludeBody, BodySummary;
  }
}

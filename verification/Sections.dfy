/** Section granularity: splitting a text at its headings and matching sections by title. A heading is
    recognised by a function from a line to its title, standing for the regular expression. */
module Sections {
  import opened ChangeHunks
  import opened EditScript
  import opened Lcs
  import opened LineSummary
  import opened LineText
  import opened Options

  const DIFF_LINE_CAP: nat := 5000

  type Heading = string -> Option<string>

  datatype Section = Section(title: Option<string>, body: string)

  // ---------------------------------------------------------------- splitting

  /** A section with its body still in lines. */
  datatype Part = Part(title: Option<string>, lines: seq<string>)

  /** The parts of `lines`, when a part with this title and these lines is already open. */
  function PartsFrom(lines: seq<string>, heading: Heading, title: Option<string>, open: seq<string>): seq<Part>
    decreases |lines|
  {
    if lines == [] then [Part(title, open)]
    else match heading(lines[0])
      case Some(t) =>
        (if title.Some? || |open| > 0 then [Part(title, open)] else []) + PartsFrom(lines[1..], heading, Some(t), [])
      case None => PartsFrom(lines[1..], heading, title, open + [lines[0]])
  }

  function ToSections(parts: seq<Part>): (sections: seq<Section>)
    ensures |sections| == |parts|
    ensures forall k :: 0 <= k < |parts| ==> sections[k] == Section(parts[k].title, Join(parts[k].lines))
  {
    if parts == [] then [] else [Section(parts[0].title, Join(parts[0].lines))] + ToSections(parts[1..])
  }

  function PartsOf(text: string, heading: Heading): seq<Part> {
    PartsFrom(LinesOf(text), heading, None, [])
  }

  function SectionsOf(text: string, heading: Heading): seq<Section> {
    ToSections(PartsOf(text, heading))
  }

  lemma ToSectionsPush(parts: seq<Part>, rest: seq<Part>)
    ensures ToSections(parts + rest) == ToSections(parts) + ToSections(rest)
  {
  }

  lemma PartsStep(lines: seq<string>, k: nat, heading: Heading, title: Option<string>, open: seq<string>)
    requires k < |lines|
    ensures heading(lines[k]).None? ==>
              PartsFrom(lines[k..], heading, title, open) == PartsFrom(lines[k + 1..], heading, title, open + [lines[k]])
    ensures heading(lines[k]).Some? && (title.Some? || |open| > 0) ==>
              PartsFrom(lines[k..], heading, title, open)
              == [Part(title, open)] + PartsFrom(lines[k + 1..], heading, heading(lines[k]), [])
    ensures heading(lines[k]).Some? && title.None? && |open| == 0 ==>
              PartsFrom(lines[k..], heading, title, open) == PartsFrom(lines[k + 1..], heading, heading(lines[k]), [])
  {
    assert lines[k..][1..] == lines[k + 1..];
  }

  method SplitSections(text: string, heading: Heading) returns (sections: seq<Section>)
    ensures sections == SectionsOf(text, heading)
  {
    hide PartsFrom;
    var lines := SplitLines(text);
    sections := [];
    ghost var done: seq<Part> := [];
    var title: Option<string> := None;
    var bodyLines: seq<string> := [];
    var hasSeenHeading := false;
    for k := 0 to |lines|
      invariant hasSeenHeading == title.Some?
      invariant sections == ToSections(done)
      invariant done + PartsFrom(lines[k..], heading, title, bodyLines) == PartsOf(text, heading)
    {
      PartsStep(lines, k, heading, title, bodyLines);
      var m := heading(lines[k]);
      if m.Some? {
        if hasSeenHeading || |bodyLines| > 0 {
          ToSectionsPush(done, [Part(title, bodyLines)]);
          done := done + [Part(title, bodyLines)];
          sections := sections + [Section(title, Join(bodyLines))];
          bodyLines := [];
        }
        title := m;
        hasSeenHeading := true;
      } else {
        bodyLines := bodyLines + [lines[k]];
      }
    }
    LastPart(lines, heading, title, bodyLines);
    ToSectionsPush(done, [Part(title, bodyLines)]);
    sections := sections + [Section(title, Join(bodyLines))];
  }

  lemma LastPart(lines: seq<string>, heading: Heading, title: Option<string>, open: seq<string>)
    ensures PartsFrom(lines[|lines|..], heading, title, open) == [Part(title, open)]
  {
  }

  /** Lines that are headings, and lines that end up in a body. */
  function PartLines(parts: seq<Part>): nat {
    if parts == [] then 0
    else (if parts[0].title.Some? then 1 else 0) + |parts[0].lines| + PartLines(parts[1..])
  }

  /** The headings among the lines, in order. */
  function HeadingLines(lines: seq<string>, heading: Heading): seq<string> {
    if lines == [] then []
    else (if heading(lines[0]).Some? then [lines[0]] else []) + HeadingLines(lines[1..], heading)
  }

  ghost predicate NoHeading(lines: seq<string>, heading: Heading) {
    forall k :: 0 <= k < |lines| ==> heading(lines[k]).None?
  }

  /** The bodies laid out one after the other, each behind its heading. */
  function Layout(headings: seq<string>, parts: seq<Part>): seq<string>
    requires |headings| == |parts|
  {
    if parts == [] then [] else [headings[0]] + parts[0].lines + Layout(headings[1..], parts[1..])
  }

  /** Each part has the title of its heading, no body holds a heading, and laid out they are the lines. */
  ghost predicate Spells(headings: seq<string>, parts: seq<Part>, heading: Heading, lines: seq<string>) {
    && |headings| == |parts| && Layout(headings, parts) == lines
    && (forall k :: 0 <= k < |parts| ==> parts[k].title.Some? && parts[k].title == heading(headings[k]))
    && (forall k :: 0 <= k < |parts| ==> NoHeading(parts[k].lines, heading))
  }

  lemma SpellsOneMore(h: string, open: seq<string>, headings: seq<string>, parts: seq<Part>, heading: Heading, lines: seq<string>)
    requires heading(h).Some? && NoHeading(open, heading) && Spells(headings, parts, heading, lines)
    ensures Spells([h] + headings, [Part(heading(h), open)] + parts, heading, [h] + open + lines)
  {
    hide NoHeading;
    assert ([h] + headings)[1..] == headings && ([Part(heading(h), open)] + parts)[1..] == parts;
  }

  /** From an open heading h on, headings and bodies spell the lines. */
  lemma {:induction false} TitledPartsSpell(h: string, open: seq<string>, lines: seq<string>, heading: Heading)
    requires heading(h).Some? && NoHeading(open, heading)
    ensures Spells([h] + HeadingLines(lines, heading), PartsFrom(lines, heading, heading(h), open), heading, [h] + open + lines)
    decreases |lines|
  {
    hide Spells;
    if lines == [] {
      NothingToSpell(heading);
      SpellsOneMore(h, open, [], [], heading, []);
      assert [h] + [] == [h] && [Part(heading(h), open)] + [] == [Part(heading(h), open)];
    } else {
      var rest := lines[1..];
      assert lines == [lines[0]] + rest;
      if heading(lines[0]).Some? {
        TitledPartsSpell(lines[0], [], rest, heading);
        assert [lines[0]] + [] + rest == lines;
        SpellsOneMore(h, open, HeadingLines(lines, heading), PartsFrom(rest, heading, heading(lines[0]), []), heading, lines);
      } else {
        TitledPartsSpell(h, open + [lines[0]], rest, heading);
        assert [] + HeadingLines(rest, heading) == HeadingLines(rest, heading);
        assert [h] + (open + [lines[0]]) + rest == [h] + open + lines;
      }
    }
  }

  lemma NothingToSpell(heading: Heading)
    ensures Spells([], [], heading, [])
  {
  }

  /** The lines before the first heading, and the lines from it on. */
  function Opening(lines: seq<string>, heading: Heading): seq<string> {
    if lines == [] || heading(lines[0]).Some? then [] else [lines[0]] + Opening(lines[1..], heading)
  }

  function FromHeading(lines: seq<string>, heading: Heading): seq<string> {
    if lines == [] || heading(lines[0]).Some? then lines else FromHeading(lines[1..], heading)
  }

  lemma {:induction false} OpeningThenHeadings(lines: seq<string>, heading: Heading)
    ensures lines == Opening(lines, heading) + FromHeading(lines, heading)
    ensures HeadingLines(lines, heading) == HeadingLines(FromHeading(lines, heading), heading)
    ensures FromHeading(lines, heading) != [] ==> heading(FromHeading(lines, heading)[0]).Some?
    ensures NoHeading(Opening(lines, heading), heading)
  {
    if lines != [] && heading(lines[0]).None? {
      OpeningThenHeadings(lines[1..], heading);
      assert lines == [lines[0]] + lines[1..];
      assert [] + HeadingLines(lines[1..], heading) == HeadingLines(lines[1..], heading);
    }
  }

  /** The parts of the lines from the first heading on. */
  function TitledParts(lines: seq<string>, heading: Heading): seq<Part> {
    if lines == [] then [] else PartsFrom(lines[1..], heading, heading(lines[0]), [])
  }

  /** The untitled part holds the lines before the first heading; it is left out when that leaves it empty. */
  function UntitledPart(open: seq<string>, lines: seq<string>, heading: Heading): seq<Part> {
    var body := open + Opening(lines, heading);
    if body == [] && FromHeading(lines, heading) != [] then [] else [Part(None, body)]
  }

  lemma {:induction false} UntitledThenTitled(open: seq<string>, lines: seq<string>, heading: Heading)
    ensures PartsFrom(lines, heading, None, open)
         == UntitledPart(open, lines, heading) + TitledParts(FromHeading(lines, heading), heading)
    decreases |lines|
  {
    if lines == [] {
      assert open + [] == open;
    } else if heading(lines[0]).Some? {
      assert open + [] == open;
    } else {
      UntitledStep(open, lines, heading);
      hide PartsFrom, FromHeading, UntitledPart, TitledParts;
      UntitledThenTitled(open + [lines[0]], lines[1..], heading);
    }
  }

  lemma UntitledStep(open: seq<string>, lines: seq<string>, heading: Heading)
    requires lines != [] && heading(lines[0]).None?
    ensures PartsFrom(lines, heading, None, open) == PartsFrom(lines[1..], heading, None, open + [lines[0]])
    ensures FromHeading(lines, heading) == FromHeading(lines[1..], heading)
    ensures UntitledPart(open, lines, heading) == UntitledPart(open + [lines[0]], lines[1..], heading)
  {
    Regroup(open, lines[0], Opening(lines[1..], heading));
  }

  lemma Regroup<T>(s: seq<T>, x: T, t: seq<T>)
    ensures (s + [x]) + t == s + ([x] + t)
  {
  }

  lemma TitledPartsSpellAll(lines: seq<string>, heading: Heading)
    requires lines != [] ==> heading(lines[0]).Some?
    ensures Spells(HeadingLines(lines, heading), TitledParts(lines, heading), heading, lines)
  {
    if lines == [] {
      NothingToSpell(heading);
    } else {
      hide Spells;
      TitledPartsSpell(lines[0], [], lines[1..], heading);
      assert [lines[0]] + [] + lines[1..] == lines;
    }
  }

  /** Every line of a text is one heading or stands in one body, in order, and every titled part has the title
      of its heading. The lines before the first heading are the body of an untitled part. */
  lemma SectionsSpellText(text: string, heading: Heading)
    ensures var lines := LinesOf(text);
      var before, after := Opening(lines, heading), FromHeading(lines, heading);
      && lines == before + after && NoHeading(before, heading)
      && PartsOf(text, heading) == UntitledPart([], lines, heading) + TitledParts(after, heading)
      && Spells(HeadingLines(lines, heading), TitledParts(after, heading), heading, after)
  {
    hide PartsFrom, Spells, LinesOf, NoHeading;
    var lines := LinesOf(text);
    OpeningThenHeadings(lines, heading);
    UntitledThenTitled([], lines, heading);
    TitledPartsSpellAll(FromHeading(lines, heading), heading);
  }

  /** Parts and lines agree in number; only the first part can be untitled; every title is one the headings
      gave. */
  lemma {:induction false} PartsCoverLines(lines: seq<string>, heading: Heading, title: Option<string>, open: seq<string>)
    ensures var parts := PartsFrom(lines, heading, title, open);
      && parts != []
      && PartLines(parts) == |lines| + |open| + (if title.Some? then 1 else 0)
      && (forall k :: 1 <= k < |parts| ==> parts[k].title.Some?)
      && (title.Some? ==> parts[0].title == title)
      && (forall k :: 0 <= k < |parts| && parts[k].title.Some? ==>
            parts[k].title == title || exists l :: l in lines && heading(l) == parts[k].title)
    decreases |lines|
  {
    if lines != [] {
      match heading(lines[0]) {
        case Some(t) =>
          PartsCoverLines(lines[1..], heading, Some(t), []);
          assert heading(lines[0]) == Some(t);
          var rest := PartsFrom(lines[1..], heading, Some(t), []);
          if title.Some? || |open| > 0 {
            assert PartsFrom(lines, heading, title, open)[1..] == rest;
          } else {
            assert PartsFrom(lines, heading, title, open) == rest;
          }
        case None =>
          PartsCoverLines(lines[1..], heading, title, open + [lines[0]]);
      }
    }
  }

  lemma {:induction false} PartsHoldLines(lines: seq<string>, heading: Heading, title: Option<string>, open: seq<string>)
    requires AllPlain(lines) && AllPlain(open)
    ensures forall k :: 0 <= k < |PartsFrom(lines, heading, title, open)| ==>
              AllPlain(PartsFrom(lines, heading, title, open)[k].lines)
    decreases |lines|
  {
    if lines != [] {
      match heading(lines[0]) {
        case Some(t) => PartsHoldLines(lines[1..], heading, Some(t), []);
        case None => PartsHoldLines(lines[1..], heading, title, open + [lines[0]]);
      }
    }
  }

  lemma {:induction false} PartWithinTotal(parts: seq<Part>, k: nat)
    requires k < |parts|
    ensures |parts[k].lines| <= PartLines(parts)
  {
    if k > 0 {
      PartWithinTotal(parts[1..], k - 1);
    }
  }

  /** A body, split again, has its lines but for a final empty one, so never more than the whole text:
      under the line cap no section comparison is cut short. */
  lemma BodyLineCount(text: string, heading: Heading, k: nat)
    requires k < |SectionsOf(text, heading)|
    ensures LinesOf(SectionsOf(text, heading)[k].body) == DropLastEmpty(PartsOf(text, heading)[k].lines)
    ensures |LinesOf(SectionsOf(text, heading)[k].body)| <= |LinesOf(text)|
  {
    LinesArePlain(text);
    var lines := LinesOf(text);
    PartsHoldLines(lines, heading, None, []);
    PartsCoverLines(lines, heading, None, []);
    PartWithinTotal(PartsOf(text, heading), k);
    LinesOfJoin(PartsOf(text, heading)[k].lines);
  }

  // ---------------------------------------------------------------- matching by title

  predicate Titled(s: Section) { s.title.Some? && s.title.value != "" }

  /** At most the first section has no title. */
  ghost predicate UntitledFirst(sections: seq<Section>) {
    forall k :: 1 <= k < |sections| ==> Titled(sections[k])
  }

  /** A heading regular expression never captures an empty title. */
  ghost predicate NonEmptyTitles(heading: Heading) {
    forall line: string :: heading(line) != Some("")
  }

  lemma SplitUntitledFirst(text: string, heading: Heading)
    requires NonEmptyTitles(heading)
    ensures UntitledFirst(SectionsOf(text, heading))
  {
    PartsCoverLines(LinesOf(text), heading, None, []);
    var parts := PartsOf(text, heading);
    forall k | 1 <= k < |parts|
      ensures Titled(SectionsOf(text, heading)[k])
    {
      var l :| l in LinesOf(text) && heading(l) == parts[k].title;
    }
  }

  predicate HasTitle(s: Section, title: string) { Titled(s) && s.title.value == title }

  /** Positions below n of the sections with a title, in order. */
  function IndicesOf(sections: seq<Section>, title: string, n: nat): seq<nat>
    requires n <= |sections|
  {
    if n == 0 then []
    else IndicesOf(sections, title, n - 1) + if HasTitle(sections[n - 1], title) then [n - 1] else []
  }

  /** How many sections before n have the title. */
  function CountOf(sections: seq<Section>, title: string, n: nat): nat
    requires n <= |sections|
  {
    |IndicesOf(sections, title, n)|
  }

  /** The new section that old section i is compared with: the one with the same title and the same
      number among its namesakes. */
  function Partner(olds: seq<Section>, news: seq<Section>, i: nat): Option<nat>
    requires i < |olds|
  {
    if !Titled(olds[i]) then None
    else
      var title := olds[i].title.value;
      var candidates := IndicesOf(news, title, |news|);
      var k := CountOf(olds, title, i);
      if k < |candidates| then Some(candidates[k]) else None
  }

  lemma {:induction false} IndicesAreNamesakes(sections: seq<Section>, title: string, n: nat, k: nat)
    requires n <= |sections| && k < CountOf(sections, title, n)
    ensures IndicesOf(sections, title, n)[k] < n
    ensures HasTitle(sections[IndicesOf(sections, title, n)[k]], title)
    ensures CountOf(sections, title, IndicesOf(sections, title, n)[k]) == k
  {
    if k < CountOf(sections, title, n - 1) {
      IndicesAreNamesakes(sections, title, n - 1, k);
    }
  }

  lemma {:induction false} IndexOfNamesake(sections: seq<Section>, title: string, n: nat, j: nat)
    requires j < n <= |sections| && HasTitle(sections[j], title)
    ensures CountOf(sections, title, j) < CountOf(sections, title, n)
    ensures IndicesOf(sections, title, n)[CountOf(sections, title, j)] == j
  {
    if j < n - 1 {
      IndexOfNamesake(sections, title, n - 1, j);
    }
  }

  /** A partner has the same title and is the same number among its namesakes; there is one exactly
      when the new text has enough of them; no two old sections share one. */
  lemma PartnerMatches(olds: seq<Section>, news: seq<Section>, i: nat)
    requires i < |olds| && Titled(olds[i])
    ensures var title := olds[i].title.value;
      && (Partner(olds, news, i).Some? <==> CountOf(olds, title, i) < CountOf(news, title, |news|))
      && (Partner(olds, news, i).Some? ==>
            var j := Partner(olds, news, i).value;
            && j < |news| && HasTitle(news[j], title)
            && CountOf(news, title, j) == CountOf(olds, title, i))
  {
    var title := olds[i].title.value;
    var k := CountOf(olds, title, i);
    if k < CountOf(news, title, |news|) {
      IndicesAreNamesakes(news, title, |news|, k);
    }
  }

  lemma PartnersDiffer(olds: seq<Section>, news: seq<Section>, i: nat, i': nat)
    requires i < i' < |olds|
    requires Partner(olds, news, i).Some? && Partner(olds, news, i').Some?
    ensures Partner(olds, news, i) != Partner(olds, news, i')
  {
    PartnerMatches(olds, news, i);
    PartnerMatches(olds, news, i');
    if olds[i].title == olds[i'].title {
      IndexOfNamesake(olds, olds[i].title.value, i', i);
    }
  }

  /** A new section has an old partner exactly when the old text has enough of its namesakes. */
  lemma PartnerExists(olds: seq<Section>, news: seq<Section>, j: nat)
    requires j < |news| && Titled(news[j])
    ensures (exists i: nat :: i < |olds| && Partner(olds, news, i) == Some(j))
            <==> CountOf(news, news[j].title.value, j) < CountOf(olds, news[j].title.value, |olds|)
  {
    var title := news[j].title.value;
    var k := CountOf(news, title, j);
    IndexOfNamesake(news, title, |news|, j);
    if k < CountOf(olds, title, |olds|) {
      IndicesAreNamesakes(olds, title, |olds|, k);
      var i := IndicesOf(olds, title, |olds|)[k];
      assert Partner(olds, news, i) == Some(j);
    }
    forall i: nat | i < |olds| && Partner(olds, news, i) == Some(j)
      ensures k < CountOf(olds, title, |olds|)
    {
      PartnerMatches(olds, news, i);
      IndexOfNamesake(olds, title, |olds|, i);
    }
  }

  /** How many old sections below n with this title have a partner. */
  function PairsOf(olds: seq<Section>, news: seq<Section>, title: string, n: nat): nat
    requires n <= |olds|
  {
    if n == 0 then 0
    else PairsOf(olds, news, title, n - 1)
         + if HasTitle(olds[n - 1], title) && Partner(olds, news, n - 1).Some? then 1 else 0
  }

  /** Exactly min(old count, new count) pairs form per title. */
  lemma {:induction false} PairsPerTitle(olds: seq<Section>, news: seq<Section>, title: string, n: nat)
    requires n <= |olds|
    ensures PairsOf(olds, news, title, n) == Min(CountOf(olds, title, n), CountOf(news, title, |news|))
  {
    if n > 0 {
      PairsPerTitle(olds, news, title, n - 1);
      if HasTitle(olds[n - 1], title) {
        PartnerMatches(olds, news, n - 1);
      }
    }
  }

  // ---------------------------------------------------------------- what is reported

  datatype Report = Report(hunks: seq<DiffHunk>, summary: DiffSummary)

  function Nothing(): Report { Report([], DiffSummary(0, 0, 0, 0)) }

  function Plus(r: Report, s: Report): Report {
    Report(r.hunks + s.hunks,
           DiffSummary(r.summary.addedLines + s.summary.addedLines, r.summary.removedLines + s.summary.removedLines,
                       r.summary.modifiedLines + s.summary.modifiedLines,
                       r.summary.totalChangedChars + s.summary.totalChangedChars))
  }

  predicate OverCap(a: seq<string>, b: seq<string>) { |a| > DIFF_LINE_CAP || |b| > DIFF_LINE_CAP }

  /** The summary of two bodies. */
  function BodySummary(before: string, after: string): DiffSummary {
    var a, b := LinesOf(before), LinesOf(after);
    if OverCap(a, b) then Approximate(a, b) else Exact(a, b)
  }

  method ComputeDiffSummaryOnly(oldText: string, newText: string) returns (truncated: bool, summary: DiffSummary)
    ensures truncated == OverCap(LinesOf(oldText), LinesOf(newText))
    ensures summary == BodySummary(oldText, newText)
  {
    var oldLines := SplitLines(oldText);
    var newLines := SplitLines(newText);
    if |oldLines| > DIFF_LINE_CAP || |newLines| > DIFF_LINE_CAP {
      truncated := true;
      summary := ApproximateSummaryForTruncated(oldLines, newLines);
    } else {
      truncated := false;
      var ops := BuildEditScript(oldLines, newLines);
      summary := Summarize(ops, oldLines, newLines);
    }
  }

  function PreludeIndex(sections: seq<Section>, k: nat): Option<nat>
    requires k <= |sections|
    decreases |sections| - k
  {
    if k == |sections| then None else if !Titled(sections[k]) then Some(k) else PreludeIndex(sections, k + 1)
  }

  function PreludeBody(sections: seq<Section>): string {
    var k := PreludeIndex(sections, 0);
    if k.Some? && k.value < |sections| then sections[k.value].body else ""
  }

  function PreludeReport(olds: seq<Section>, news: seq<Section>): Report {
    var before, after := PreludeBody(olds), PreludeBody(news);
    if before == after then Nothing()
    else Report([DiffHunk(None, before, after,
                          if before != "" && after != "" then ModifiedText else if after != "" then AddedText else RemovedText)],
                BodySummary(before, after))
  }

  function OldReport(olds: seq<Section>, news: seq<Section>, i: nat): Report
    requires i < |olds|
  {
    if !Titled(olds[i]) then Nothing()
    else match Partner(olds, news, i)
      case None =>
        Report([DiffHunk(olds[i].title, olds[i].body, "", RemovedText)],
               DiffSummary(0, |LinesOf(olds[i].body)|, 0, |olds[i].body|))
      case Some(j) =>
        PartnerMatches(olds, news, i);
        if olds[i].body == news[j].body then Nothing()
        else Report([DiffHunk(olds[i].title, olds[i].body, news[j].body, ModifiedText)],
                    BodySummary(olds[i].body, news[j].body))
  }

  /** A new section without partner is reported once as added. */
  function NewReport(olds: seq<Section>, news: seq<Section>, j: nat): Report
    requires j < |news|
  {
    if !Titled(news[j]) || CountOf(news, news[j].title.value, j) < CountOf(olds, news[j].title.value, |olds|) then Nothing()
    else Report([DiffHunk(news[j].title, "", news[j].body, AddedText)],
                DiffSummary(|LinesOf(news[j].body)|, 0, 0, |news[j].body|))
  }

  function OldReports(olds: seq<Section>, news: seq<Section>, n: nat): Report
    requires n <= |olds|
  {
    if n == 0 then PreludeReport(olds, news) else Plus(OldReports(olds, news, n - 1), OldReport(olds, news, n - 1))
  }

  function SectionReport(olds: seq<Section>, news: seq<Section>, n: nat): Report
    requires n <= |news|
  {
    if n == 0 then OldReports(olds, news, |olds|) else Plus(SectionReport(olds, news, n - 1), NewReport(olds, news, n - 1))
  }

  // ---------------------------------------------------------------- the matching loop

  /** Each title's list holds the positions of its sections below n. */
  ghost predicate Indexed(byTitle: map<string, seq<nat>>, news: seq<Section>, n: nat) {
    && n <= |news|
    && forall t: string :: (if t in byTitle then byTitle[t] else []) == IndicesOf(news, t, n)
  }

  /** After i old sections, each title's list has lost one entry for each old namesake seen. */
  ghost predicate Remaining(byTitle: map<string, seq<nat>>, olds: seq<Section>, news: seq<Section>, i: nat) {
    && i <= |olds|
    && forall t: string ::
         (if t in byTitle then byTitle[t] else [])
         == IndicesOf(news, t, |news|)[Min(CountOf(olds, t, i), CountOf(news, t, |news|))..]
  }

  /** The new sections taken by the first i old ones. */
  ghost function Taken(olds: seq<Section>, news: seq<Section>, i: nat): set<nat>
    requires i <= |olds|
  {
    if i == 0 then {}
    else Taken(olds, news, i - 1)
         + (match Partner(olds, news, i - 1) case None => {} case Some(j) => {j})
  }

  /** Appends to a title's list, starting one if there is none. */
  function Push(byTitle: map<string, seq<nat>>, title: string, k: nat): map<string, seq<nat>> {
    var arr := if title in byTitle then byTitle[title] else [];
    byTitle[title := arr + [k]]
  }

  lemma IndexOne(byTitle: map<string, seq<nat>>, news: seq<Section>, k: nat)
    requires k < |news| && Indexed(byTitle, news, k)
    ensures var s := news[k];
      if Titled(s) then
        Indexed(Push(byTitle, s.title.value, k), news, k + 1)
      else Indexed(byTitle, news, k + 1)
  {
    forall t: string
      ensures IndicesOf(news, t, k + 1) == IndicesOf(news, t, k) + if HasTitle(news[k], t) then [k] else []
    {
    }
  }

  method IndexByTitle(news: seq<Section>) returns (byTitle: map<string, seq<nat>>)
    ensures Indexed(byTitle, news, |news|)
  {
    byTitle := map[];
    assert Indexed(byTitle, news, 0);
    hide Indexed, IndicesOf, Push;
    for k := 0 to |news|
      invariant Indexed(byTitle, news, k)
    {
      IndexOne(byTitle, news, k);
      var s := news[k];
      if Titled(s) {
        byTitle := Push(byTitle, s.title.value, k);
      }
    }
  }

  /** What the head of a title's remaining list is, and what remains without it. */
  lemma TakeCandidate(byTitle: map<string, seq<nat>>, olds: seq<Section>, news: seq<Section>, i: nat)
    requires i < |olds| && Titled(olds[i])
    requires Remaining(byTitle, olds, news, i)
    ensures var title := olds[i].title.value;
      var candidates := if title in byTitle then byTitle[title] else [];
      if |candidates| == 0 then Partner(olds, news, i) == None && Remaining(byTitle, olds, news, i + 1)
      else Partner(olds, news, i) == Some(candidates[0]) && Remaining(byTitle[title := candidates[1..]], olds, news, i + 1)
  {
    var title := olds[i].title.value;
    var all := IndicesOf(news, title, |news|);
    var k := CountOf(olds, title, i);
    if k < |all| {
      assert all[k..][1..] == all[k + 1..];
      assert all[k..][0] == all[k];
    }
  }

  lemma SkipUntitled(byTitle: map<string, seq<nat>>, olds: seq<Section>, news: seq<Section>, i: nat)
    requires i < |olds| && !Titled(olds[i])
    requires Remaining(byTitle, olds, news, i)
    ensures Remaining(byTitle, olds, news, i + 1)
  {
  }

  lemma {:induction false} TakenIs(olds: seq<Section>, news: seq<Section>, i: nat, j: nat)
    requires i <= |olds|
    ensures j in Taken(olds, news, i) <==> exists k: nat :: k < i && Partner(olds, news, k) == Some(j)
  {
    if i > 0 {
      TakenIs(olds, news, i - 1, j);
    }
  }

  method ComparePreludes(olds: seq<Section>, news: seq<Section>) returns (report: Report)
    ensures report == PreludeReport(olds, news)
  {
    var oldPrelude := PreludeIndex(olds, 0);
    var newPrelude := PreludeIndex(news, 0);
    report := Nothing();
    if oldPrelude.Some? || newPrelude.Some? {
      var before := PreludeBody(olds);
      var after := PreludeBody(news);
      if before != after {
        var _, inner := ComputeDiffSummaryOnly(before, after);
        var hunk;
        if before != "" && after != "" {
          hunk := DiffHunk(None, before, after, ModifiedText);
        } else if after != "" {
          hunk := DiffHunk(None, "", after, AddedText);
        } else {
          hunk := DiffHunk(None, before, "", RemovedText);
        }
        report := Report([hunk], inner);
      }
    }
  }

  method CompareSections(olds: seq<Section>, news: seq<Section>) returns (report: Report)
    ensures report == SectionReport(olds, news, |news|)
  {
    hide Remaining, Indexed, Partner, BodySummary, IndicesOf, LinesOf, PreludeReport, Plus;
    var newByTitle := IndexByTitle(news);
    var consumedNew: set<nat> := {};
    report := ComparePreludes(olds, news);
    StartRemaining(newByTitle, olds, news);
    for i := 0 to |olds|
      invariant Remaining(newByTitle, olds, news, i)
      invariant consumedNew == Taken(olds, news, i)
      invariant report == OldReports(olds, news, i)
    {
      var oldSec := olds[i];
      if !Titled(oldSec) {
        SkipUntitled(newByTitle, olds, news, i);
        UntitledHasNoPartner(olds, news, i);
        NothingToAdd(report);
        continue;
      }
      TakeCandidate(newByTitle, olds, news, i);
      var candidates := if oldSec.title.value in newByTitle then newByTitle[oldSec.title.value] else [];
      if |candidates| == 0 {
        var removed := SplitLines(oldSec.body);
        report := Plus(report, Report([DiffHunk(oldSec.title, oldSec.body, "", RemovedText)],
                                      DiffSummary(0, |removed|, 0, |oldSec.body|)));
        continue;
      }
      PartnerMatches(olds, news, i);
      var newSec := candidates[0];
      newByTitle := newByTitle[oldSec.title.value := candidates[1..]];
      consumedNew := consumedNew + {newSec};
      if oldSec.body == news[newSec].body {
        NothingToAdd(report);
        continue;
      }
      var _, inner := ComputeDiffSummaryOnly(oldSec.body, news[newSec].body);
      report := Plus(report, Report([DiffHunk(oldSec.title, oldSec.body, news[newSec].body, ModifiedText)], inner));
    }
    for j := 0 to |news|
      invariant report == SectionReport(olds, news, j)
    {
      NothingToAdd(report);
      var newSec := news[j];
      if !Titled(newSec) {
        continue;
      }
      PartnerExists(olds, news, j);
      TakenIs(olds, news, |olds|, j);
      if j in consumedNew {
        continue;
      }
      var added := SplitLines(newSec.body);
      report := Plus(report, Report([DiffHunk(newSec.title, "", newSec.body, AddedText)],
                                    DiffSummary(|added|, 0, 0, |newSec.body|)));
    }
  }

  lemma StartRemaining(byTitle: map<string, seq<nat>>, olds: seq<Section>, news: seq<Section>)
    requires Indexed(byTitle, news, |news|)
    ensures Remaining(byTitle, olds, news, 0)
  {
  }

  lemma UntitledHasNoPartner(olds: seq<Section>, news: seq<Section>, i: nat)
    requires i < |olds| && !Titled(olds[i])
    ensures Partner(olds, news, i) == None
  {
  }

  lemma NothingToAdd(r: Report)
    ensures Plus(r, Nothing()) == r
  {
    assert r.hunks + [] == r.hunks;
  }

  method ComputeSectionHunks(oldText: string, newText: string, heading: Heading) returns (report: Report)
    ensures report == SectionReport(SectionsOf(oldText, heading), SectionsOf(newText, heading), |SectionsOf(newText, heading)|)
  {
    var oldSections := SplitSections(oldText, heading);
    var newSections := SplitSections(newText, heading);
    report := CompareSections(oldSections, newSections);
  }

  // ---------------------------------------------------------------- accounting

  function BodyLines(sections: seq<Section>, n: nat): nat
    requires n <= |sections|
  {
    if n == 0 then 0 else BodyLines(sections, n - 1) + |LinesOf(sections[n - 1].body)|
  }

  /** Body lines of the titled sections below n that are in `chosen`. */
  ghost function ChosenLines(sections: seq<Section>, chosen: set<nat>, n: nat): nat
    requires n <= |sections|
  {
    if n == 0 then 0
    else ChosenLines(sections, chosen, n - 1)
         + if n - 1 in chosen && Titled(sections[n - 1]) then |LinesOf(sections[n - 1].body)| else 0
  }

  lemma {:induction false} ChooseOneMore(sections: seq<Section>, chosen: set<nat>, j: nat, n: nat)
    requires n <= |sections| && j < |sections| && j !in chosen && Titled(sections[j])
    ensures ChosenLines(sections, chosen + {j}, n)
            == ChosenLines(sections, chosen, n) + if j < n then |LinesOf(sections[j].body)| else 0
  {
    hide LinesOf;
    if n > 0 {
      ChooseOneMore(sections, chosen, j, n - 1);
    }
  }

  function Growth(s: DiffSummary): int { s.addedLines - s.removedLines }

  lemma BodyGrowth(before: string, after: string)
    ensures Growth(BodySummary(before, after)) == |LinesOf(after)| - |LinesOf(before)|
  {
    SummariesAccount(LinesOf(before), LinesOf(after));
  }

  function PreludeLines(sections: seq<Section>): nat { |LinesOf(PreludeBody(sections))| }

  function TitledLines(sections: seq<Section>, n: nat): nat
    requires n <= |sections|
  {
    if n == 0 then 0
    else TitledLines(sections, n - 1) + if Titled(sections[n - 1]) then |LinesOf(sections[n - 1].body)| else 0
  }

  lemma {:induction false} OldGrowth(olds: seq<Section>, news: seq<Section>, n: nat)
    requires n <= |olds|
    ensures Growth(OldReports(olds, news, n).summary)
            == PreludeLines(news) - PreludeLines(olds)
               + ChosenLines(news, Taken(olds, news, n), |news|) - TitledLines(olds, n)
  {
    hide LinesOf, ChosenLines, OldReport, PreludeReport, PreludeLines;
    if n == 0 {
      PreludeGrowth(olds, news);
      NoneChosen(news, |news|);
    } else {
      OldGrowth(olds, news, n - 1);
      OldStepGrowth(olds, news, n - 1);
    }
  }

  lemma PreludeGrowth(olds: seq<Section>, news: seq<Section>)
    ensures Growth(PreludeReport(olds, news).summary) == PreludeLines(news) - PreludeLines(olds)
  {
    hide LinesOf, BodySummary;
    BodyGrowth(PreludeBody(olds), PreludeBody(news));
  }

  lemma {:induction false} NoneChosen(sections: seq<Section>, n: nat)
    requires n <= |sections|
    ensures ChosenLines(sections, {}, n) == 0
  {
    if n > 0 {
      NoneChosen(sections, n - 1);
    }
  }

  lemma OldStepGrowth(olds: seq<Section>, news: seq<Section>, i: nat)
    requires i < |olds|
    ensures Growth(OldReport(olds, news, i).summary)
            == ChosenLines(news, Taken(olds, news, i + 1), |news|) - ChosenLines(news, Taken(olds, news, i), |news|)
               - if Titled(olds[i]) then |LinesOf(olds[i].body)| else 0
  {
    hide LinesOf, BodySummary;
    if Titled(olds[i]) {
      match Partner(olds, news, i) {
        case None =>
          assert Taken(olds, news, i + 1) == Taken(olds, news, i);
        case Some(j) =>
          PartnerMatches(olds, news, i);
          BodyGrowth(olds[i].body, news[j].body);
          TakenIs(olds, news, i, j);
          forall k: nat | k < i
            ensures Partner(olds, news, k) != Some(j)
          {
            if Partner(olds, news, k).Some? {
              PartnersDiffer(olds, news, k, i);
            }
          }
          ChooseOneMore(news, Taken(olds, news, i), j, |news|);
      }
    } else {
      assert Taken(olds, news, i + 1) == Taken(olds, news, i);
    }
  }

  lemma {:induction false} NewGrowth(olds: seq<Section>, news: seq<Section>, n: nat)
    requires n <= |news|
    ensures Growth(SectionReport(olds, news, n).summary)
            == Growth(OldReports(olds, news, |olds|).summary)
               + TitledLines(news, n) - ChosenLines(news, Taken(olds, news, |olds|), n)
  {
    hide LinesOf, IndicesOf, Partner;
    if n > 0 {
      NewGrowth(olds, news, n - 1);
      if Titled(news[n - 1]) {
        PartnerExists(olds, news, n - 1);
        TakenIs(olds, news, |olds|, n - 1);
      }
    }
  }

  lemma {:induction false} UntitledSplit(sections: seq<Section>, n: nat)
    requires 1 <= n <= |sections| && UntitledFirst(sections)
    ensures BodyLines(sections, n) == TitledLines(sections, n) + if Titled(sections[0]) then 0 else |LinesOf(sections[0].body)|
  {
    if n > 1 {
      UntitledSplit(sections, n - 1);
    }
  }

  lemma {:induction false} NoPrelude(sections: seq<Section>, k: nat)
    requires k <= |sections| && forall j :: k <= j < |sections| ==> Titled(sections[j])
    ensures PreludeIndex(sections, k) == None
    decreases |sections| - k
  {
    if k < |sections| {
      NoPrelude(sections, k + 1);
    }
  }

  lemma PreludeIs(sections: seq<Section>)
    requires UntitledFirst(sections)
    ensures PreludeBody(sections) == if sections == [] || Titled(sections[0]) then "" else sections[0].body
  {
    if sections == [] || Titled(sections[0]) {
      NoPrelude(sections, 0);
    }
  }

  lemma NoLinesInNothing()
    ensures LinesOf("") == []
  {
  }

  lemma AllBodyLines(sections: seq<Section>)
    requires UntitledFirst(sections)
    ensures BodyLines(sections, |sections|) == TitledLines(sections, |sections|) + PreludeLines(sections)
  {
    hide LinesOf, PreludeBody;
    PreludeIs(sections);
    NoLinesInNothing();
    if sections != [] {
      UntitledSplit(sections, |sections|);
    }
  }

  /** Over all matched, removed and added sections, added minus removed lines is the difference of the
      total body lines of the two texts. */
  lemma SectionAccounting(oldText: string, newText: string, heading: Heading)
    requires NonEmptyTitles(heading)
    ensures var olds, news := SectionsOf(oldText, heading), SectionsOf(newText, heading);
      var s := SectionReport(olds, news, |news|).summary;
      s.addedLines - s.removedLines == BodyLines(news, |news|) - BodyLines(olds, |olds|)
  {
    var olds, news := SectionsOf(oldText, heading), SectionsOf(newText, heading);
    SplitUntitledFirst(oldText, heading);
    SplitUntitledFirst(newText, heading);
    AllBodyLines(olds);
    AllBodyLines(news);
    OldGrowth(olds, news, |olds|);
    NewGrowth(olds, news, |news|);
  }
}

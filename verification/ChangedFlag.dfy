/** When the envelope of src/cache/diff-engine.ts reports a change, at each granularity. */
module ChangedFlag {
  import opened ChangeHunks
  import opened DiffEngine
  import opened EditScript
  import opened Lcs
  import opened LineSummary
  import opened LineText
  import opened Options
  import opened Sections

  // ---------------------------------------------------------------- lines

  /** `changed` is set for texts with the same lines, and not for texts with different ones, in one case only:
      the texts differ and are too long to compare. */
  lemma LinesChangedExactly(oldText: string, newText: string)
    ensures LinesChanged(oldText, newText) != (LinesOf(oldText) != LinesOf(newText)) <==>
      oldText != newText && LinesOf(oldText) == LinesOf(newText) && |LinesOf(oldText)| > DIFF_LINE_CAP
  {
    hide LinesOf;
  }

  /** For instance any text over the cap to which only a final newline is added. */
  lemma FinalNewlineOverCap(lines: seq<string>)
    requires AllPlain(lines) && |lines| > DIFF_LINE_CAP && lines[|lines| - 1] != ""
    ensures LinesOf(Join(lines)) == LinesOf(Join(lines + [""])) == lines
    ensures LinesChanged(Join(lines), Join(lines + [""]))
  {
    hide LinesOf, Join, AllPlain;
    var longer := lines + [""];
    EmptyLineIsPlain(lines);
    assert longer[..|lines|] == lines;
    LinesOfJoin(lines);
    LinesOfJoin(longer);
    JoinGrows(lines);
  }

  lemma EmptyLineIsPlain(lines: seq<string>)
    requires AllPlain(lines)
    ensures AllPlain(lines + [""])
  {
  }

  lemma {:induction false} JoinGrows(lines: seq<string>)
    requires lines != []
    ensures |Join(lines + [""])| == |Join(lines)| + 1
  {
    if |lines| > 1 {
      JoinGrows(lines[1..]);
      assert (lines + [""])[1..] == lines[1..] + [""];
    } else {
      assert (lines + [""])[1..] == [""];
    }
  }

  // ---------------------------------------------------------------- words

  /** Some run of the word script changes a visible character. */
  ghost predicate VisibleWordChange(oldText: string, newText: string, isSpace: char -> bool) {
    exists k :: 0 <= k < |WordRuns(oldText, newText, isSpace)| && VisibleRun(WordRuns(oldText, newText, isSpace)[k], isSpace)
  }

  function WordRuns(oldText: string, newText: string, isSpace: char -> bool): seq<Run<string>> {
    Runs(LcsScript(TokenizeWords(oldText, isSpace), TokenizeWords(newText, isSpace)))
  }

  predicate VisibleRun(run: Run<string>, isSpace: char -> bool) {
    !Blank(Concat(run.removes), isSpace) || !Blank(Concat(run.adds), isSpace)
  }

  lemma {:induction false} WordHunksWhenVisible(runs: seq<Run<string>>, isSpace: char -> bool)
    ensures WordHunksOf(runs, isSpace) != [] <==> exists k :: 0 <= k < |runs| && VisibleRun(runs[k], isSpace)
  {
    hide Concat, Blank;
    if runs != [] {
      WordHunksWhenVisible(runs[1..], isSpace);
      if k :| 0 <= k < |runs| && VisibleRun(runs[k], isSpace) {
        assert k > 0 ==> runs[1..][k - 1] == runs[k];
      }
      if k :| 0 <= k < |runs[1..]| && VisibleRun(runs[1..][k], isSpace) {
        assert runs[k + 1] == runs[1..][k];
      }
    }
  }

  predicate OverTokenCap(oldText: string, newText: string, isSpace: char -> bool) {
    |TokenizeWords(oldText, isSpace)| > DIFF_TOKEN_CAP || |TokenizeWords(newText, isSpace)| > DIFF_TOKEN_CAP
  }

  /** At word granularity `changed` is set whenever the lines changed, and also for texts with the same lines
      whose word script changes a visible character. */
  lemma WordsChangedExactly(oldText: string, newText: string, heading: Heading, isSpace: char -> bool)
    ensures Changed(oldText, newText, ByWord, heading, isSpace) <==>
      || LinesChanged(oldText, newText)
      || (oldText != newText && !OverTokenCap(oldText, newText, isSpace) && VisibleWordChange(oldText, newText, isSpace))
  {
    hide LinesOf, Exact, LcsScript, Runs, TokenizeWords, WordHunksOf, LineHunksOf;
    var a, b := LinesOf(oldText), LinesOf(newText);
    ExactZero(a, b);
    SummaryShowsChange(oldText, newText);
    LineHunksWhenChanged(a, b);
    WordHunksWhenVisible(WordRuns(oldText, newText, isSpace), isSpace);
    if a == b && |a| > DIFF_LINE_CAP {
      assert OverCap(a, b);
    }
  }

  predicate White(c: char) { c == ' ' || c == '\n' || c == '\r' || c == '\t' }

  const CRLF_LAST := "a\na\r\n"

  const CRLF_FIRST := "a\r\na\n"

  /** For instance two texts of two equal lines whose line endings trade places: no line changes, yet the word
      script moves a word across and `changed` is set. */
  lemma WordsChangedForSameLines(heading: Heading)
    ensures LinesOf(CRLF_LAST) == LinesOf(CRLF_FIRST) == ["a", "a"]
    ensures !LinesChanged(CRLF_LAST, CRLF_FIRST)
    ensures Changed(CRLF_LAST, CRLF_FIRST, ByWord, heading, White)
  {
    SameTwoLines();
    TwoEndings();
    hide LinesOf, TokenizeWords, LcsScript, Runs;
    var runs := WordRuns(CRLF_LAST, CRLF_FIRST, White);
    assert Concat(["a", "\r\n"])[0] == 'a';
    assert VisibleRun(runs[0], White);
    WordsChangedExactly(CRLF_LAST, CRLF_FIRST, heading, White);
    assert CRLF_LAST[1] != CRLF_FIRST[1];
  }

  lemma SameTwoLines()
    ensures LinesOf(CRLF_LAST) == ["a", "a"] && LinesOf(CRLF_FIRST) == ["a", "a"]
  {
    assert ReplaceCrLf("\r\n") == "\n" + ReplaceCrLf("") == "\n";
    assert ReplaceCrLf("a\r\n") == "a" + ReplaceCrLf("\r\n") == "a\n";
    assert ReplaceCrLf("\na\r\n") == "\n" + ReplaceCrLf("a\r\n") == "\na\n";
    assert ReplaceCrLf(CRLF_LAST) == "a" + ReplaceCrLf("\na\r\n") == "a\na\n";
    assert ReplaceCrLf("\n") == "\n" + ReplaceCrLf("") == "\n";
    assert ReplaceCrLf("a\n") == "a" + ReplaceCrLf("\n") == "a\n";
    assert ReplaceCrLf("\r\na\n") == "\n" + ReplaceCrLf("a\n") == "\na\n";
    assert ReplaceCrLf(CRLF_FIRST) == "a" + ReplaceCrLf("\r\na\n") == "a\na\n";
    PlainUnchanged("a\na\n");
    SplitAfterLine("a", "a\n");
    SplitAfterLine("a", "");
    assert "a" + "\n" + "" == "a\n" && "a" + "\n" + "a\n" == "a\na\n";
    assert SplitOnNewline("a\na\n") == ["a"] + (["a"] + [""]);
    assert ["a", "a", ""][..2] == ["a", "a"];
  }

  /** The four tokens of each text, and the runs of their script. */
  lemma TwoEndings()
    ensures TokenizeWords(CRLF_LAST, White) == ["a", "\n", "a", "\r\n"]
    ensures TokenizeWords(CRLF_FIRST, White) == ["a", "\r\n", "a", "\n"]
    ensures WordRuns(CRLF_LAST, CRLF_FIRST, White) == [Run([], ["a", "\r\n"]), Run(["a", "\r\n"], [])]
  {
    hide TokenizeWords, LcsScript, Runs;
    assert Uniform("a", White) && Uniform("\n", White) && Uniform("\r\n", White);
    FourTokens("a", "\n", "a", "\r\n");
    FourTokens("a", "\r\n", "a", "\n");
    hide Uniform, White;
    assert "a" + "\n" + "a" + "\r\n" == CRLF_LAST && "a" + "\r\n" + "a" + "\n" == CRLF_FIRST;
    DifferentTokens();
    SwappedScript("a", "\n", "\r\n");
  }

  lemma DifferentTokens()
    ensures "a" != "\n" && "a" != "\r\n" && "\n" != "\r\n"
  {
    assert "a"[0] != "\n"[0] && "a"[0] != "\r\n"[0] && |"\n"| != |"\r\n"|;
  }

  /** Words and gaps in turn are their own tokens. */
  lemma FourTokens(w: string, x: string, v: string, y: string)
    requires Uniform(w, White) && Uniform(x, White) && Uniform(v, White) && Uniform(y, White)
    requires !White(w[0]) && White(x[0]) && !White(v[0]) && White(y[0])
    ensures TokenizeWords(w + x + v + y, White) == [w, x, v, y]
  {
    assert TokenizeWords("", White) == [];
    assert x != "" && v != "" && y != "";
    hide TokenizeWords, Uniform, White;
    OneToken(y, "");
    assert y + "" == y;
    assert (v + y)[0] == v[0] && (x + (v + y))[0] == x[0];
    OneToken(v, y);
    OneToken(x, v + y);
    OneToken(w, x + (v + y));
    InFours(w, x, v, y);
    InFours([w], [x], [v], [y]);
  }

  lemma InFours<T>(w: seq<T>, x: seq<T>, v: seq<T>, y: seq<T>)
    ensures w + x + v + y == w + (x + (v + y)) && y + [] == y
  {
  }

  /** A run of one kind in front of the other kind is the first token. */
  lemma {:induction false} OneToken(token: string, rest: string)
    requires Uniform(token, White) && (rest != "" ==> White(rest[0]) != White(token[0]))
    ensures TokenizeWords(token + rest, White) == [token] + TokenizeWords(rest, White)
  {
    OneRun(token, rest);
    assert (token + rest)[..|token|] == token && (token + rest)[|token|..] == rest;
  }

  lemma {:induction false} OneRun(token: string, rest: string)
    requires Uniform(token, White) && (rest != "" ==> White(rest[0]) != White(token[0]))
    ensures RunLength(token + rest, White) == |token|
  {
    var text := token + rest;
    if |token| > 1 {
      assert SameKind(token[0], token[1], White);
      assert text[1..] == token[1..] + rest;
      assert Uniform(token[1..], White) by {
        assert forall k :: 0 <= k < |token| - 1 ==> token[1..][k] == token[k + 1];
      }
      OneRun(token[1..], rest);
    } else if rest != "" {
      assert text[1] == rest[0];
    }
  }

  lemma SwappedScript<T>(w: T, x: T, y: T)
    requires w != x && w != y && x != y
    ensures Runs(LcsScript([w, x, w, y], [w, y, w, x])) == [Run([], [w, y]), Run([w, y], [])]
  {
    var a, b := [w, x, w, y], [w, y, w, x];
    SwappedScores(w, x, y);
    assert Backtrack(a, b, 0, 1) == [] + [Insert(w)];
    assert Backtrack(a, b, 0, 2) == [Insert(w)] + [Insert(y)];
    assert Backtrack(a, b, 1, 3) == [Insert(w)] + [Insert(y)] + [Equal(w, w)];
    assert Backtrack(a, b, 2, 4) == [Insert(w)] + [Insert(y)] + [Equal(w, w)] + [Equal(x, x)];
    assert Backtrack(a, b, 3, 4) == [Insert(w)] + [Insert(y)] + [Equal(w, w)] + [Equal(x, x)] + [Delete(w)];
    assert Backtrack(a, b, 4, 4) == [Insert(w)] + [Insert(y)] + [Equal(w, w)] + [Equal(x, x)] + [Delete(w)] + [Delete(y)];
    assert LcsScript(a, b) == [Insert(w), Insert(y), Equal(w, w), Equal(x, x), Delete(w), Delete(y)];
    hide LcsScript, Backtrack;
    SwappedRuns(w, x, y);
  }

  lemma SwappedScores<T>(w: T, x: T, y: T)
    requires w != x && w != y && x != y
    ensures var a, b := [w, x, w, y], [w, y, w, x];
      && Score(a, b, 3, 4) == Score(a, b, 4, 3) == 2
      && Score(a, b, 2, 4) == Score(a, b, 3, 3) == 2
  {
    var a, b := [w, x, w, y], [w, y, w, x];
    assert Score(a, b, 1, 1) == 1 && Score(a, b, 1, 2) == 1 && Score(a, b, 1, 3) == 1;
    assert Score(a, b, 2, 1) == 1 && Score(a, b, 2, 2) == 1;
    assert Score(a, b, 3, 1) == 1 && Score(a, b, 3, 2) == 1;
  }

  lemma SwappedRuns<T>(w: T, x: T, y: T)
    ensures Runs([Insert(w), Insert(y), Equal(w, w), Equal(x, x), Delete(w), Delete(y)]) == [Run([], [w, y]), Run([w, y], [])]
  {
    var ops: seq<EditOp<T>> := [Insert(w), Insert(y), Equal(w, w), Equal(x, x), Delete(w), Delete(y)];
    RunsStep(ops, 0, [], []);
    RunsStep(ops, 1, [], [w]);
    RunsFromClosed(ops[2..], [], [w, y]);
    RunsStep(ops, 2, [], []);
    RunsStep(ops, 3, [], []);
    RunsStep(ops, 4, [], []);
    RunsStep(ops, 5, [w], []);
    RunsFromClosed(ops[6..], [w, y], []);
    RunsAtEnd(ops);
    assert ops[0..] == ops;
    assert [] + [w] == [w] && [w] + [y] == [w, y];
    hide RunsFrom;
  }

  // ---------------------------------------------------------------- sections

  lemma {:induction false} QuietOldCounts(olds: seq<Section>, news: seq<Section>, n: nat)
    requires n <= |olds| && OldReports(olds, news, n).hunks == []
    ensures OldReports(olds, news, n) == Nothing()
  {
    hide PreludeReport, OldReport, Plus;
    if n == 0 {
      QuietPreludeCounts(olds, news);
    } else {
      PlusQuiet(OldReports(olds, news, n - 1), OldReport(olds, news, n - 1));
      QuietOldCounts(olds, news, n - 1);
      QuietPart(olds, news, n - 1);
      NothingToAdd(Nothing());
    }
  }

  lemma PlusQuiet(r: Report, more: Report)
    ensures Plus(r, more).hunks == [] ==> r.hunks == [] && more.hunks == []
  {
  }

  lemma QuietPreludeCounts(olds: seq<Section>, news: seq<Section>)
    ensures PreludeReport(olds, news).hunks == [] ==> PreludeReport(olds, news) == Nothing()
  {
  }

  lemma QuietPart(olds: seq<Section>, news: seq<Section>, i: nat)
    requires i < |olds|
    ensures OldReport(olds, news, i).hunks == [] ==> OldReport(olds, news, i) == Nothing()
  {
  }

  lemma {:induction false} QuietCounts(olds: seq<Section>, news: seq<Section>, n: nat)
    requires n <= |news| && SectionReport(olds, news, n).hunks == []
    ensures SectionReport(olds, news, n) == Nothing()
  {
    hide OldReports, NewReport, Plus;
    if n == 0 {
      QuietOldCounts(olds, news, |olds|);
    } else {
      PlusQuiet(SectionReport(olds, news, n - 1), NewReport(olds, news, n - 1));
      QuietCounts(olds, news, n - 1);
      QuietSurplus(olds, news, n - 1);
      NothingToAdd(Nothing());
    }
  }

  lemma QuietSurplus(olds: seq<Section>, news: seq<Section>, j: nat)
    requires j < |news|
    ensures NewReport(olds, news, j).hunks == [] ==> NewReport(olds, news, j) == Nothing()
  {
  }

  /** At section granularity `changed` is set exactly when the texts differ and are too long to compare, or
      differ before the first heading or in the bodies under some title. */
  lemma SectionsChangedExactly(oldText: string, newText: string, heading: Heading, isSpace: char -> bool)
    ensures var olds, news := SectionsOf(oldText, heading), SectionsOf(newText, heading);
      Changed(oldText, newText, BySection, heading, isSpace) <==>
        && oldText != newText
        && (|| OverCap(LinesOf(oldText), LinesOf(newText))
            || PreludeBody(olds) != PreludeBody(news)
            || exists title: string :: BodiesOf(olds, title) != BodiesOf(news, title))
  {
    hide LinesOf, SectionsOf, SectionReport, BodiesOf, PreludeBody, Exact;
    var olds, news := SectionsOf(oldText, heading), SectionsOf(newText, heading);
    SummaryShowsChange(oldText, newText);
    SectionsSilentExactly(olds, news);
    if SectionReport(olds, news, |news|).hunks == [] {
      QuietCounts(olds, news, |news|);
    }
  }
}

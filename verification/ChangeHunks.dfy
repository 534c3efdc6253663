/** The structured hunks of `computeHunks`: one per run of changed lines, or one per run of changed
    words with whitespace-only runs left out. */
module ChangeHunks {
  import opened EditScript
  import opened Lcs
  import opened LineText
  import opened Options

  datatype ChangeType = ModifiedText | RemovedText | AddedText

  datatype DiffHunk = DiffHunk(sectionTitle: Option<string>, before: string, after: string, changeType: ChangeType)

  // ---------------------------------------------------------------- lines

  function LineHunk(run: Run<string>): DiffHunk {
    if |run.removes| > 0 && |run.adds| > 0 then DiffHunk(None, Join(run.removes), Join(run.adds), ModifiedText)
    else if |run.removes| > 0 then DiffHunk(None, Join(run.removes), "", RemovedText)
    else DiffHunk(None, "", Join(run.adds), AddedText)
  }

  /** Greedily consumes the run of changes at `start`, deletes and inserts in either order. */
  method TakeRun(ops: seq<EditOp<string>>, start: nat) returns (removes: seq<string>, adds: seq<string>, next: nat)
    requires start < |ops| && !ops[start].Equal?
    ensures start < next <= |ops| && |removes| + |adds| > 0
    ensures Runs(ops[start..]) != []
    ensures Runs(ops[start..])[0] == Run(removes, adds) && Runs(ops[start..])[1..] == Runs(ops[next..])
  {
    hide RunsFrom;
    removes, adds := [], [];
    next := start;
    while next < |ops| && !ops[next].Equal?
      invariant start <= next <= |ops| && (start < next ==> |removes| + |adds| > 0)
      invariant start == next ==> removes == adds == []
      invariant RunsFrom(ops[next..], removes, adds) == Runs(ops[start..])
    {
      RunsStep(ops, next, removes, adds);
      if ops[next].Delete? {
        removes := removes + [ops[next].oldLine];
      } else {
        adds := adds + [ops[next].newLine];
      }
      next := next + 1;
    }
    RunsFromClosed(ops[next..], removes, adds);
  }

  lemma EqualSkipped<T>(ops: seq<EditOp<T>>, i: nat)
    requires i < |ops| && ops[i].Equal?
    ensures Runs(ops[i..]) == Runs(ops[i + 1..])
  {
    hide RunsFrom;
    RunsStep(ops, i, [], []);
  }

  function LineHunksOf(runs: seq<Run<string>>): seq<DiffHunk> {
    if runs == [] then [] else [LineHunk(runs[0])] + LineHunksOf(runs[1..])
  }

  lemma LineHunkNext(hunks: seq<DiffHunk>, runs: seq<Run<string>>)
    requires runs != []
    ensures hunks + LineHunksOf(runs) == hunks + [LineHunk(runs[0])] + LineHunksOf(runs[1..])
  {
  }

  method LineHunks(ops: seq<EditOp<string>>) returns (hunks: seq<DiffHunk>)
    ensures hunks == LineHunksOf(Runs(ops))
  {
    RunsAtEnd(ops);
    assert LineHunksOf([]) == [];
    hide RunsFrom, Runs, LineHunksOf, Join;
    hunks := [];
    var i := 0;
    while i < |ops|
      invariant 0 <= i <= |ops|
      invariant hunks + LineHunksOf(Runs(ops[i..])) == LineHunksOf(Runs(ops))
    {
      if ops[i].Equal? {
        EqualSkipped(ops, i);
        i := i + 1;
        continue;
      }
      ghost var start := i;
      var removes, adds;
      removes, adds, i := TakeRun(ops, i);
      LineHunkNext(hunks, Runs(ops[start..]));
      if |removes| > 0 && |adds| > 0 {
        hunks := hunks + [DiffHunk(None, Join(removes), Join(adds), ModifiedText)];
      } else if |removes| > 0 {
        hunks := hunks + [DiffHunk(None, Join(removes), "", RemovedText)];
      } else if |adds| > 0 {
        hunks := hunks + [DiffHunk(None, "", Join(adds), AddedText)];
      }
    }
  }

  lemma {:induction false} RunsNonEmpty<T>(ops: seq<EditOp<T>>, removes: seq<T>, adds: seq<T>)
    ensures forall k :: 0 <= k < |RunsFrom(ops, removes, adds)| ==>
              |RunsFrom(ops, removes, adds)[k].removes| + |RunsFrom(ops, removes, adds)[k].adds| > 0
    decreases |ops|
  {
    if ops != [] {
      match ops[0] {
        case Equal(_, _) => RunsNonEmpty(ops[1..], [], []);
        case Delete(o) => RunsNonEmpty(ops[1..], removes + [o], adds);
        case Insert(n) => RunsNonEmpty(ops[1..], removes, adds + [n]);
      }
    }
  }

  /** There are line hunks exactly when the line lists differ. */
  lemma LineHunksWhenChanged(a: seq<string>, b: seq<string>)
    ensures LineHunksOf(Runs(LcsScript(a, b))) == [] <==> a == b
  {
    var runs := Runs(LcsScript(a, b));
    LineAccounting(a, b);
    RunsNonEmpty(LcsScript(a, b), [], []);
    if runs != [] {
      assert |runs[0].removes| + |runs[0].adds| > 0;
      assert RunCounts(runs) != Counts(0, 0, 0);
    }
  }

  // ---------------------------------------------------------------- words

  predicate SameKind(c: char, d: char, isSpace: char -> bool) { isSpace(c) == isSpace(d) }

  /** Length of the leading run of characters of one kind. */
  function RunLength(text: string, isSpace: char -> bool): (k: nat)
    requires text != ""
    ensures 1 <= k <= |text|
  {
    if |text| == 1 || !SameKind(text[0], text[1], isSpace) then 1 else 1 + RunLength(text[1..], isSpace)
  }

  /** Maximal runs of whitespace and of non-whitespace, in order. */
  function TokenizeWords(text: string, isSpace: char -> bool): seq<string> {
    if text == "" then []
    else var k := RunLength(text, isSpace); [text[..k]] + TokenizeWords(text[k..], isSpace)
  }

  /** `tokens.join('')`. */
  function Concat(tokens: seq<string>): string {
    if tokens == [] then "" else tokens[0] + Concat(tokens[1..])
  }

  ghost predicate Uniform(token: string, isSpace: char -> bool) {
    token != "" && forall k :: 0 <= k < |token| ==> SameKind(token[0], token[k], isSpace)
  }

  ghost predicate KindChangesAfter(tokens: seq<string>, k: int, isSpace: char -> bool) {
    && 0 <= k < |tokens| - 1
    && tokens[k] != "" && tokens[k + 1] != ""
    && !SameKind(tokens[k][0], tokens[k + 1][0], isSpace)
  }

  lemma {:induction false} RunIsMaximal(text: string, isSpace: char -> bool)
    requires text != ""
    ensures var k := RunLength(text, isSpace);
      && Uniform(text[..k], isSpace)
      && (k < |text| ==> !SameKind(text[0], text[k], isSpace))
  {
    if RunLength(text, isSpace) > 1 {
      RunIsMaximal(text[1..], isSpace);
      var k := RunLength(text, isSpace);
      forall j | 0 <= j < k
        ensures SameKind(text[0], text[..k][j], isSpace)
      {
        if j > 0 {
          assert text[..k][j] == text[1..][..k - 1][j - 1];
        }
      }
    }
  }

  /** Tokens are the maximal one-kind runs of the text, and joined they are the text. */
  lemma {:induction false} TokensSpellText(text: string, isSpace: char -> bool)
    ensures var tokens := TokenizeWords(text, isSpace);
      && Concat(tokens) == text
      && (forall k :: 0 <= k < |tokens| ==> Uniform(tokens[k], isSpace))
      && (forall k :: 0 <= k < |tokens| - 1 ==> KindChangesAfter(tokens, k, isSpace))
    decreases |text|
  {
    if text != "" {
      var k := RunLength(text, isSpace);
      RunIsMaximal(text, isSpace);
      TokensSpellText(text[k..], isSpace);
      if k < |text| {
        TokensHead(text[k..], isSpace);
        assert text[k..][0] == text[k];
      }
      var tokens := TokenizeWords(text, isSpace);
      forall j | 0 <= j < |tokens| - 1
        ensures KindChangesAfter(tokens, j, isSpace)
      {
        if j > 0 {
          assert KindChangesAfter(TokenizeWords(text[k..], isSpace), j - 1, isSpace);
        }
      }
      assert text == text[..k] + text[k..];
    }
  }

  lemma TokensHead(text: string, isSpace: char -> bool)
    requires text != ""
    ensures TokenizeWords(text, isSpace) != []
    ensures TokenizeWords(text, isSpace)[0] != "" && TokenizeWords(text, isSpace)[0][0] == text[0]
  {
  }

  /** The two sides of a word script, joined, are the two texts. */
  lemma WordScriptSpellsTexts(oldText: string, newText: string, isSpace: char -> bool)
    ensures var script := LcsScript(TokenizeWords(oldText, isSpace), TokenizeWords(newText, isSpace));
      Concat(OldOf(script)) == oldText && Concat(NewOf(script)) == newText
  {
    TokensSpellText(oldText, isSpace);
    TokensSpellText(newText, isSpace);
    LcsScriptIsMinimal(TokenizeWords(oldText, isSpace), TokenizeWords(newText, isSpace));
  }

  predicate Blank(s: string, isSpace: char -> bool) {
    forall k :: 0 <= k < |s| ==> isSpace(s[k])
  }

  /** At most one hunk for a run: none when both sides are only whitespace. */
  function WordHunk(run: Run<string>, isSpace: char -> bool): seq<DiffHunk> {
    var before, after := Concat(run.removes), Concat(run.adds);
    if Blank(before, isSpace) && Blank(after, isSpace) then []
    else if |run.removes| > 0 && |run.adds| > 0 then [DiffHunk(None, before, after, ModifiedText)]
    else if |run.removes| > 0 then [DiffHunk(None, before, "", RemovedText)]
    else [DiffHunk(None, "", after, AddedText)]
  }

  function WordHunksOf(runs: seq<Run<string>>, isSpace: char -> bool): seq<DiffHunk> {
    if runs == [] then [] else WordHunk(runs[0], isSpace) + WordHunksOf(runs[1..], isSpace)
  }

  lemma WordHunkNext(hunks: seq<DiffHunk>, runs: seq<Run<string>>, isSpace: char -> bool)
    requires runs != []
    ensures hunks + WordHunksOf(runs, isSpace) == hunks + WordHunk(runs[0], isSpace) + WordHunksOf(runs[1..], isSpace)
  {
  }

  method WordHunks(ops: seq<EditOp<string>>, isSpace: char -> bool) returns (hunks: seq<DiffHunk>)
    ensures hunks == WordHunksOf(Runs(ops), isSpace)
  {
    RunsAtEnd(ops);
    assert WordHunksOf([], isSpace) == [];
    hide RunsFrom, Runs, WordHunksOf, WordHunk, Concat, Blank;
    hunks := [];
    var i := 0;
    while i < |ops|
      invariant 0 <= i <= |ops|
      invariant hunks + WordHunksOf(Runs(ops[i..]), isSpace) == WordHunksOf(Runs(ops), isSpace)
    {
      if ops[i].Equal? {
        EqualSkipped(ops, i);
        i := i + 1;
        continue;
      }
      ghost var start := i;
      var removes, adds;
      removes, adds, i := TakeRun(ops, i);
      WordHunkNext(hunks, Runs(ops[start..]), isSpace);
      WordHunkPushed(hunks, removes, adds, isSpace);
      var beforeStr := Concat(removes);
      var afterStr := Concat(adds);
      if Blank(beforeStr, isSpace) && Blank(afterStr, isSpace) {
        continue;
      }
      if |removes| > 0 && |adds| > 0 {
        hunks := hunks + [DiffHunk(None, beforeStr, afterStr, ModifiedText)];
      } else if |removes| > 0 {
        hunks := hunks + [DiffHunk(None, beforeStr, "", RemovedText)];
      } else if |adds| > 0 {
        hunks := hunks + [DiffHunk(None, "", afterStr, AddedText)];
      }
    }
  }

  /** What each branch of the loop pushes for a run. */
  lemma WordHunkPushed(hunks: seq<DiffHunk>, removes: seq<string>, adds: seq<string>, isSpace: char -> bool)
    requires |removes| + |adds| > 0
    ensures var before, after, pushed := Concat(removes), Concat(adds), hunks + WordHunk(Run(removes, adds), isSpace);
      pushed ==
        if Blank(before, isSpace) && Blank(after, isSpace) then hunks
        else if |removes| > 0 && |adds| > 0 then hunks + [DiffHunk(None, before, after, ModifiedText)]
        else if |removes| > 0 then hunks + [DiffHunk(None, before, "", RemovedText)]
        else hunks + [DiffHunk(None, "", after, AddedText)]
  {
  }

  /** What is left of a text without its whitespace. */
  function Visible(s: string, isSpace: char -> bool): string {
    if s == "" then "" else (if isSpace(s[0]) then "" else [s[0]]) + Visible(s[1..], isSpace)
  }

  function AllBefore(hunks: seq<DiffHunk>): string {
    if hunks == [] then "" else hunks[0].before + AllBefore(hunks[1..])
  }

  function AllAfter(hunks: seq<DiffHunk>): string {
    if hunks == [] then "" else hunks[0].after + AllAfter(hunks[1..])
  }

  function AllRemoved(runs: seq<Run<string>>): string {
    if runs == [] then "" else Concat(runs[0].removes) + AllRemoved(runs[1..])
  }

  function AllAdded(runs: seq<Run<string>>): string {
    if runs == [] then "" else Concat(runs[0].adds) + AllAdded(runs[1..])
  }

  lemma {:induction false} VisibleOfConcat(s: string, t: string, isSpace: char -> bool)
    ensures Visible(s + t, isSpace) == Visible(s, isSpace) + Visible(t, isSpace)
  {
    if s == "" {
      assert s + t == t;
    } else {
      assert (s + t)[1..] == s[1..] + t;
      VisibleOfConcat(s[1..], t, isSpace);
    }
  }

  lemma {:induction false} BlankIsInvisible(s: string, isSpace: char -> bool)
    requires Blank(s, isSpace)
    ensures Visible(s, isSpace) == ""
  {
    if s != "" {
      BlankIsInvisible(s[1..], isSpace);
    }
  }

  lemma WordHunkIsVisible(run: Run<string>, isSpace: char -> bool)
    ensures Visible(AllBefore(WordHunk(run, isSpace)), isSpace) == Visible(Concat(run.removes), isSpace)
    ensures Visible(AllAfter(WordHunk(run, isSpace)), isSpace) == Visible(Concat(run.adds), isSpace)
  {
    var hunk := WordHunk(run, isSpace);
    if hunk == [] {
      BlankIsInvisible(Concat(run.removes), isSpace);
      BlankIsInvisible(Concat(run.adds), isSpace);
    } else {
      assert AllBefore(hunk) == hunk[0].before + "" == hunk[0].before;
      assert AllAfter(hunk) == hunk[0].after + "" == hunk[0].after;
    }
  }

  lemma {:induction false} AllBeforeOfConcat(s: seq<DiffHunk>, t: seq<DiffHunk>)
    ensures AllBefore(s + t) == AllBefore(s) + AllBefore(t)
    ensures AllAfter(s + t) == AllAfter(s) + AllAfter(t)
  {
    if s == [] {
      assert s + t == t;
    } else {
      assert (s + t)[1..] == s[1..] + t;
      AllBeforeOfConcat(s[1..], t);
    }
  }

  /** Leaving out whitespace-only runs loses no visible character on either side. */
  lemma {:induction false} WordHunksKeepVisible(runs: seq<Run<string>>, isSpace: char -> bool)
    ensures var hunks := WordHunksOf(runs, isSpace);
      && Visible(AllBefore(hunks), isSpace) == Visible(AllRemoved(runs), isSpace)
      && Visible(AllAfter(hunks), isSpace) == Visible(AllAdded(runs), isSpace)
  {
    if runs != [] {
      var head, tail := WordHunk(runs[0], isSpace), WordHunksOf(runs[1..], isSpace);
      WordHunksKeepVisible(runs[1..], isSpace);
      WordHunkIsVisible(runs[0], isSpace);
      AllBeforeOfConcat(head, tail);
      hide Visible, AllBefore, AllAfter, WordHunk, Concat;
      VisibleOfConcat(AllBefore(head), AllBefore(tail), isSpace);
      VisibleOfConcat(AllAfter(head), AllAfter(tail), isSpace);
      VisibleOfConcat(Concat(runs[0].removes), AllRemoved(runs[1..]), isSpace);
      VisibleOfConcat(Concat(runs[0].adds), AllAdded(runs[1..]), isSpace);
    }
  }
}

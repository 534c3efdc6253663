/** What the hunks of src/cache/diff-engine.ts say about the script they come from: where each stands, which lines or
    words it shows on which side, and of which kind it is. */
module HunkReading {
  import opened ChangeHunks
  import opened EditScript
  import opened Layout
  import opened LineText
  import opened Options
  import opened Positions

  // ---------------------------------------------------------------- runs by position

  datatype Span = Span(from: nat, end: nat)

  ghost predicate AllChanges<T>(ops: seq<EditOp<T>>, from: nat, end: nat)
    requires end <= |ops|
  {
    forall i :: from <= i < end ==> !ops[i].Equal?
  }

  /** A stretch of changes that cannot be made longer on either side. */
  ghost predicate Maximal<T>(ops: seq<EditOp<T>>, span: Span) {
    && span.from < span.end <= |ops|
    && AllChanges(ops, span.from, span.end)
    && (span.from == 0 || ops[span.from - 1].Equal?)
    && (span.end == |ops| || ops[span.end].Equal?)
  }

  /** The spans are all the maximal stretches of changes from op `start` on, in order. */
  ghost predicate Stretches<T>(ops: seq<EditOp<T>>, start: nat, spans: seq<Span>) {
    && (forall k :: 0 <= k < |spans| ==> start <= spans[k].from && Maximal(ops, spans[k]))
    && (forall j, k :: 0 <= j < k < |spans| ==> spans[j].end < spans[k].from)
    && (forall i :: start <= i < |ops| && !ops[i].Equal? ==> exists k :: 0 <= k < |spans| && spans[k].from <= i < spans[k].end)
  }

  /** Each run holds the old and the new side of its stretch. */
  ghost predicate RunsAt<T>(ops: seq<EditOp<T>>, spans: seq<Span>, runs: seq<Run<T>>) {
    && |runs| == |spans|
    && (forall k :: 0 <= k < |spans| ==>
          && spans[k].from <= spans[k].end <= |ops|
          && runs[k] == Run(OldOf(ops[spans[k].from..spans[k].end]), NewOf(ops[spans[k].from..spans[k].end])))
  }

  /** Where the changes that begin at `start` end. */
  function StretchEnd<T>(ops: seq<EditOp<T>>, start: nat): (end: nat)
    requires start <= |ops|
    ensures start <= end <= |ops| && (end == |ops| || ops[end].Equal?)
    ensures forall i :: start <= i < end ==> !ops[i].Equal?
    decreases |ops| - start
  {
    if start == |ops| || ops[start].Equal? then start else StretchEnd(ops, start + 1)
  }

  lemma OneOpMore<T>(ops: seq<EditOp<T>>, from: nat, end: nat)
    requires from <= end < |ops|
    ensures OldOf(ops[from..end + 1]) == if ops[end].Insert? then OldOf(ops[from..end]) else OldOf(ops[from..end]) + [ops[end].oldLine]
    ensures NewOf(ops[from..end + 1]) == if ops[end].Delete? then NewOf(ops[from..end]) else NewOf(ops[from..end]) + [ops[end].newLine]
  {
    assert ops[from..end + 1] == ops[from..end] + [ops[end]];
    OldOfConcat(ops[from..end], [ops[end]]);
    NewOfConcat(ops[from..end], [ops[end]]);
  }

  lemma {:induction false} ReadRun<T>(ops: seq<EditOp<T>>, from: nat, end: nat)
    requires from <= end <= |ops| && AllChanges(ops, from, end)
    ensures RunsFrom(ops[end..], OldOf(ops[from..end]), NewOf(ops[from..end])) == Runs(ops[from..])
    ensures |OldOf(ops[from..end])| + |NewOf(ops[from..end])| >= end - from
    decreases end
  {
    hide RunsFrom;
    if from == end {
      assert ops[from..end] == [];
    } else {
      ReadRun(ops, from, end - 1);
      OneOpMore(ops, from, end - 1);
      RunsStep(ops, end - 1, OldOf(ops[from..end - 1]), NewOf(ops[from..end - 1]));
      hide OldOf, NewOf, Runs;
    }
  }

  lemma AddStretch<T>(ops: seq<EditOp<T>>, start: nat, end: nat, spans: seq<Span>)
    requires start <= |ops| && Maximal(ops, Span(start, end)) && Stretches(ops, end, spans)
    ensures Stretches(ops, start, [Span(start, end)] + spans)
  {
    var all := [Span(start, end)] + spans;
    forall i | start <= i < |ops| && !ops[i].Equal?
      ensures exists k :: 0 <= k < |all| && all[k].from <= i < all[k].end
    {
      if i < end {
        assert all[0].from <= i < all[0].end;
      } else {
        var k :| 0 <= k < |spans| && spans[k].from <= i < spans[k].end;
        assert all[k + 1] == spans[k];
      }
    }
    forall k | 0 <= k < |spans|
      ensures end < spans[k].from
    {
      assert Maximal(ops, spans[k]);
    }
  }

  lemma {:induction false} RunsFromHere<T>(ops: seq<EditOp<T>>, start: nat) returns (spans: seq<Span>)
    requires start <= |ops| && (start == 0 || start == |ops| || ops[start - 1].Equal? || ops[start].Equal?)
    ensures Stretches(ops, start, spans) && RunsAt(ops, spans, Runs(ops[start..]))
    decreases |ops| - start
  {
    hide RunsFrom, OldOf, NewOf, Runs, Stretches, RunsAt;
    if start == |ops| {
      RunsAtEnd(ops);
      spans := [];
      NoStretch(ops, start);
    } else if ops[start].Equal? {
      EqualSkipped(ops, start);
      spans := RunsFromHere(ops, start + 1);
      EqualBefore(ops, start, spans);
    } else {
      var end := StretchEnd(ops, start);
      var rest := RunsFromHere(ops, end);
      FirstRun(ops, start, end);
      AddStretch(ops, start, end, rest);
      AddRun(ops, Span(start, end), rest, Runs(ops[end..]));
      spans := [Span(start, end)] + rest;
    }
  }

  lemma NoStretch<T>(ops: seq<EditOp<T>>, start: nat)
    requires start == |ops|
    ensures Stretches(ops, start, []) && RunsAt(ops, [], [])
  {
  }

  lemma EqualBefore<T>(ops: seq<EditOp<T>>, start: nat, spans: seq<Span>)
    requires start < |ops| && ops[start].Equal? && Stretches(ops, start + 1, spans)
    ensures Stretches(ops, start, spans)
  {
  }

  lemma FirstRun<T>(ops: seq<EditOp<T>>, start: nat, end: nat)
    requires start < end <= |ops| && AllChanges(ops, start, end) && (end == |ops| || ops[end].Equal?)
    ensures Runs(ops[start..]) == [Run(OldOf(ops[start..end]), NewOf(ops[start..end]))] + Runs(ops[end..])
  {
    hide RunsFrom, Runs;
    ReadRun(ops, start, end);
    RunsFromClosed(ops[end..], OldOf(ops[start..end]), NewOf(ops[start..end]));
  }

  lemma AddRun<T>(ops: seq<EditOp<T>>, span: Span, spans: seq<Span>, runs: seq<Run<T>>)
    requires span.from <= span.end <= |ops| && RunsAt(ops, spans, runs)
    ensures RunsAt(ops, [span] + spans, [Run(OldOf(ops[span.from..span.end]), NewOf(ops[span.from..span.end]))] + runs)
  {
    hide OldOf, NewOf;
  }

  /** The runs of a script are the old and new sides of its maximal stretches of changes, in order. */
  lemma RunsAreStretches<T>(ops: seq<EditOp<T>>) returns (spans: seq<Span>)
    ensures Stretches(ops, 0, spans) && RunsAt(ops, spans, Runs(ops))
  {
    spans := RunsFromHere(ops, 0);
    assert ops[0..] == ops;
  }

  // ---------------------------------------------------------------- line hunks

  /** The hunk shows the removed parts as its text before and the added ones as its text after, with the separator
      between neighbours; a side without parts is empty, and the kind tells which sides have some. */
  ghost predicate Shows(hunk: DiffHunk, removes: seq<string>, adds: seq<string>, separator: string) {
    && hunk.sectionTitle == None
    && Joined(hunk.before, removes, separator) && Joined(hunk.after, adds, separator)
    && (hunk.changeType == RemovedText <==> adds == [])
    && (hunk.changeType == AddedText <==> removes == [])
  }

  ghost predicate ShowsSpan(ops: seq<EditOp<string>>, hunk: DiffHunk, span: Span, separator: string) {
    && span.from <= span.end <= |ops|
    && Shows(hunk, OldOf(ops[span.from..span.end]), NewOf(ops[span.from..span.end]), separator)
  }

  lemma LineHunkShows(run: Run<string>)
    requires |run.removes| + |run.adds| > 0
    ensures Shows(LineHunk(run), run.removes, run.adds, "\n")
  {
    hide Joined;
    JoinLaysOut(run.removes);
    JoinLaysOut(run.adds);
  }

  lemma {:induction false} LineHunkAt(runs: seq<Run<string>>)
    ensures |LineHunksOf(runs)| == |runs|
    ensures forall k :: 0 <= k < |runs| ==> LineHunksOf(runs)[k] == LineHunk(runs[k])
  {
    if runs != [] {
      LineHunkAt(runs[1..]);
    }
  }

  lemma ChangesCount<T>(ops: seq<EditOp<T>>, span: Span)
    requires Maximal(ops, span)
    ensures |OldOf(ops[span.from..span.end])| + |NewOf(ops[span.from..span.end])| > 0
  {
    ReadRun(ops, span.from, span.end);
  }

  /** One line hunk for each maximal stretch of changes, in order: the stretch's deleted lines before, its inserted
      lines after. */
  lemma LineHunksRead(ops: seq<EditOp<string>>) returns (spans: seq<Span>)
    ensures Stretches(ops, 0, spans) && |LineHunksOf(Runs(ops))| == |spans|
    ensures forall k :: 0 <= k < |spans| ==> ShowsSpan(ops, LineHunksOf(Runs(ops))[k], spans[k], "\n")
  {
    spans := RunsAreStretches(ops);
    var runs := Runs(ops);
    LineHunkAt(runs);
    hide Runs, LineHunksOf, Shows, LineHunk, OldOf, NewOf, Maximal;
    forall k | 0 <= k < |spans|
      ensures ShowsSpan(ops, LineHunksOf(runs)[k], spans[k], "\n")
    {
      ChangesCount(ops, spans[k]);
      LineHunkShows(runs[k]);
    }
  }

  // ---------------------------------------------------------------- word hunks

  lemma {:induction false} ConcatLaysOut(tokens: seq<string>)
    ensures Joined(Concat(tokens), tokens, "")
  {
    hide Joined;
    if tokens == [] {
      NoPart<char>("");
    } else if |tokens| == 1 {
      OnePart(tokens[0], "");
      assert tokens == [tokens[0]];
      assert Concat(tokens) == tokens[0] + Concat(tokens[1..]) == tokens[0];
    } else {
      ConcatLaysOut(tokens[1..]);
      OneMorePart(tokens[0], Concat(tokens[1..]), tokens[1..], "");
      assert tokens == [tokens[0]] + tokens[1..];
      assert tokens[0] + "" == tokens[0];
    }
  }

  ghost predicate OnlySpace(tokens: seq<string>, isSpace: char -> bool) {
    forall t, c :: t in tokens && c in t ==> isSpace(c)
  }

  lemma {:induction false} BlankConcat(tokens: seq<string>, isSpace: char -> bool)
    ensures Blank(Concat(tokens), isSpace) <==> OnlySpace(tokens, isSpace)
  {
    if tokens != [] {
      BlankConcat(tokens[1..], isSpace);
      BlankInTwo(tokens[0], Concat(tokens[1..]), isSpace);
      assert tokens == [tokens[0]] + tokens[1..];
      hide Concat, Blank;
      assert OnlySpace(tokens, isSpace) <==> OnlySpace([tokens[0]], isSpace) && OnlySpace(tokens[1..], isSpace);
      OneToken(tokens[0], isSpace);
    }
  }

  lemma BlankInTwo(s: string, t: string, isSpace: char -> bool)
    ensures Blank(s + t, isSpace) <==> Blank(s, isSpace) && Blank(t, isSpace)
  {
    var st := s + t;
    if Blank(st, isSpace) {
      assert forall k :: 0 <= k < |s| ==> s[k] == st[k];
      assert forall k :: 0 <= k < |t| ==> t[k] == st[|s| + k];
    }
  }

  lemma OneToken(token: string, isSpace: char -> bool)
    ensures Blank(token, isSpace) <==> OnlySpace([token], isSpace)
  {
    assert token in [token];
    if OnlySpace([token], isSpace) {
      assert forall k :: 0 <= k < |token| ==> token[k] in token;
    }
  }

  /** The stretch changes some character that is not white space. */
  ghost predicate Visibly(ops: seq<EditOp<string>>, span: Span, isSpace: char -> bool)
    requires span.from <= span.end <= |ops|
  {
    !(OnlySpace(OldOf(ops[span.from..span.end]), isSpace) && OnlySpace(NewOf(ops[span.from..span.end]), isSpace))
  }

  lemma WordHunkShows(run: Run<string>, isSpace: char -> bool)
    requires |run.removes| + |run.adds| > 0
    ensures if OnlySpace(run.removes, isSpace) && OnlySpace(run.adds, isSpace) then WordHunk(run, isSpace) == []
      else |WordHunk(run, isSpace)| == 1 && Shows(WordHunk(run, isSpace)[0], run.removes, run.adds, "")
  {
    hide Joined, OnlySpace, Blank;
    BlankConcat(run.removes, isSpace);
    BlankConcat(run.adds, isSpace);
    ConcatLaysOut(run.removes);
    ConcatLaysOut(run.adds);
    assert Concat([]) == "";
    hide Concat;
  }

  lemma {:induction false} WordHunksSplit(runs: seq<Run<string>>, isSpace: char -> bool)
    requires runs != []
    ensures WordHunksOf(runs, isSpace) == WordHunksOf(runs[..|runs| - 1], isSpace) + WordHunk(runs[|runs| - 1], isSpace)
  {
    hide WordHunk;
    var n := |runs| - 1;
    if n > 0 {
      WordHunksSplit(runs[1..], isSpace);
      assert runs[1..][..n - 1] == runs[..n][1..];
      assert runs[1..][n - 1] == runs[n];
    } else {
      assert runs[1..] == [];
    }
  }

  /** The listed spans are those that change something visible. */
  ghost predicate VisibleAt(ops: seq<EditOp<string>>, spans: seq<Span>, at: seq<nat>, isSpace: char -> bool) {
    && Increasing(at, |spans|)
    && (forall k :: 0 <= k < |spans| ==> spans[k].from <= spans[k].end <= |ops| && (k in at <==> Visibly(ops, spans[k], isSpace)))
  }

  /** The hunks show the listed spans, in order. */
  ghost predicate ShownAt(ops: seq<EditOp<string>>, hunks: seq<DiffHunk>, spans: seq<Span>, at: seq<nat>) {
    && |hunks| == |at|
    && (forall i :: 0 <= i < |at| ==> at[i] < |spans| && ShowsSpan(ops, hunks[i], spans[at[i]], ""))
  }

  lemma {:induction false} WordHunksFor(ops: seq<EditOp<string>>, spans: seq<Span>, runs: seq<Run<string>>, isSpace: char -> bool) returns (at: seq<nat>)
    requires RunsAt(ops, spans, runs) && forall k :: 0 <= k < |runs| ==> |runs[k].removes| + |runs[k].adds| > 0
    ensures VisibleAt(ops, spans, at, isSpace) && ShownAt(ops, WordHunksOf(runs, isSpace), spans, at)
  {
    if runs == [] {
      at := [];
    } else {
      hide OldOf, NewOf, WordHunk, WordHunksOf, VisibleAt, ShownAt, OnlySpace, Shows;
      var n := |runs| - 1;
      WordHunksSplit(runs, isSpace);
      var front := WordHunksFor(ops, spans[..n], runs[..n], isSpace);
      WordHunkShows(runs[n], isSpace);
      var visible := Visibly(ops, spans[n], isSpace);
      at := Extended(front, n, visible);
      OneVisibleMore(ops, spans, front, n, isSpace);
      OneShownMore(ops, WordHunksOf(runs[..n], isSpace), WordHunk(runs[n], isSpace), spans, front, n, visible);
    }
  }

  lemma OneVisibleMore(ops: seq<EditOp<string>>, spans: seq<Span>, at: seq<nat>, n: nat, isSpace: char -> bool)
    requires n + 1 == |spans| && spans[n].from <= spans[n].end <= |ops| && VisibleAt(ops, spans[..n], at, isSpace)
    ensures VisibleAt(ops, spans, Extended(at, n, Visibly(ops, spans[n], isSpace)), isSpace)
  {
    hide Visibly;
    ExtendedIncreases(at, n, Visibly(ops, spans[n], isSpace));
    hide Increasing;
    assert forall k :: 0 <= k < n ==> spans[..n][k] == spans[k];
  }

  lemma OneShownMore(ops: seq<EditOp<string>>, hunks: seq<DiffHunk>, more: seq<DiffHunk>, spans: seq<Span>, at: seq<nat>, n: nat, visible: bool)
    requires n + 1 == |spans| && ShownAt(ops, hunks, spans[..n], at)
    requires if visible then |more| == 1 && ShowsSpan(ops, more[0], spans[n], "") else more == []
    ensures ShownAt(ops, hunks + more, spans, Extended(at, n, visible))
  {
    hide ShowsSpan;
  }

  /** One word hunk for each maximal stretch that changes a visible character, in order: the stretch's deleted tokens
      before, its inserted tokens after. */
  lemma WordHunksRead(ops: seq<EditOp<string>>, isSpace: char -> bool) returns (spans: seq<Span>, at: seq<nat>)
    ensures Stretches(ops, 0, spans) && VisibleAt(ops, spans, at, isSpace) && ShownAt(ops, WordHunksOf(Runs(ops), isSpace), spans, at)
  {
    spans := RunsAreStretches(ops);
    hide Runs, WordHunksOf, VisibleAt, ShownAt, OldOf, NewOf, Maximal;
    forall k | 0 <= k < |spans|
      ensures |Runs(ops)[k].removes| + |Runs(ops)[k].adds| > 0
    {
      ChangesCount(ops, spans[k]);
    }
    at := WordHunksFor(ops, spans, Runs(ops), isSpace);
  }
}

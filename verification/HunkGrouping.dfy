/** Grouping an edit script into hunks with context: the loop of `renderUnifiedDiff`, an exact
    description of where its hunks start and end, and what follows from it. */
module HunkGrouping {
  import opened Lcs
  import opened EditScript
  import opened Options

  const CONTEXT: nat := 3

  datatype Group<T> = Group(ops: seq<EditOp<T>>, oldStart: int, newStart: int)

  /** Where a hunk lies in the script: ops [start, end), whose first change is at `first` and whose
      last change is at `last - 1`. */
  datatype Span = Span(start: nat, first: nat, last: nat, end: nat)

  // ---------------------------------------------------------------- description

  ghost predicate AllEqual<T>(ops: seq<EditOp<T>>, lo: nat, hi: nat) {
    lo <= hi <= |ops| && forall k :: lo <= k < hi ==> ops[k].Equal?
  }

  /** One of the seven ops from lo on is a change. */
  ghost predicate ChangesSoon<T>(ops: seq<EditOp<T>>, lo: nat) {
    exists k :: lo <= k <= lo + 2 * CONTEXT && k < |ops| && !ops[k].Equal?
  }

  /** Fewer than seven equal lines in a row anywhere between lo and hi. */
  ghost predicate ShortRuns<T>(ops: seq<EditOp<T>>, lo: nat, hi: nat) {
    forall k: nat :: lo <= k && k + 2 * CONTEXT < hi ==> ChangesSoon(ops, k)
  }

  ghost function GroupAt<T>(ops: seq<EditOp<T>>, s: Span): Group<T>
    requires s.start <= s.end <= |ops|
  {
    Group(ops[s.start..s.end], 1 + |OldOf(ops[..s.start])|, 1 + |NewOf(ops[..s.start])|)
  }

  /** The span starts and ends its changes as it says, with equal ops only as context at both ends. */
  ghost predicate Shaped<T>(ops: seq<EditOp<T>>, s: Span) {
    && s.start <= s.first < s.last <= s.end <= |ops|
    && !ops[s.first].Equal? && !ops[s.last - 1].Equal?
    && AllEqual(ops, s.start, s.first)
    && AllEqual(ops, s.last, s.end)
    && ShortRuns(ops, s.first, s.last)
  }

  /** Where the changes before span k end. */
  function PreviousLast(spans: seq<Span>, k: nat): nat
    requires k <= |spans|
  {
    if k == 0 then 0 else spans[k - 1].last
  }

  /** How much leading context a gap of equal lines leaves: the first hunk takes up to three lines,
      a later one up to three of those past the sixth. */
  function LeadLength(k: nat, gap: nat): int {
    Min(CONTEXT, if k == 0 then gap else gap - 2 * CONTEXT)
  }

  /** Span `s`, as number k, begins where the gap since the previous changes says. */
  ghost predicate Led<T>(ops: seq<EditOp<T>>, spans: seq<Span>, k: nat, s: Span)
    requires k <= |spans|
  {
    var from := PreviousLast(spans, k);
    && AllEqual(ops, from, s.first)
    && (k > 0 ==> s.first - from > 2 * CONTEXT)
    && s.first - s.start == LeadLength(k, s.first - from)
  }

  ghost predicate Placed<T>(ops: seq<EditOp<T>>, groups: seq<Group<T>>, spans: seq<Span>, k: nat)
    requires k < |spans| && |groups| == |spans|
  {
    && Shaped(ops, spans[k])
    && groups[k] == GroupAt(ops, spans[k])
    && Led(ops, spans, k, spans[k])
  }

  /** Every hunk but the last closes after exactly three context lines. */
  ghost predicate ClosedAt<T>(ops: seq<EditOp<T>>, groups: seq<Group<T>>, spans: seq<Span>, n: nat)
    requires n <= |spans|
  {
    && |groups| == |spans|
    && (forall k: nat :: k < n ==> Placed(ops, groups, spans, k))
    && (forall k: nat :: k < n ==> spans[k].end == spans[k].last + CONTEXT)
  }

  /** The exact grouping; GroupingIsUnique shows that there is no other. */
  ghost predicate IsGrouping<T>(ops: seq<EditOp<T>>, groups: seq<Group<T>>, spans: seq<Span>) {
    && |groups| == |spans|
    && AllEqual(ops, PreviousLast(spans, |spans|), |ops|)
    && if spans == [] then true
       else
         var n := |spans| - 1;
         && ClosedAt(ops, groups, spans, n)
         && Placed(ops, groups, spans, n)
         && spans[n].end == spans[n].last + Min(CONTEXT, |ops| - spans[n].last)
  }

  ghost predicate Groups<T>(ops: seq<EditOp<T>>, groups: seq<Group<T>>) {
    exists spans: seq<Span> :: IsGrouping(ops, groups, spans)
  }

  // ---------------------------------------------------------------- the loop

  ghost predicate LineNumbers<T>(ops: seq<EditOp<T>>, i: nat, oldLine: int, newLine: int) {
    i <= |ops| && oldLine == 1 + |OldOf(ops[..i])| && newLine == 1 + |NewOf(ops[..i])|
  }

  /** No hunk is open after i ops. */
  ghost predicate Outside<T>(ops: seq<EditOp<T>>, i: nat, groups: seq<Group<T>>, spans: seq<Span>, pending: seq<EditOp<T>>) {
    && i <= |ops|
    && ClosedAt(ops, groups, spans, |spans|)
    && var from := PreviousLast(spans, |spans|);
       && AllEqual(ops, from, i)
       && (spans != [] ==> i - from > 2 * CONTEXT)
       && |pending| == LeadLength(|spans|, i - from)
       && pending == ops[i - |pending|..i]
  }

  /** A hunk is open after i ops; its changes so far end at cur.last. */
  ghost predicate Inside<T>(ops: seq<EditOp<T>>, i: nat, groups: seq<Group<T>>, spans: seq<Span>,
                            cur: Span, current: Group<T>, trailing: int) {
    && i <= |ops| && cur.end == i
    && ClosedAt(ops, groups, spans, |spans|)
    && Shaped(ops, cur)
    && current == GroupAt(ops, cur)
    && Led(ops, spans, |spans|, cur)
    && trailing == i - cur.last <= 2 * CONTEXT
  }

  lemma CountLine<T>(ops: seq<EditOp<T>>, i: nat, oldLine: int, newLine: int)
    requires i < |ops| && LineNumbers(ops, i, oldLine, newLine)
    ensures LineNumbers(ops, i + 1, if ops[i].Insert? then oldLine else oldLine + 1,
                        if ops[i].Delete? then newLine else newLine + 1)
  {
    assert ops[..i + 1] == ops[..i] + [ops[i]];
    ScriptPush(ops[..i], ops[i]);
  }

  lemma StartOutside<T>(ops: seq<EditOp<T>>)
    ensures Outside(ops, 0, [], [], [])
    ensures LineNumbers(ops, 0, 1, 1)
  {
  }

  /** An equal op with no hunk open joins the pending context, which drops its oldest line beyond three. */
  lemma StayOutside<T>(ops: seq<EditOp<T>>, i: nat, groups: seq<Group<T>>, spans: seq<Span>, pending: seq<EditOp<T>>)
    requires i < |ops| && ops[i].Equal?
    requires Outside(ops, i, groups, spans, pending)
    ensures var pushed := pending + [ops[i]];
      Outside(ops, i + 1, groups, spans, if |pushed| > CONTEXT then pushed[1..] else pushed)
  {
    hide ClosedAt;
    var start := i - |pending|;
    var pushed := pending + [ops[i]];
    assert pushed == ops[start..i + 1];
    if |pushed| > CONTEXT {
      assert pushed[1..] == ops[start + 1..i + 1];
    }
  }

  /** A change with no hunk open starts one with the pending context in front. */
  lemma OpenHunk<T>(ops: seq<EditOp<T>>, i: nat, groups: seq<Group<T>>, spans: seq<Span>, pending: seq<EditOp<T>>,
                    oldLine: int, newLine: int)
    requires i < |ops| && !ops[i].Equal?
    requires Outside(ops, i, groups, spans, pending)
    requires LineNumbers(ops, i, oldLine, newLine)
    ensures |pending| <= CONTEXT && |pending| <= i
    ensures Inside(ops, i + 1, groups, spans, Span(i - |pending|, i, i + 1, i + 1),
                   Group(pending + [ops[i]], oldLine - |pending|, newLine - |pending|), 0)
  {
    var start := i - |pending|;
    assert ops[..i] == ops[..start] + pending;
    OldOfConcat(ops[..start], pending);
    NewOfConcat(ops[..start], pending);
    EqualSides(pending);
    assert ops[start..i + 1] == pending + [ops[i]];
  }

  lemma {:induction false} EqualSides<T>(ops: seq<EditOp<T>>)
    requires AllEqual(ops, 0, |ops|)
    ensures |OldOf(ops)| == |NewOf(ops)| == |ops|
  {
    if ops != [] {
      EqualSides(ops[1..]);
    }
  }

  /** A change inside a hunk extends it. */
  lemma ExtendHunk<T>(ops: seq<EditOp<T>>, i: nat, groups: seq<Group<T>>, spans: seq<Span>,
                      cur: Span, current: Group<T>, trailing: int)
    requires i < |ops| && !ops[i].Equal?
    requires Inside(ops, i, groups, spans, cur, current, trailing)
    ensures Inside(ops, i + 1, groups, spans, cur.(last := i + 1, end := i + 1),
                   current.(ops := current.ops + [ops[i]]), 0)
  {
    assert ops[cur.start..i + 1] == ops[cur.start..i] + [ops[i]];
    forall k: nat | cur.first <= k && k + 2 * CONTEXT < i + 1
      ensures ChangesSoon(ops, k)
    {
      if k + 2 * CONTEXT >= cur.last {
        var d := if k < cur.last then cur.last - 1 else i;
        assert !ops[d].Equal?;
      }
    }
  }

  /** An equal op inside a hunk, not yet the seventh in a row. */
  lemma TrailHunk<T>(ops: seq<EditOp<T>>, i: nat, groups: seq<Group<T>>, spans: seq<Span>,
                     cur: Span, current: Group<T>, trailing: int)
    requires i < |ops| && ops[i].Equal? && trailing + 1 <= 2 * CONTEXT
    requires Inside(ops, i, groups, spans, cur, current, trailing)
    ensures Inside(ops, i + 1, groups, spans, cur.(end := i + 1),
                   current.(ops := current.ops + [ops[i]]), trailing + 1)
  {
    assert ops[cur.start..i + 1] == ops[cur.start..i] + [ops[i]];
  }

  lemma PlacedGrows<T>(ops: seq<EditOp<T>>, groups: seq<Group<T>>, spans: seq<Span>, g: Group<T>, s: Span, k: nat)
    requires |groups| == |spans| && k < |spans| && Placed(ops, groups, spans, k)
    ensures Placed(ops, groups + [g], spans + [s], k)
  {
    hide ShortRuns, GroupAt;
  }

  lemma PlacedLast<T>(ops: seq<EditOp<T>>, groups: seq<Group<T>>, spans: seq<Span>, g: Group<T>, s: Span)
    requires |groups| == |spans| && Shaped(ops, s) && g == GroupAt(ops, s) && Led(ops, spans, |spans|, s)
    ensures Placed(ops, groups + [g], spans + [s], |spans|)
  {
    hide ShortRuns, GroupAt;
  }

  lemma SliceOfSlice<T>(s: seq<T>, lo: nat, hi: nat, n: nat)
    requires lo <= hi <= |s| && n <= hi - lo
    ensures s[lo..hi][..n] == s[lo..lo + n]
  {
  }

  /** The seventh equal op in a row closes the hunk after its third, and alone starts the next context. */
  lemma CloseHunk<T>(ops: seq<EditOp<T>>, i: nat, groups: seq<Group<T>>, spans: seq<Span>,
                     cur: Span, current: Group<T>, trailing: int)
    requires i < |ops| && ops[i].Equal? && trailing + 1 > 2 * CONTEXT
    requires Inside(ops, i, groups, spans, cur, current, trailing)
    ensures var pushed := current.ops + [ops[i]];
      var keep := |pushed| - (trailing + 1 - CONTEXT);
      && 0 <= keep <= |pushed|
      && Outside(ops, i + 1, groups + [current.(ops := pushed[..keep])],
                 spans + [cur.(end := cur.last + CONTEXT)], [ops[i]])
  {
    var pushed := current.ops + [ops[i]];
    var keep := |pushed| - (trailing + 1 - CONTEXT);
    var s := cur.(end := cur.last + CONTEXT);
    assert pushed == ops[cur.start..i + 1];
    SliceOfSlice(ops, s.start, i + 1, keep);
    assert s.start + keep == s.end;
    var groups', spans' := groups + [current.(ops := pushed[..keep])], spans + [s];
    PlacedLast(ops, groups, spans, groups'[|groups|], s);
    hide Placed;
    forall k: nat | k < |spans'|
      ensures Placed(ops, groups', spans', k)
    {
      if k < |spans| {
        PlacedGrows(ops, groups, spans, groups'[|groups|], s, k);
      }
    }
  }

  /** At the end an open hunk is cut after at most three trailing context lines. */
  lemma FinishHunk<T>(ops: seq<EditOp<T>>, groups: seq<Group<T>>, spans: seq<Span>,
                      cur: Span, current: Group<T>, trailing: int)
    requires Inside(ops, |ops|, groups, spans, cur, current, trailing)
    ensures var keep := if trailing > CONTEXT then |current.ops| - (trailing - CONTEXT) else |current.ops|;
      && 0 <= keep <= |current.ops|
      && IsGrouping(ops, groups + [current.(ops := current.ops[..keep])],
                    spans + [cur.(end := cur.last + Min(CONTEXT, trailing))])
  {
    var keep := if trailing > CONTEXT then |current.ops| - (trailing - CONTEXT) else |current.ops|;
    var s := cur.(end := cur.last + Min(CONTEXT, trailing));
    SliceOfSlice(ops, s.start, |ops|, keep);
    assert s.start + keep == s.end;
    var groups', spans' := groups + [current.(ops := current.ops[..keep])], spans + [s];
    PlacedLast(ops, groups, spans, groups'[|groups|], s);
    hide Placed;
    forall k: nat | k < |spans'|
      ensures Placed(ops, groups', spans', k)
    {
      if k < |spans| {
        PlacedGrows(ops, groups, spans, groups'[|groups|], s, k);
      }
    }
  }

  lemma FinishOutside<T>(ops: seq<EditOp<T>>, groups: seq<Group<T>>, spans: seq<Span>, pending: seq<EditOp<T>>)
    requires Outside(ops, |ops|, groups, spans, pending)
    ensures IsGrouping(ops, groups, spans)
  {
    if spans != [] {
      assert Placed(ops, groups, spans, |spans| - 1);
    }
  }

  /** How many equal ops end the list. */
  method TrailingEquals<T>(ops: seq<EditOp<T>>) returns (trail: nat)
    ensures trail <= |ops|
    ensures AllEqual(ops, |ops| - trail, |ops|)
    ensures trail < |ops| ==> !ops[|ops| - trail - 1].Equal?
  {
    trail := 0;
    var k := |ops| - 1;
    while k >= 0
      invariant -1 <= k < |ops| && trail == |ops| - 1 - k
      invariant AllEqual(ops, |ops| - trail, |ops|)
    {
      if !ops[k].Equal? {
        break;
      }
      trail := trail + 1;
      k := k - 1;
    }
  }

  /** The trailing count inside a hunk is the number of equal ops that end it. */
  lemma TrailIs<T>(ops: seq<EditOp<T>>, i: nat, groups: seq<Group<T>>, spans: seq<Span>,
                   cur: Span, current: Group<T>, trailing: int, trail: nat)
    requires Inside(ops, i, groups, spans, cur, current, trailing)
    requires trail <= |current.ops|
    requires AllEqual(current.ops, |current.ops| - trail, |current.ops|)
    requires trail < |current.ops| ==> !current.ops[|current.ops| - trail - 1].Equal?
    ensures trail == trailing
  {
    var k := cur.last - 1 - cur.start;
    assert current.ops[k] == ops[cur.last - 1];
  }

  method GroupOps<T>(ops: seq<EditOp<T>>) returns (groups: seq<Group<T>>, ghost spans: seq<Span>)
    ensures IsGrouping(ops, groups, spans)
    ensures Groups(ops, groups)
  {
    hide IsGrouping, Outside, Inside, LineNumbers, AllEqual;
    groups, spans := [], [];
    var oldLine, newLine := 1, 1;
    var pendingContext: seq<EditOp<T>> := [];
    var current: Option<Group<T>> := None;
    var trailingEquals := 0;
    ghost var cur := Span(0, 0, 0, 0);
    StartOutside(ops);
    for i := 0 to |ops|
      invariant LineNumbers(ops, i, oldLine, newLine)
      invariant current.None? ==> Outside(ops, i, groups, spans, pendingContext)
      invariant current.Some? ==> Inside(ops, i, groups, spans, cur, current.value, trailingEquals)
    {
      var op := ops[i];
      CountLine(ops, i, oldLine, newLine);
      if op.Equal? {
        if current.Some? {
          var pushed := current.value.ops + [op];
          if trailingEquals + 1 > 2 * CONTEXT {
            CloseHunk(ops, i, groups, spans, cur, current.value, trailingEquals);
            var keep := |pushed| - (trailingEquals + 1 - CONTEXT);
            groups := groups + [current.value.(ops := pushed[..keep])];
            spans := spans + [cur.(end := cur.last + CONTEXT)];
            current := None;
            trailingEquals := 0;
            pendingContext := [op];
          } else {
            TrailHunk(ops, i, groups, spans, cur, current.value, trailingEquals);
            cur := cur.(end := i + 1);
            current := Some(current.value.(ops := pushed));
            trailingEquals := trailingEquals + 1;
          }
        } else {
          StayOutside(ops, i, groups, spans, pendingContext);
          pendingContext := pendingContext + [op];
          if |pendingContext| > CONTEXT {
            pendingContext := pendingContext[1..];
          }
        }
        oldLine := oldLine + 1;
        newLine := newLine + 1;
      } else {
        if current.None? {
          OpenHunk(ops, i, groups, spans, pendingContext, oldLine, newLine);
          var leadingContext := pendingContext;
          var oldStart := oldLine - |leadingContext|;
          var newStart := newLine - |leadingContext|;
          current := Some(Group(leadingContext + [op], oldStart, newStart));
          cur := Span(i - |leadingContext|, i, i + 1, i + 1);
          pendingContext := [];
        } else {
          ExtendHunk(ops, i, groups, spans, cur, current.value, trailingEquals);
          cur := cur.(last := i + 1, end := i + 1);
          current := Some(current.value.(ops := current.value.ops + [op]));
        }
        trailingEquals := 0;
        if op.Delete? {
          oldLine := oldLine + 1;
        } else {
          newLine := newLine + 1;
        }
      }
    }
    if current.Some? {
      var trail := TrailingEquals(current.value.ops);
      TrailIs(ops, |ops|, groups, spans, cur, current.value, trailingEquals, trail);
      FinishHunk(ops, groups, spans, cur, current.value, trailingEquals);
      var tail := |current.value.ops|;
      var kept := current.value.ops;
      if trail > CONTEXT {
        kept := kept[..tail - (trail - CONTEXT)];
      }
      assert kept == current.value.ops[..|kept|];
      groups := groups + [current.value.(ops := kept)];
      spans := spans + [cur.(end := cur.last + Min(CONTEXT, trailingEquals))];
    } else {
      FinishOutside(ops, groups, spans, pendingContext);
    }
  }

  // ---------------------------------------------------------------- what the grouping gives

  ghost predicate InSpan(spans: seq<Span>, k: nat, i: nat) {
    k < |spans| && spans[k].start <= i < spans[k].end
  }

  lemma PlacedAll<T>(ops: seq<EditOp<T>>, groups: seq<Group<T>>, spans: seq<Span>, k: nat)
    requires IsGrouping(ops, groups, spans) && k < |spans|
    ensures Placed(ops, groups, spans, k)
    ensures k < |spans| - 1 ==> spans[k].end == spans[k].last + CONTEXT
    ensures spans[k].end <= spans[k].last + CONTEXT
  {
  }

  /** Consecutive hunks leave out at least three equal lines. */
  lemma HunksApart<T>(ops: seq<EditOp<T>>, groups: seq<Group<T>>, spans: seq<Span>, k: nat)
    requires IsGrouping(ops, groups, spans) && k + 1 < |spans|
    ensures spans[k].end + CONTEXT <= spans[k + 1].start
    ensures AllEqual(ops, spans[k].end, spans[k + 1].start)
  {
    PlacedAll(ops, groups, spans, k);
    PlacedAll(ops, groups, spans, k + 1);
    hide ShortRuns, GroupAt, IsGrouping;
  }

  lemma {:induction false} HunksOrdered<T>(ops: seq<EditOp<T>>, groups: seq<Group<T>>, spans: seq<Span>, j: nat, k: nat)
    requires IsGrouping(ops, groups, spans) && j < k < |spans|
    ensures spans[j].end + CONTEXT <= spans[k].start
    decreases k - j
  {
    HunksApart(ops, groups, spans, k - 1);
    if j < k - 1 {
      HunksOrdered(ops, groups, spans, j, k - 1);
      PlacedAll(ops, groups, spans, k - 1);
    }
  }

  lemma {:induction false} FindHunk<T>(ops: seq<EditOp<T>>, groups: seq<Group<T>>, spans: seq<Span>, i: nat, n: nat) returns (k: nat)
    requires IsGrouping(ops, groups, spans)
    requires n <= |spans| && i < |ops| && !ops[i].Equal?
    requires i < PreviousLast(spans, n)
    ensures k < n && spans[k].first <= i < spans[k].last
  {
    PlacedAll(ops, groups, spans, n - 1);
    if spans[n - 1].first <= i {
      k := n - 1;
    } else {
      k := FindHunk(ops, groups, spans, i, n - 1);
    }
  }

  /** Every change lies in exactly one hunk. */
  lemma EachChangeInOneHunk<T>(ops: seq<EditOp<T>>, groups: seq<Group<T>>, spans: seq<Span>, i: nat)
    requires IsGrouping(ops, groups, spans)
    requires i < |ops| && !ops[i].Equal?
    ensures exists k: nat :: InSpan(spans, k, i)
    ensures forall j: nat, k: nat :: InSpan(spans, j, i) && InSpan(spans, k, i) ==> j == k
  {
    var k := FindHunk(ops, groups, spans, i, |spans|);
    PlacedAll(ops, groups, spans, k);
    assert InSpan(spans, k, i);
    forall j: nat, k: nat | InSpan(spans, j, i) && InSpan(spans, k, i)
      ensures j == k
    {
      if j < k {
        HunksOrdered(ops, groups, spans, j, k);
      } else if k < j {
        HunksOrdered(ops, groups, spans, k, j);
      }
    }
  }

  /** Each hunk is a contiguous slice with a change in it, at most three context lines at either end,
      and never more than six equal lines between two of its changes. */
  lemma HunkShape<T>(ops: seq<EditOp<T>>, groups: seq<Group<T>>, spans: seq<Span>, k: nat)
    requires IsGrouping(ops, groups, spans) && k < |spans|
    ensures var s := spans[k];
      && s.start <= s.first < s.last <= s.end <= |ops|
      && groups[k].ops == ops[s.start..s.end]
      && !ops[s.first].Equal? && !ops[s.last - 1].Equal?
      && s.first - s.start <= CONTEXT && s.end - s.last <= CONTEXT
      && (forall lo: nat, hi: nat :: s.first <= lo && hi <= s.last && AllEqual(ops, lo, hi) ==> hi - lo <= 2 * CONTEXT)
  {
    PlacedAll(ops, groups, spans, k);
    var s := spans[k];
    forall lo: nat, hi: nat | s.first <= lo && hi <= s.last && AllEqual(ops, lo, hi)
      ensures hi - lo <= 2 * CONTEXT
    {
      if hi - lo > 2 * CONTEXT {
        assert ChangesSoon(ops, lo);
      }
    }
  }

  /** A hunk leads with all three context lines exactly when three equal lines stand before it, or nine
      since the changes of the hunk before. */
  lemma FullLeadExactly<T>(ops: seq<EditOp<T>>, groups: seq<Group<T>>, spans: seq<Span>, k: nat)
    requires IsGrouping(ops, groups, spans) && k < |spans|
    ensures var from, s := PreviousLast(spans, k), spans[k];
      && AllEqual(ops, from, s.first)
      && (s.first - s.start == CONTEXT <==> s.first - from >= if k == 0 then CONTEXT else 3 * CONTEXT)
  {
    PlacedAll(ops, groups, spans, k);
  }

  /** Two changes with seven equal lines between them. */
  const SEVEN_APART: seq<EditOp<nat>> :=
    [Delete(0), Equal(1, 1), Equal(2, 2), Equal(3, 3), Equal(4, 4), Equal(5, 5), Equal(6, 6), Equal(7, 7), Insert(8)]

  /** Their second hunk leads with one context line only. */
  lemma ShortLead()
    ensures var spans := [Span(0, 0, 1, 4), Span(7, 8, 9, 9)];
      && IsGrouping(SEVEN_APART, [GroupAt(SEVEN_APART, spans[0]), GroupAt(SEVEN_APART, spans[1])], spans)
      && spans[1].first - spans[1].start == 1 < CONTEXT
  {
    var ops, spans := SEVEN_APART, [Span(0, 0, 1, 4), Span(7, 8, 9, 9)];
    var groups := [GroupAt(ops, spans[0]), GroupAt(ops, spans[1])];
    assert |ops| == 9 && ops[0].Delete? && ops[8].Insert? && forall k :: 1 <= k < 8 ==> ops[k].Equal?;
    hide GroupAt;
    assert Shaped(ops, spans[0]) && Shaped(ops, spans[1]);
    assert Placed(ops, groups, spans, 0) && Placed(ops, groups, spans, 1);
  }

  // ---------------------------------------------------------------- no other grouping

  /** Where the changes of span k end and what follows: the end of the script, or at least seven equal lines. */
  lemma AfterLast<T>(ops: seq<EditOp<T>>, groups: seq<Group<T>>, spans: seq<Span>, k: nat)
    requires IsGrouping(ops, groups, spans) && k < |spans|
    ensures Shaped(ops, spans[k])
    ensures spans[k].end == spans[k].last + Min(CONTEXT, |ops| - spans[k].last)
    ensures AllEqual(ops, spans[k].last, |ops|)
      || (spans[k].last + 2 * CONTEXT < |ops| && AllEqual(ops, spans[k].last, spans[k].last + 2 * CONTEXT + 1))
  {
    PlacedAll(ops, groups, spans, k);
    if k + 1 < |spans| {
      PlacedAll(ops, groups, spans, k + 1);
    } else {
      NothingAfter(ops, groups, spans);
    }
    EndOfSpan(ops, groups, spans, k);
    hide IsGrouping, ShortRuns, GroupAt, ClosedAt;
  }

  lemma EndOfSpan<T>(ops: seq<EditOp<T>>, groups: seq<Group<T>>, spans: seq<Span>, k: nat)
    requires IsGrouping(ops, groups, spans) && k < |spans|
    ensures spans[k].end == if k + 1 < |spans| then spans[k].last + CONTEXT else spans[k].last + Min(CONTEXT, |ops| - spans[k].last)
  {
    hide Placed, AllEqual;
  }

  /** What ends the changes of a hunk: a change, then the end of the script or seven equal lines. */
  ghost predicate EndsAt<T>(ops: seq<EditOp<T>>, first: nat, last: nat) {
    && first < last <= |ops| && !ops[last - 1].Equal? && ShortRuns(ops, first, last)
    && (AllEqual(ops, last, |ops|) || (last + 2 * CONTEXT < |ops| && AllEqual(ops, last, last + 2 * CONTEXT + 1)))
  }

  /** The changes of a hunk cannot go on past a place where another grouping ends them. */
  lemma EndsNoLater<T>(ops: seq<EditOp<T>>, first: nat, last: nat, other: nat)
    requires EndsAt(ops, first, last) && EndsAt(ops, first, other)
    ensures other <= last
  {
    assert last + 2 * CONTEXT < other ==> ChangesSoon(ops, last);
  }

  /** What follows from where the previous changes end. */
  ghost predicate Follows<T>(ops: seq<EditOp<T>>, from: nat, k: nat, s: Span) {
    && from <= s.first < |ops| && AllEqual(ops, from, s.first) && !ops[s.first].Equal?
    && EndsAt(ops, s.first, s.last)
    && s.start == s.first - LeadLength(k, s.first - from)
    && s.end == s.last + Min(CONTEXT, |ops| - s.last)
  }

  lemma SpanFollows<T>(ops: seq<EditOp<T>>, groups: seq<Group<T>>, spans: seq<Span>, k: nat)
    requires IsGrouping(ops, groups, spans) && k < |spans|
    ensures Follows(ops, PreviousLast(spans, k), k, spans[k])
  {
    PlacedAll(ops, groups, spans, k);
    AfterLast(ops, groups, spans, k);
    hide IsGrouping, ShortRuns, GroupAt;
  }

  lemma SameFollower<T>(ops: seq<EditOp<T>>, from: nat, k: nat, s: Span, t: Span)
    requires Follows(ops, from, k, s) && Follows(ops, from, k, t)
    ensures s == t
  {
    hide EndsAt;
    assert s.first == t.first;
    EndsNoLater(ops, s.first, s.last, t.last);
    EndsNoLater(ops, s.first, t.last, s.last);
  }

  lemma SameNextSpan<T>(ops: seq<EditOp<T>>, gs: seq<Group<T>>, ss: seq<Span>, hs: seq<Group<T>>, ts: seq<Span>, k: nat)
    requires IsGrouping(ops, gs, ss) && IsGrouping(ops, hs, ts)
    requires k < |ss| && k < |ts| && ss[..k] == ts[..k]
    ensures ss[k] == ts[k]
  {
    hide IsGrouping, Follows;
    assert k > 0 ==> ss[..k][k - 1] == ss[k - 1] && ts[..k][k - 1] == ts[k - 1];
    assert PreviousLast(ss, k) == PreviousLast(ts, k);
    SpanFollows(ops, gs, ss, k);
    SpanFollows(ops, hs, ts, k);
    SameFollower(ops, PreviousLast(ss, k), k, ss[k], ts[k]);
  }

  lemma {:induction false} SameSpans<T>(ops: seq<EditOp<T>>, gs: seq<Group<T>>, ss: seq<Span>, hs: seq<Group<T>>, ts: seq<Span>, k: nat)
    requires IsGrouping(ops, gs, ss) && IsGrouping(ops, hs, ts) && k <= |ss| && k <= |ts|
    ensures ss[..k] == ts[..k]
  {
    if k > 0 {
      SameSpans(ops, gs, ss, hs, ts, k - 1);
      SameNextSpan(ops, gs, ss, hs, ts, k - 1);
      assert ss[..k] == ss[..k - 1] + [ss[k - 1]] && ts[..k] == ts[..k - 1] + [ts[k - 1]];
    }
  }

  lemma NothingAfter<T>(ops: seq<EditOp<T>>, groups: seq<Group<T>>, spans: seq<Span>)
    requires IsGrouping(ops, groups, spans)
    ensures AllEqual(ops, PreviousLast(spans, |spans|), |ops|)
  {
  }

  /** No grouping stops while there are changes left that another one places. */
  lemma NoFewerSpans<T>(ops: seq<EditOp<T>>, gs: seq<Group<T>>, ss: seq<Span>, hs: seq<Group<T>>, ts: seq<Span>)
    requires IsGrouping(ops, gs, ss) && IsGrouping(ops, hs, ts)
    ensures |ss| >= |ts|
  {
    hide IsGrouping, ShortRuns, GroupAt;
    NothingAfter(ops, gs, ss);
    var k := |ss|;
    if k < |ts| {
      SameSpans(ops, gs, ss, hs, ts, k);
      assert k > 0 ==> ss[..k][k - 1] == ss[k - 1] && ts[..k][k - 1] == ts[k - 1];
      assert PreviousLast(ss, k) == PreviousLast(ts, k);
      PlacedAll(ops, hs, ts, k);
    }
  }

  /** A script has one grouping: the description leaves the loop no choice. */
  lemma GroupingIsUnique<T>(ops: seq<EditOp<T>>, gs: seq<Group<T>>, ss: seq<Span>, hs: seq<Group<T>>, ts: seq<Span>)
    requires IsGrouping(ops, gs, ss) && IsGrouping(ops, hs, ts)
    ensures gs == hs && ss == ts
  {
    NoFewerSpans(ops, gs, ss, hs, ts);
    NoFewerSpans(ops, hs, ts, gs, ss);
    SameSpans(ops, gs, ss, hs, ts, |ss|);
    assert ss[..|ss|] == ss && ts[..|ts|] == ts;
    forall k | 0 <= k < |ss|
      ensures gs[k] == hs[k]
    {
      PlacedAll(ops, gs, ss, k);
      PlacedAll(ops, hs, ts, k);
    }
  }
}

/** What a unified patch means: hunks that replace a stretch of the old lines at a stated position.
    Applying the hunks of a grouped edit script gives the new lines, and applying them in reverse
    gives the old lines back. */
module UnifiedPatch {
  import opened Lcs
  import opened EditScript
  import opened HunkGrouping
  import opened Options

  datatype PatchLine<T> = Context(line: T) | Removed(line: T) | Added(line: T)

  datatype Hunk<T> = Hunk(oldStart: int, oldLen: nat, newStart: int, newLen: nat, lines: seq<PatchLine<T>>)

  function OldSide<T>(lines: seq<PatchLine<T>>): seq<T> {
    if lines == [] then []
    else (if lines[0].Added? then [] else [lines[0].line]) + OldSide(lines[1..])
  }

  function NewSide<T>(lines: seq<PatchLine<T>>): seq<T> {
    if lines == [] then []
    else (if lines[0].Removed? then [] else [lines[0].line]) + NewSide(lines[1..])
  }

  /** Applies hunks to the old lines, of which `done` are consumed while `made` new lines exist.
      Every stated number and every context or removed line is checked; a mismatch is a failure. */
  function ApplyFrom<T(==)>(hunks: seq<Hunk<T>>, before: seq<T>, done: nat, made: nat): Option<seq<T>>
    requires done <= |before|
    decreases |hunks|
  {
    if hunks == [] then Some(before[done..])
    else
      var h := hunks[0];
      var from := h.oldStart - 1;
      if !(done <= from && from + h.oldLen <= |before|) then None
      else if |OldSide(h.lines)| != h.oldLen || |NewSide(h.lines)| != h.newLen then None
      else if before[from..from + h.oldLen] != OldSide(h.lines) then None
      else if h.newStart - 1 != made + (from - done) then None
      else
        var rest := ApplyFrom(hunks[1..], before, from + h.oldLen, made + (from - done) + h.newLen);
        if rest.None? then None
        else Some(before[done..from] + NewSide(h.lines) + rest.value)
  }

  function Apply<T(==)>(hunks: seq<Hunk<T>>, before: seq<T>): Option<seq<T>> {
    ApplyFrom(hunks, before, 0, 0)
  }

  function FlipLine<T>(line: PatchLine<T>): PatchLine<T> {
    match line
    case Context(l) => Context(l)
    case Removed(l) => Added(l)
    case Added(l) => Removed(l)
  }

  function FlipLines<T>(lines: seq<PatchLine<T>>): seq<PatchLine<T>> {
    if lines == [] then [] else [FlipLine(lines[0])] + FlipLines(lines[1..])
  }

  function FlipHunks<T>(hunks: seq<Hunk<T>>): seq<Hunk<T>> {
    if hunks == [] then []
    else
      var h := hunks[0];
      [Hunk(h.newStart, h.newLen, h.oldStart, h.oldLen, FlipLines(h.lines))] + FlipHunks(hunks[1..])
  }

  /** Applying a patch in reverse: additions and removals trade places, as do the two numberings. */
  function ApplyReverse<T(==)>(hunks: seq<Hunk<T>>, after: seq<T>): Option<seq<T>> {
    Apply(FlipHunks(hunks), after)
  }

  // ---------------------------------------------------------------- hunks of a grouped script

  /** How an op is printed. */
  function LineOf<T>(op: EditOp<T>): PatchLine<T> {
    match op
    case Equal(o, _) => Context(o)
    case Delete(o) => Removed(o)
    case Insert(n) => Added(n)
  }

  function LinesOfOps<T>(ops: seq<EditOp<T>>): seq<PatchLine<T>> {
    if ops == [] then [] else [LineOf(ops[0])] + LinesOfOps(ops[1..])
  }

  function HunkOf<T>(g: Group<T>): Hunk<T> {
    Hunk(g.oldStart, |OldOf(g.ops)|, g.newStart, |NewOf(g.ops)|, LinesOfOps(g.ops))
  }

  function HunksOf<T>(groups: seq<Group<T>>): seq<Hunk<T>> {
    if groups == [] then [] else [HunkOf(groups[0])] + HunksOf(groups[1..])
  }

  lemma {:induction false} SidesOfLines<T>(ops: seq<EditOp<T>>)
    requires Sound(ops)
    ensures OldSide(LinesOfOps(ops)) == OldOf(ops)
    ensures NewSide(LinesOfOps(ops)) == NewOf(ops)
  {
    if ops != [] {
      assert Sound(ops[1..]);
      SidesOfLines(ops[1..]);
      assert LinesOfOps(ops)[1..] == LinesOfOps(ops[1..]);
    }
  }

  lemma {:induction false} EqualStretch<T>(ops: seq<EditOp<T>>)
    requires Sound(ops) && AllEqual(ops, 0, |ops|)
    ensures OldOf(ops) == NewOf(ops)
  {
    if ops != [] {
      assert Sound(ops[1..]);
      EqualStretch(ops[1..]);
    }
  }

  /** Both sides of a stretch of the script, read off by line numbers. */
  lemma OldStretch<T>(ops: seq<EditOp<T>>, lo: nat, hi: nat)
    requires lo <= hi <= |ops|
    ensures |OldOf(ops[..lo])| + |OldOf(ops[lo..hi])| == |OldOf(ops[..hi])| <= |OldOf(ops)|
    ensures OldOf(ops)[|OldOf(ops[..lo])|..|OldOf(ops[..hi])|] == OldOf(ops[lo..hi])
  {
    assert ops[..hi] == ops[..lo] + ops[lo..hi];
    assert ops == ops[..hi] + ops[hi..];
    OldOfConcat(ops[..lo], ops[lo..hi]);
    OldOfConcat(ops[..hi], ops[hi..]);
  }

  lemma NewStretch<T>(ops: seq<EditOp<T>>, lo: nat, hi: nat)
    requires lo <= hi <= |ops|
    ensures |NewOf(ops[..lo])| + |NewOf(ops[lo..hi])| == |NewOf(ops[..hi])|
    ensures NewOf(ops[lo..]) == NewOf(ops[lo..hi]) + NewOf(ops[hi..])
  {
    assert ops[..hi] == ops[..lo] + ops[lo..hi];
    assert ops[lo..] == ops[lo..hi] + ops[hi..];
    NewOfConcat(ops[..lo], ops[lo..hi]);
    NewOfConcat(ops[lo..hi], ops[hi..]);
  }

  /** What applying needs from the grouping: slices in order, numbered by position, equal ops between. */
  ghost predicate Tiles<T>(ops: seq<EditOp<T>>, groups: seq<Group<T>>, spans: seq<Span>, p: nat)
    decreases |spans|
  {
    && p <= |ops| && |groups| == |spans|
    && if spans == [] then AllEqual(ops, p, |ops|)
       else
         var s := spans[0];
         && p <= s.start <= s.end <= |ops|
         && AllEqual(ops, p, s.start)
         && groups[0] == GroupAt(ops, s)
         && Tiles(ops, groups[1..], spans[1..], s.end)
  }

  lemma {:induction false} GroupingTiles<T>(ops: seq<EditOp<T>>, groups: seq<Group<T>>, spans: seq<Span>, k: nat)
    requires IsGrouping(ops, groups, spans) && k <= |spans|
    ensures Tiles(ops, groups[k..], spans[k..], if k == 0 then 0 else spans[k - 1].end)
    decreases |spans| - k
  {
    hide ShortRuns, GroupAt, ClosedAt;
    if k > 0 {
      PlacedAll(ops, groups, spans, k - 1);
    }
    if k < |spans| {
      PlacedAll(ops, groups, spans, k);
      if k > 0 {
        HunksApart(ops, groups, spans, k - 1);
      }
      GroupingTiles(ops, groups, spans, k + 1);
      assert groups[k..][1..] == groups[k + 1..] && spans[k..][1..] == spans[k + 1..];
    }
  }

  /** One hunk that fits, in front of hunks that apply. */
  lemma ApplyHead<T>(h: Hunk<T>, hunks: seq<Hunk<T>>, before: seq<T>, done: nat, made: nat, result: seq<T>)
    requires done <= h.oldStart - 1 && h.oldStart - 1 + h.oldLen <= |before|
    requires |NewSide(h.lines)| == h.newLen
    requires before[h.oldStart - 1..h.oldStart - 1 + h.oldLen] == OldSide(h.lines)
    requires h.newStart - 1 == made + (h.oldStart - 1 - done)
    requires ApplyFrom(hunks, before, h.oldStart - 1 + h.oldLen, h.newStart - 1 + h.newLen) == Some(result)
    ensures ApplyFrom([h] + hunks, before, done, made) == Some(before[done..h.oldStart - 1] + NewSide(h.lines) + result)
  {
    assert ([h] + hunks)[1..] == hunks;
    assert |OldSide(h.lines)| == h.oldLen;
  }

  /** The hunk of a span states the right lines at the right positions, and the gap before it is
      the same on both sides. */
  lemma HunkFits<T>(ops: seq<EditOp<T>>, g: Group<T>, s: Span, p: nat)
    requires Sound(ops)
    requires p <= s.start <= s.end <= |ops| && AllEqual(ops, p, s.start)
    requires g == GroupAt(ops, s)
    ensures var h := HunkOf(g);
      && |OldOf(ops[..p])| <= h.oldStart - 1 == |OldOf(ops[..s.start])|
      && h.oldStart - 1 + h.oldLen == |OldOf(ops[..s.end])| <= |OldOf(ops)|
      && OldOf(ops)[h.oldStart - 1..h.oldStart - 1 + h.oldLen] == OldSide(h.lines)
      && |NewSide(h.lines)| == h.newLen
      && h.newStart - 1 == |NewOf(ops[..p])| + (h.oldStart - 1 - |OldOf(ops[..p])|)
      && h.newStart - 1 + h.newLen == |NewOf(ops[..s.end])|
      && NewOf(ops[p..]) == OldOf(ops)[|OldOf(ops[..p])|..h.oldStart - 1] + NewSide(h.lines) + NewOf(ops[s.end..])
  {
    hide OldOf, NewOf, LinesOfOps, OldSide, NewSide;
    EqualStretch(ops[p..s.start]);
    SidesOfLines(ops[s.start..s.end]);
    hide Sound, AllEqual;
    OldStretch(ops, p, s.start);
    OldStretch(ops, s.start, s.end);
    NewStretch(ops, p, s.start);
    NewStretch(ops, s.start, s.end);
  }

  /** After the last hunk the rest is the same on both sides. */
  lemma ApplyTail<T>(ops: seq<EditOp<T>>, p: nat)
    requires Sound(ops) && AllEqual(ops, p, |ops|)
    ensures |OldOf(ops[..p])| <= |OldOf(ops)|
    ensures OldOf(ops)[|OldOf(ops[..p])|..] == NewOf(ops[p..])
  {
    hide OldOf, NewOf;
    OldStretch(ops, p, |ops|);
    EqualStretch(ops[p..]);
    assert ops[..|ops|] == ops && ops[p..|ops|] == ops[p..];
  }

  /** The lines between two hunks are copied, and each hunk puts its new side where it belongs. */
  lemma {:induction false} ApplyTiles<T>(ops: seq<EditOp<T>>, groups: seq<Group<T>>, spans: seq<Span>, p: nat)
    requires Sound(ops) && Tiles(ops, groups, spans, p)
    ensures |OldOf(ops[..p])| <= |OldOf(ops)|
    ensures ApplyFrom(HunksOf(groups), OldOf(ops), |OldOf(ops[..p])|, |NewOf(ops[..p])|) == Some(NewOf(ops[p..]))
    decreases |spans|
  {
    hide OldOf, NewOf, AllEqual, Sound, OldSide, NewSide, LinesOfOps;
    if spans == [] {
      ApplyTail(ops, p);
    } else {
      var s, h := spans[0], HunkOf(groups[0]);
      ApplyTiles(ops, groups[1..], spans[1..], s.end);
      HunkFits(ops, groups[0], s, p);
      hide Tiles, ApplyFrom;
      ApplyHead(h, HunksOf(groups[1..]), OldOf(ops), |OldOf(ops[..p])|, |NewOf(ops[..p])|, NewOf(ops[s.end..]));
    }
  }

  /** Forward: the hunks of any grouping turn the old lines into the new ones. */
  lemma ForwardRoundTrip<T>(ops: seq<EditOp<T>>, groups: seq<Group<T>>, spans: seq<Span>)
    requires Sound(ops) && IsGrouping(ops, groups, spans)
    ensures Apply(HunksOf(groups), OldOf(ops)) == Some(NewOf(ops))
  {
    GroupingTiles(ops, groups, spans, 0);
    assert groups[0..] == groups && spans[0..] == spans && ops[0..] == ops && ops[..0] == [];
    ApplyTiles(ops, groups, spans, 0);
  }

  // ---------------------------------------------------------------- reverse

  function FlipOp<T>(op: EditOp<T>): EditOp<T> {
    match op
    case Equal(o, n) => Equal(n, o)
    case Delete(o) => Insert(o)
    case Insert(n) => Delete(n)
  }

  function FlipOps<T>(ops: seq<EditOp<T>>): (flipped: seq<EditOp<T>>)
    ensures |flipped| == |ops|
    ensures forall k :: 0 <= k < |ops| ==> flipped[k] == FlipOp(ops[k])
  {
    if ops == [] then [] else [FlipOp(ops[0])] + FlipOps(ops[1..])
  }

  function FlipGroups<T>(groups: seq<Group<T>>): seq<Group<T>> {
    if groups == [] then []
    else [Group(FlipOps(groups[0].ops), groups[0].newStart, groups[0].oldStart)] + FlipGroups(groups[1..])
  }

  lemma {:induction false} FlipSwapsSides<T>(ops: seq<EditOp<T>>)
    ensures OldOf(FlipOps(ops)) == NewOf(ops) && NewOf(FlipOps(ops)) == OldOf(ops)
  {
    if ops != [] {
      FlipSwapsSides(ops[1..]);
    }
  }

  lemma {:induction false} FlipPrintsFlipped<T>(ops: seq<EditOp<T>>)
    requires Sound(ops)
    ensures LinesOfOps(FlipOps(ops)) == FlipLines(LinesOfOps(ops))
  {
    if ops != [] {
      assert Sound(ops[1..]);
      FlipPrintsFlipped(ops[1..]);
      assert LinesOfOps(ops)[1..] == LinesOfOps(ops[1..]);
      assert FlipOps(ops)[1..] == FlipOps(ops[1..]);
    }
  }

  lemma FlipSlice<T>(ops: seq<EditOp<T>>, lo: nat, hi: nat)
    requires lo <= hi <= |ops|
    ensures FlipOps(ops)[lo..hi] == FlipOps(ops[lo..hi])
  {
  }

  lemma {:induction false} FlipTiles<T>(ops: seq<EditOp<T>>, groups: seq<Group<T>>, spans: seq<Span>, p: nat)
    requires Sound(ops) && Tiles(ops, groups, spans, p)
    ensures Tiles(FlipOps(ops), FlipGroups(groups), spans, p)
    ensures FlipHunks(HunksOf(groups)) == HunksOf(FlipGroups(groups))
    decreases |spans|
  {
    if spans != [] {
      var s := spans[0];
      FlipTiles(ops, groups[1..], spans[1..], s.end);
      FlipGroupAt(ops, groups[0], s);
      FlipHunkOf(groups[0]);
      assert HunksOf(groups)[1..] == HunksOf(groups[1..]);
      assert FlipGroups(groups)[1..] == FlipGroups(groups[1..]);
    }
  }

  lemma FlipGroupAt<T>(ops: seq<EditOp<T>>, g: Group<T>, s: Span)
    requires Sound(ops) && s.start <= s.end <= |ops| && g == GroupAt(ops, s)
    ensures Group(FlipOps(g.ops), g.newStart, g.oldStart) == GroupAt(FlipOps(ops), s)
  {
    FlipSlice(ops, s.start, s.end);
    assert FlipOps(ops)[..s.start] == FlipOps(ops[..s.start]);
    FlipSwapsSides(ops[..s.start]);
  }

  lemma FlipHunkOf<T>(g: Group<T>)
    requires Sound(g.ops)
    ensures var h, f := HunkOf(g), HunkOf(Group(FlipOps(g.ops), g.newStart, g.oldStart));
      f == Hunk(h.newStart, h.newLen, h.oldStart, h.oldLen, FlipLines(h.lines))
  {
    FlipSwapsSides(g.ops);
    FlipPrintsFlipped(g.ops);
  }

  /** Reverse: the same hunks turn the new lines back into the old ones. */
  lemma ReverseRoundTrip<T>(ops: seq<EditOp<T>>, groups: seq<Group<T>>, spans: seq<Span>)
    requires Sound(ops) && IsGrouping(ops, groups, spans)
    ensures ApplyReverse(HunksOf(groups), NewOf(ops)) == Some(OldOf(ops))
  {
    GroupingTiles(ops, groups, spans, 0);
    assert groups[0..] == groups && spans[0..] == spans;
    FlipTiles(ops, groups, spans, 0);
    var flipped := FlipOps(ops);
    ApplyTiles(flipped, FlipGroups(groups), spans, 0);
    FlipSwapsSides(ops);
    assert flipped[0..] == flipped && flipped[..0] == [];
  }

  // ---------------------------------------------------------------- empty sides

  /** Context at either end of a hunk is made of equal ops. */
  lemma ContextIsEqual<T>(ops: seq<EditOp<T>>, groups: seq<Group<T>>, spans: seq<Span>, k: nat)
    requires IsGrouping(ops, groups, spans) && k < |spans|
    ensures var s, inner := spans[k], groups[k].ops;
      && s.start <= s.first < s.last <= s.end && |inner| == s.end - s.start
      && (s.start < s.first ==> inner[0].Equal?)
      && (s.last < s.end ==> inner[s.last - s.start].Equal?)
  {
    PlacedAll(ops, groups, spans, k);
  }

  /** A hunk prints at least one line of a side that its context is on, so a side it leaves empty is empty
      as a whole and the hunk is the only one. */
  lemma WholeScript<T>(ops: seq<EditOp<T>>, groups: seq<Group<T>>, spans: seq<Span>, k: nat)
    requires IsGrouping(ops, groups, spans) && k < |spans|
    requires forall i :: 0 <= i < |groups[k].ops| ==> !groups[k].ops[i].Equal?
    ensures groups[k].ops == ops && groups[k].oldStart == 1 && groups[k].newStart == 1
  {
    PlacedAll(ops, groups, spans, k);
    ContextIsEqual(ops, groups, spans, k);
    var s := spans[k];
    assert s.start == s.first && s.end == s.last;
    assert k == 0 && s.first == 0;
    assert k == |spans| - 1 && s.end == |ops|;
    assert ops[s.start..s.end] == ops && ops[..0] == [];
  }

  /** A hunk states an empty old side exactly when there are no old lines at all. The unified format
      would then count from 0; this renderer states line 1. */
  lemma EmptyOldSide<T>(ops: seq<EditOp<T>>, groups: seq<Group<T>>, spans: seq<Span>, k: nat)
    requires IsGrouping(ops, groups, spans) && k < |spans|
    ensures HunkOf(groups[k]).oldLen == 0 <==> OldOf(ops) == []
    ensures HunkOf(groups[k]).oldLen == 0 ==> HunkOf(groups[k]).oldStart == 1
  {
    GroupIsSlice(ops, groups, spans, k);
    hide IsGrouping;
    if OldOf(groups[k].ops) == [] {
      forall i | 0 <= i < |groups[k].ops|
        ensures !groups[k].ops[i].Equal?
      {
        if groups[k].ops[i].Equal? {
          NonEmptySides(groups[k].ops, i);
        }
      }
      WholeScript(ops, groups, spans, k);
    }
  }

  /** Nor does it count from 0 on the new side, which a hunk leaves empty exactly when there are no new lines. */
  lemma EmptyNewSide<T>(ops: seq<EditOp<T>>, groups: seq<Group<T>>, spans: seq<Span>, k: nat)
    requires IsGrouping(ops, groups, spans) && k < |spans|
    ensures HunkOf(groups[k]).newLen == 0 <==> NewOf(ops) == []
    ensures HunkOf(groups[k]).newLen == 0 ==> HunkOf(groups[k]).newStart == 1
  {
    GroupIsSlice(ops, groups, spans, k);
    hide IsGrouping;
    if NewOf(groups[k].ops) == [] {
      forall i | 0 <= i < |groups[k].ops|
        ensures !groups[k].ops[i].Equal?
      {
        if groups[k].ops[i].Equal? {
          NonEmptySides(groups[k].ops, i);
        }
      }
      WholeScript(ops, groups, spans, k);
    }
  }

  /** What a hunk takes from a side is a stretch of that side. */
  lemma GroupIsSlice<T>(ops: seq<EditOp<T>>, groups: seq<Group<T>>, spans: seq<Span>, k: nat)
    requires IsGrouping(ops, groups, spans) && k < |spans|
    ensures |groups| == |spans|
    ensures OldOf(ops) == [] ==> OldOf(groups[k].ops) == []
    ensures NewOf(ops) == [] ==> NewOf(groups[k].ops) == []
  {
    HunkShape(ops, groups, spans, k);
    SliceSides(ops, spans[k].start, spans[k].end);
  }

  lemma SliceSides<T>(ops: seq<EditOp<T>>, lo: nat, hi: nat)
    requires lo <= hi <= |ops|
    ensures |OldOf(ops[lo..hi])| <= |OldOf(ops)| && |NewOf(ops[lo..hi])| <= |NewOf(ops)|
  {
    hide OldOf, NewOf;
    assert ops[..hi] == ops[..lo] + ops[lo..hi] && ops == ops[..hi] + ops[hi..];
    OldOfConcat(ops[..lo], ops[lo..hi]);
    OldOfConcat(ops[..hi], ops[hi..]);
    NewOfConcat(ops[..lo], ops[lo..hi]);
    NewOfConcat(ops[..hi], ops[hi..]);
  }

  lemma {:induction false} NonEmptySides<T>(ops: seq<EditOp<T>>, k: nat)
    requires k < |ops| && ops[k].Equal?
    ensures OldOf(ops) != [] && NewOf(ops) != []
  {
    if k > 0 {
      NonEmptySides(ops[1..], k - 1);
    }
  }

  /** For instance, deleting the only line prints a hunk with new length 0 at new line 1. */
  lemma DeletedOnlyLine()
    ensures var ops: seq<EditOp<string>> := [Delete("a")];
      var g := Group(ops, 1, 1);
      && IsGrouping(ops, [g], [Span(0, 0, 1, 1)])
      && HunkOf(g) == Hunk(1, 1, 1, 0, [Removed("a")])
  {
    var ops: seq<EditOp<string>> := [Delete("a")];
    assert ops[0..1] == ops && ops[..0] == [] && ops[1..] == [];
    var spans := [Span(0, 0, 1, 1)];
    assert PreviousLast(spans, 1) == 1 && PreviousLast(spans, 0) == 0;
    assert GroupAt(ops, spans[0]) == Group(ops, 1, 1);
    assert Placed(ops, [Group(ops, 1, 1)], spans, 0);
  }
}

/** Removing what repeats across the pages of a crawl (src/crawl/dedup.ts): navigation lines at both ends of a
    page, and blocks found in most pages or remembered for the domain. Trimming, the heading test, the paragraph
    split and the two hashes are parameters. */
module CrawlDedup {
  import opened Layout
  import opened LineText
  import opened Options
  import opened Positions

  datatype Page = Page(url: string, markdown: string)

  /** What the code takes from strings, regular expressions and hashing. */
  datatype TextOps = TextOps(
    trim: string -> string,
    isHeading: string -> bool,
    paragraphs: string -> seq<string>,
    lineKey: string -> string,
    blockKey: string -> string)

  const MIN_CORPUS := 4
  const MAX_LEADING_LINES := 30
  const MAX_TRAILING_LINES := 20

  // ---------------------------------------------------------------- blocks

  function Starts<T>(isHeading: T -> bool, lines: seq<T>): seq<nat> {
    if lines == [] then []
    else
      var n := |lines| - 1;
      Starts(isHeading, lines[..n]) + if isHeading(lines[n]) then [n] else []
  }

  /** The line joins the open block, if there is one. */
  function JoinOpen<T>(blocks: seq<seq<T>>, line: T): seq<seq<T>> {
    if blocks == [] then [] else blocks[..|blocks| - 1] + [blocks[|blocks| - 1] + [line]]
  }

  /** A heading opens a block; any other line joins the open block. */
  function RawBlocks<T>(isHeading: T -> bool, lines: seq<T>): seq<seq<T>> {
    if lines == [] then []
    else
      var n := |lines| - 1;
      var blocks := RawBlocks(isHeading, lines[..n]);
      if isHeading(lines[n]) then blocks + [[lines[n]]] else JoinOpen(blocks, lines[n])
  }

  function EndOf(starts: seq<nat>, k: nat, n: nat): nat
    requires k < |starts|
  {
    if k + 1 < |starts| then starts[k + 1] else n
  }

  function Slice<T>(lines: seq<T>, starts: seq<nat>, k: nat): seq<T>
    requires Increasing(starts, |lines|) && k < |starts|
  {
    lines[starts[k]..EndOf(starts, k, |lines|)]
  }

  lemma SliceKept<T>(lines: seq<T>, starts: seq<nat>, k: nat, last: T)
    requires Increasing(starts, |lines|) && k + 1 < |starts|
    ensures Slice(lines + [last], starts, k) == Slice(lines, starts, k)
  {
  }

  lemma SliceExtended<T>(lines: seq<T>, starts: seq<nat>, last: T)
    requires Increasing(starts, |lines|) && starts != []
    ensures Slice(lines + [last], starts, |starts| - 1) == Slice(lines, starts, |starts| - 1) + [last]
  {
  }

  lemma SliceClosed<T>(lines: seq<T>, starts: seq<nat>, k: nat, last: T)
    requires Increasing(starts, |lines|) && k < |starts|
    ensures Slice(lines + [last], starts + [|lines|], k) == Slice(lines, starts, k)
  {
  }

  lemma SliceOpened<T>(lines: seq<T>, starts: seq<nat>, last: T)
    requires Increasing(starts, |lines|)
    ensures Slice(lines + [last], starts + [|lines|], |starts|) == [last]
  {
  }

  lemma RawBlocksStep<T>(isHeading: T -> bool, front: seq<T>, last: T)
    ensures Starts(isHeading, front + [last]) ==
      if isHeading(last) then Starts(isHeading, front) + [|front|] else Starts(isHeading, front)
    ensures isHeading(last) ==> RawBlocks(isHeading, front + [last]) == RawBlocks(isHeading, front) + [[last]]
    ensures !isHeading(last) ==> RawBlocks(isHeading, front + [last]) == JoinOpen(RawBlocks(isHeading, front), last)
  {
    assert (front + [last])[..|front|] == front;
  }

  ghost predicate CutAt<T>(blocks: seq<seq<T>>, lines: seq<T>, starts: seq<nat>) {
    && Increasing(starts, |lines|)
    && |blocks| == |starts|
    && forall k :: 0 <= k < |starts| ==> blocks[k] == Slice(lines, starts, k)
  }

  lemma CutBeforeHeading<T>(blocks: seq<seq<T>>, front: seq<T>, starts: seq<nat>, last: T)
    requires CutAt(blocks, front, starts)
    ensures CutAt(blocks + [[last]], front + [last], starts + [|front|])
  {
    hide Slice;
    forall k | 0 <= k <= |starts|
      ensures (blocks + [[last]])[k] == Slice(front + [last], starts + [|front|], k)
    {
      if k < |starts| {
        SliceClosed(front, starts, k, last);
      } else {
        SliceOpened(front, starts, last);
      }
    }
  }

  lemma CutPlainLine<T>(blocks: seq<seq<T>>, front: seq<T>, starts: seq<nat>, last: T)
    requires CutAt(blocks, front, starts)
    ensures CutAt(JoinOpen(blocks, last), front + [last], starts)
  {
    hide Slice;
    var m := |blocks| - 1;
    if m >= 0 {
      var longer := JoinOpen(blocks, last);
      forall k | 0 <= k <= m
        ensures longer[k] == Slice(front + [last], starts, k)
      {
        if k < m {
          SliceKept(front, starts, k, last);
        } else {
          SliceExtended(front, starts, last);
        }
      }
    }
  }

  lemma NothingToCut<T>(isHeading: T -> bool)
    ensures CutAt(RawBlocks(isHeading, []), [], Starts(isHeading, []))
  {
  }

  /** Cutting at the heading positions gives the blocks. */
  lemma {:induction false} SlicesAreBlocks<T>(isHeading: T -> bool, lines: seq<T>)
    ensures CutAt(RawBlocks(isHeading, lines), lines, Starts(isHeading, lines))
  {
    hide CutAt, RawBlocks, Starts, JoinOpen;
    if lines == [] {
      NothingToCut(isHeading);
    } else {
      var n := |lines| - 1;
      var front, last := lines[..n], lines[n];
      SlicesAreBlocks(isHeading, front);
      assert lines == front + [last];
      RawBlocksStep(isHeading, front, last);
      if isHeading(last) {
        CutBeforeHeading(RawBlocks(isHeading, front), front, Starts(isHeading, front), last);
      } else {
        CutPlainLine(RawBlocks(isHeading, front), front, Starts(isHeading, front), last);
      }
    }
  }

  function Flatten<T>(blocks: seq<seq<T>>): seq<T> {
    if blocks == [] then [] else Flatten(blocks[..|blocks| - 1]) + blocks[|blocks| - 1]
  }

  lemma FlattenAppend<T>(blocks: seq<seq<T>>, block: seq<T>)
    ensures Flatten(blocks + [block]) == Flatten(blocks) + block
  {
    assert (blocks + [block])[..|blocks|] == blocks;
  }

  /** The lines before the first heading. */
  function Preface<T>(isHeading: T -> bool, lines: seq<T>): seq<T> {
    if lines == [] then []
    else
      var n := |lines| - 1;
      var front := lines[..n];
      Preface(isHeading, front) + if Starts(isHeading, lines) == [] then [lines[n]] else []
  }

  lemma FlattenJoinOpen<T>(blocks: seq<seq<T>>, line: T)
    requires blocks != []
    ensures Flatten(JoinOpen(blocks, line)) == Flatten(blocks) + [line]
  {
    var m := |blocks| - 1;
    assert blocks == blocks[..m] + [blocks[m]];
    FlattenAppend(blocks[..m], blocks[m]);
    FlattenAppend(blocks[..m], blocks[m] + [line]);
  }

  lemma JoinOpenEmpty<T>(blocks: seq<seq<T>>, line: T)
    ensures JoinOpen(blocks, line) == [] <==> blocks == []
    ensures Flatten<T>([]) == []
  {
  }

  lemma OneLineMore<T>(isHeading: T -> bool, front: seq<T>, last: T)
    requires front == Preface(isHeading, front) + Flatten(RawBlocks(isHeading, front))
    requires RawBlocks(isHeading, front) == [] <==> Starts(isHeading, front) == []
    ensures var lines := front + [last];
      lines == Preface(isHeading, lines) + Flatten(RawBlocks(isHeading, lines))
      && (RawBlocks(isHeading, lines) == [] <==> Starts(isHeading, lines) == [])
  {
    hide RawBlocks, Starts, Preface, Flatten, JoinOpen;
    PrefaceStep(isHeading, front, last);
    RawBlocksStep(isHeading, front, last);
    var earlier := RawBlocks(isHeading, front);
    JoinOpenEmpty(earlier, last);
    if isHeading(last) {
      FlattenAppend(earlier, [last]);
    } else if earlier != [] {
      FlattenJoinOpen(earlier, last);
    }
  }

  /** The blocks hold every line from the first heading on, once and in order. */
  lemma {:induction false} BlocksHoldTheRest<T>(isHeading: T -> bool, lines: seq<T>)
    ensures lines == Preface(isHeading, lines) + Flatten(RawBlocks(isHeading, lines))
    ensures RawBlocks(isHeading, lines) == [] <==> Starts(isHeading, lines) == []
  {
    if lines != [] {
      var n := |lines| - 1;
      BlocksHoldTheRest(isHeading, lines[..n]);
      OneLineMore(isHeading, lines[..n], lines[n]);
      assert lines == lines[..n] + [lines[n]];
    }
  }

  /** Text before the first heading is dropped; nothing is dropped exactly when a heading comes first. */
  lemma {:induction false} PrefaceDropped<T>(isHeading: T -> bool, lines: seq<T>)
    requires Starts(isHeading, lines) != []
    ensures Flatten(RawBlocks(isHeading, lines)) == lines <==> isHeading(lines[0])
  {
    BlocksHoldTheRest(isHeading, lines);
    PrefaceStops(isHeading, lines);
    var p := Preface(isHeading, lines);
    assert |lines| == |p| + |Flatten(RawBlocks(isHeading, lines))|;
  }

  lemma PrefaceStep<T>(isHeading: T -> bool, front: seq<T>, last: T)
    ensures Preface(isHeading, front + [last]) ==
      Preface(isHeading, front) + if Starts(isHeading, front) == [] && !isHeading(last) then [last] else []
  {
    assert (front + [last])[..|front|] == front;
  }

  lemma {:induction false} PrefaceStops<T>(isHeading: T -> bool, lines: seq<T>)
    ensures Starts(isHeading, lines) == [] ==> Preface(isHeading, lines) == lines
    ensures lines != [] ==> (Preface(isHeading, lines) == [] <==> isHeading(lines[0]))
    ensures lines != [] && isHeading(lines[0]) ==> Starts(isHeading, lines) != []
  {
    if lines != [] {
      var n := |lines| - 1;
      var front, last := lines[..n], lines[n];
      assert lines == front + [last];
      PrefaceStops(isHeading, front);
      PrefaceStep(isHeading, front, last);
      RawBlocksStep(isHeading, front, last);
      if n == 0 {
        assert front == [];
      } else {
        assert front[0] == lines[0];
        hide Preface, Starts, RawBlocks;
      }
    }
  }

  function TrimAll(ops: TextOps, parts: seq<string>): seq<string> {
    if parts == [] then []
    else
      var part := ops.trim(parts[|parts| - 1]);
      TrimAll(ops, parts[..|parts| - 1]) + if part == "" then [] else [part]
  }

  function JoinAll(blocks: seq<seq<string>>): seq<string> {
    if blocks == [] then [] else JoinAll(blocks[..|blocks| - 1]) + [Join(blocks[|blocks| - 1])]
  }

  /** The blocks of a page: under headings, or paragraphs where there is none. */
  function Blocks(ops: TextOps, markdown: string): seq<string> {
    if ops.trim(markdown) == "" then []
    else
      var lines := SplitOnNewline(markdown);
      if Starts(ops.isHeading, lines) == [] then TrimAll(ops, ops.paragraphs(markdown))
      else TrimAll(ops, JoinAll(RawBlocks(ops.isHeading, lines)))
  }

  // What the blocks of a text are, by positions.

  lemma {:induction false} StartsAreHeadings<T>(isHeading: T -> bool, lines: seq<T>)
    ensures Increasing(Starts(isHeading, lines), |lines|)
    ensures forall k :: 0 <= k < |lines| ==> (k in Starts(isHeading, lines) <==> isHeading(lines[k]))
  {
    if lines != [] {
      hide Increasing, Starts;
      var n := |lines| - 1;
      StartsAreHeadings(isHeading, lines[..n]);
      StartsUnfold(isHeading, lines, n);
      ExtendedIncreases(Starts(isHeading, lines[..n]), n, isHeading(lines[n]));
    } else {
      assert Starts(isHeading, lines) == [];
    }
  }

  lemma StartsUnfold<T>(isHeading: T -> bool, lines: seq<T>, n: nat)
    requires n + 1 == |lines|
    ensures Starts(isHeading, lines) == Extended(Starts(isHeading, lines[..n]), n, isHeading(lines[n]))
  {
  }

  /** The blocks are the trims of the parts at the listed positions, which are those that do not trim to nothing. */
  ghost predicate TrimmedAt(ops: TextOps, blocks: seq<string>, parts: seq<string>, at: seq<nat>) {
    && Increasing(at, |parts|) && |blocks| == |at|
    && (forall k :: 0 <= k < |parts| ==> (k in at <==> ops.trim(parts[k]) != ""))
    && (forall i :: 0 <= i < |at| ==> at[i] < |parts| && blocks[i] == ops.trim(parts[at[i]]))
  }

  lemma {:induction false} TrimmedParts(ops: TextOps, parts: seq<string>) returns (at: seq<nat>)
    ensures TrimmedAt(ops, TrimAll(ops, parts), parts, at)
  {
    if parts == [] {
      at := [];
    } else {
      hide TrimmedAt;
      var n := |parts| - 1;
      var front := TrimmedParts(ops, parts[..n]);
      at := Extended(front, n, ops.trim(parts[n]) != "");
      TrimmedMore(ops, TrimAll(ops, parts[..n]), parts, front, n);
    }
  }

  lemma TrimmedMore(ops: TextOps, blocks: seq<string>, parts: seq<string>, at: seq<nat>, n: nat)
    requires n + 1 == |parts| && TrimmedAt(ops, blocks, parts[..n], at)
    ensures TrimmedAt(ops, blocks + if ops.trim(parts[n]) == "" then [] else [ops.trim(parts[n])], parts,
                      Extended(at, n, ops.trim(parts[n]) != ""))
  {
    ExtendedIncreases(at, n, ops.trim(parts[n]) != "");
    hide Increasing;
  }

  lemma {:induction false} JoinAllAt(blocks: seq<seq<string>>)
    ensures |JoinAll(blocks)| == |blocks|
    ensures forall k :: 0 <= k < |blocks| ==> JoinAll(blocks)[k] == Join(blocks[k])
  {
    if blocks != [] {
      JoinAllAt(blocks[..|blocks| - 1]);
    }
  }

  /** The parts of a text with headings: the lines from each heading up to the next, joined. */
  ghost predicate CutAtHeadings(ops: TextOps, lines: seq<string>, parts: seq<string>, starts: seq<nat>) {
    && Increasing(starts, |lines|) && |parts| == |starts|
    && (forall k :: 0 <= k < |lines| ==> (k in starts <==> ops.isHeading(lines[k])))
    && (forall k :: 0 <= k < |starts| ==> Joined(parts[k], Slice(lines, starts, k), "\n"))
  }

  /** A blank text has no blocks. Any other is cut at its headings, or into paragraphs when it has none; the blocks
      are the parts that are not blank, trimmed, in order. */
  lemma BlocksOfText(ops: TextOps, markdown: string) returns (parts: seq<string>, starts: seq<nat>, at: seq<nat>)
    ensures ops.trim(markdown) == "" ==> Blocks(ops, markdown) == []
    ensures ops.trim(markdown) != "" ==> TrimmedAt(ops, Blocks(ops, markdown), parts, at)
    ensures var lines := SplitOnNewline(markdown);
      if HasHeading(ops, lines) then CutAtHeadings(ops, lines, parts, starts) else parts == ops.paragraphs(markdown)
  {
    hide Starts, RawBlocks, JoinAll, TrimmedAt, CutAtHeadings, SplitOnNewline, TrimAll;
    var lines := SplitOnNewline(markdown);
    starts := Starts(ops.isHeading, lines);
    SomeStart(ops, lines);
    parts := if starts == [] then ops.paragraphs(markdown) else JoinAll(RawBlocks(ops.isHeading, lines));
    if starts != [] {
      HeadingsCut(ops, lines);
    }
    at := TrimmedParts(ops, parts);
  }

  ghost predicate HasHeading(ops: TextOps, lines: seq<string>) {
    exists k :: 0 <= k < |lines| && ops.isHeading(lines[k])
  }

  lemma SomeStart(ops: TextOps, lines: seq<string>)
    ensures Starts(ops.isHeading, lines) != [] <==> HasHeading(ops, lines)
  {
    hide Starts;
    var starts := Starts(ops.isHeading, lines);
    StartsAreHeadings(ops.isHeading, lines);
    if starts != [] {
      assert starts[0] in starts;
    }
  }

  lemma HeadingsCut(ops: TextOps, lines: seq<string>)
    ensures CutAtHeadings(ops, lines, JoinAll(RawBlocks(ops.isHeading, lines)), Starts(ops.isHeading, lines))
  {
    hide Joined, Slice, Increasing, Starts, RawBlocks, JoinAll;
    var raw, starts := RawBlocks(ops.isHeading, lines), Starts(ops.isHeading, lines);
    StartsAreHeadings(ops.isHeading, lines);
    SlicesAreBlocks(ops.isHeading, lines);
    JoinAllAt(raw);
    forall k | 0 <= k < |starts|
      ensures Joined(JoinAll(raw)[k], Slice(lines, starts, k), "\n")
    {
      JoinLaysOut(raw[k]);
    }
  }

  method TrimNonEmpty(ops: TextOps, parts: seq<string>) returns (blocks: seq<string>)
    ensures blocks == TrimAll(ops, parts)
  {
    blocks := [];
    for k := 0 to |parts|
      invariant blocks == TrimAll(ops, parts[..k])
    {
      assert parts[..k + 1][..k] == parts[..k];
      var part := ops.trim(parts[k]);
      if part != "" {
        blocks := blocks + [part];
      }
    }
    assert parts[..|parts|] == parts;
  }

  method SplitIntoBlocks(ops: TextOps, markdown: string) returns (blocks: seq<string>)
    ensures blocks == Blocks(ops, markdown)
  {
    if ops.trim(markdown) == "" {
      return [];
    }
    var lines := SplitOnNewline(markdown);
    var starts: seq<nat> := [];
    for i := 0 to |lines|
      invariant starts == Starts(ops.isHeading, lines[..i])
    {
      assert lines[..i + 1][..i] == lines[..i];
      if ops.isHeading(lines[i]) {
        starts := starts + [i];
      }
    }
    assert lines[..|lines|] == lines;
    if |starts| == 0 {
      blocks := TrimNonEmpty(ops, ops.paragraphs(markdown));
      return;
    }
    SlicesAreBlocks(ops.isHeading, lines);
    ghost var raw := RawBlocks(ops.isHeading, lines);
    var joined := [];
    for i := 0 to |starts|
      invariant joined == JoinAll(raw[..i])
    {
      assert raw[..i + 1][..i] == raw[..i];
      var end := if i + 1 < |starts| then starts[i + 1] else |lines|;
      assert raw[i] == lines[starts[i]..end];
      joined := joined + [Join(lines[starts[i]..end])];
    }
    assert raw[..|starts|] == raw;
    blocks := TrimNonEmpty(ops, joined);
  }

  // ---------------------------------------------------------------- counting pages

  /** How many pages satisfy p. */
  function CountIf<T>(pages: seq<T>, p: T -> bool): nat {
    if pages == [] then 0
    else CountIf(pages[..|pages| - 1], p) + if p(pages[|pages| - 1]) then 1 else 0
  }

  /** The pages that satisfy p, by position. */
  ghost function PagesWith<T>(pages: seq<T>, p: T -> bool): set<nat> {
    set k | 0 <= k < |pages| && p(pages[k])
  }

  /** The count is the number of such pages. */
  lemma {:induction false} CountIsNumber<T>(pages: seq<T>, p: T -> bool)
    ensures CountIf(pages, p) == |PagesWith(pages, p)|
  {
    if pages != [] {
      var n := |pages| - 1;
      CountIsNumber(pages[..n], p);
      var front := PagesWith(pages[..n], p);
      assert PagesWith(pages, p) == front + (if p(pages[n]) then {n} else {});
      assert n !in front;
    } else {
      assert PagesWith(pages, p) == {};
    }
  }

  predicate KeyIn(keyOf: string -> string, parts: seq<string>, h: string) {
    exists k :: 0 <= k < |parts| && keyOf(parts[k]) == h
  }

  function CountOf(counts: map<string, nat>, h: string): nat {
    if h in counts then counts[h] else 0
  }

  /** One page counts once for a key, however often the key occurs on it. */
  method Tally(keyOf: string -> string, parts: seq<string>, counts: map<string, nat>) returns (updated: map<string, nat>)
    ensures forall h :: CountOf(updated, h) == CountOf(counts, h) + if KeyIn(keyOf, parts, h) then 1 else 0
  {
    updated := counts;
    var seen: set<string> := {};
    for k := 0 to |parts|
      invariant forall h :: h in seen <==> KeyIn(keyOf, parts[..k], h)
      invariant forall h :: CountOf(updated, h) == CountOf(counts, h) + if h in seen then 1 else 0
    {
      KeyInMore(keyOf, parts, k);
      var h := keyOf(parts[k]);
      if h !in seen {
        seen := seen + {h};
        updated := updated[h := CountOf(updated, h) + 1];
      }
    }
    assert parts[..|parts|] == parts;
  }

  lemma KeyInMore(keyOf: string -> string, parts: seq<string>, k: nat)
    requires k < |parts|
    ensures forall h :: KeyIn(keyOf, parts[..k + 1], h) <==> KeyIn(keyOf, parts[..k], h) || keyOf(parts[k]) == h
  {
    var front, more := parts[..k], parts[..k + 1];
    forall h
      ensures KeyIn(keyOf, more, h) <==> KeyIn(keyOf, front, h) || keyOf(parts[k]) == h
    {
      assert more[k] == parts[k];
      if KeyIn(keyOf, front, h) {
        var j :| 0 <= j < k && keyOf(front[j]) == h;
        assert more[j] == front[j];
      }
      if KeyIn(keyOf, more, h) {
        var j :| 0 <= j < |more| && keyOf(more[j]) == h;
        assert j < k ==> front[j] == more[j];
      }
    }
  }

  lemma {:induction false} CountIfSame<T>(pages: seq<T>, p: T -> bool, q: T -> bool)
    requires forall page :: page in pages ==> p(page) == q(page)
    ensures CountIf(pages, p) == CountIf(pages, q)
  {
    if pages != [] {
      CountIfSame(pages[..|pages| - 1], p, q);
    }
  }

  lemma {:induction false} CountIfConcat<T>(s: seq<T>, t: seq<T>, p: T -> bool)
    ensures CountIf(s + t, p) == CountIf(s, p) + CountIf(t, p)
  {
    if t == [] {
      assert s + t == s;
    } else {
      CountIfConcat(s, t[..|t| - 1], p);
      assert (s + t)[..|s + t| - 1] == s + t[..|t| - 1];
    }
  }

  lemma CountIfOne<T>(x: T, p: T -> bool)
    ensures CountIf([x], p) == if p(x) then 1 else 0
  {
    assert [x][..0] == [];
  }

  lemma WithoutOne<T>(t: seq<T>, k: nat)
    requires k < |t|
    ensures multiset(t[..k] + t[k + 1..]) == multiset(t) - multiset{t[k]}
  {
    assert t == t[..k] + [t[k]] + t[k + 1..];
  }

  lemma CountIfWithout<T>(t: seq<T>, k: nat, p: T -> bool)
    requires k < |t|
    ensures CountIf(t, p) == CountIf(t[..k] + t[k + 1..], p) + if p(t[k]) then 1 else 0
  {
    hide CountIf;
    var before, after := t[..k], t[k + 1..];
    assert t == before + [t[k]] + after;
    CountIfConcat(before, after, p);
    CountIfConcat(before + [t[k]], after, p);
    CountIfConcat(before, [t[k]], p);
    CountIfOne(t[k], p);
  }

  /** Counting does not depend on the order of the pages. */
  lemma {:induction false} CountIfReordered<T>(s: seq<T>, t: seq<T>, p: T -> bool)
    requires multiset(s) == multiset(t)
    ensures CountIf(s, p) == CountIf(t, p)
  {
    if s == [] {
      assert |multiset(t)| == 0;
    } else {
      assert s[0] in multiset(t);
      var k :| 0 <= k < |t| && t[k] == s[0];
      hide CountIf;
      CountIfWithout(s, 0, p);
      CountIfWithout(t, k, p);
      WithoutOne(s, 0);
      WithoutOne(t, k);
      assert s[..0] + s[1..] == s[1..];
      CountIfReordered(s[1..], t[..k] + t[k + 1..], p);
    }
  }

  // ---------------------------------------------------------------- navigation lines

  function Lines(page: Page): seq<string> {
    SplitOnNewline(page.markdown)
  }

  function HeadLines(lines: seq<string>): seq<string> {
    if |lines| <= MAX_LEADING_LINES then lines else lines[..MAX_LEADING_LINES]
  }

  /** Read from the last line upwards. */
  function TailLines(lines: seq<string>): seq<string> {
    var n := |lines|;
    seq(if n <= MAX_TRAILING_LINES then n else MAX_TRAILING_LINES, k requires 0 <= k < n => lines[n - 1 - k])
  }

  function HasHead(ops: TextOps, h: string): Page -> bool {
    page => KeyIn(ops.lineKey, HeadLines(Lines(page)), h)
  }

  function HasTail(ops: TextOps, h: string): Page -> bool {
    page => KeyIn(ops.lineKey, TailLines(Lines(page)), h)
  }

  /** The key opens at least 60% of the pages. */
  predicate NavHead(ops: TextOps, pages: seq<Page>, h: string) {
    CountIf(pages, HasHead(ops, h)) * 10 >= |pages| * 6
  }

  predicate NavTail(ops: TextOps, pages: seq<Page>, h: string) {
    CountIf(pages, HasTail(ops, h)) * 10 >= |pages| * 6
  }

  predicate CutsHead(ops: TextOps, pages: seq<Page>, line: string) {
    ops.trim(line) == "" || NavHead(ops, pages, ops.lineKey(line))
  }

  predicate CutsTail(ops: TextOps, pages: seq<Page>, line: string) {
    ops.trim(line) == "" || NavTail(ops, pages, ops.lineKey(line))
  }

  /** The pages with this key among their first 30 lines. */
  ghost function OpenedBy(ops: TextOps, pages: seq<Page>, h: string): set<nat> {
    set p | 0 <= p < |pages| &&
      exists k :: 0 <= k < |Lines(pages[p])| && k < 30 && ops.lineKey(Lines(pages[p])[k]) == h
  }

  /** The pages with this key among their last 20 lines. */
  ghost function ClosedBy(ops: TextOps, pages: seq<Page>, h: string): set<nat> {
    set p | 0 <= p < |pages| &&
      exists k :: 0 <= k < |Lines(pages[p])| && |Lines(pages[p])| - 20 <= k && ops.lineKey(Lines(pages[p])[k]) == h
  }

  lemma HeadLinesHave(ops: TextOps, lines: seq<string>, h: string)
    ensures KeyIn(ops.lineKey, HeadLines(lines), h) <==> exists k :: 0 <= k < |lines| && k < 30 && ops.lineKey(lines[k]) == h
  {
    var head := HeadLines(lines);
    if k :| 0 <= k < |lines| && k < 30 && ops.lineKey(lines[k]) == h {
      assert head[k] == lines[k];
    }
  }

  lemma TailLinesHave(ops: TextOps, lines: seq<string>, h: string)
    ensures KeyIn(ops.lineKey, TailLines(lines), h) <==>
      exists k :: 0 <= k < |lines| && |lines| - 20 <= k && ops.lineKey(lines[k]) == h
  {
    var tail := TailLines(lines);
    if k :| 0 <= k < |lines| && |lines| - 20 <= k && ops.lineKey(lines[k]) == h {
      assert tail[|lines| - 1 - k] == lines[k];
    }
    if k :| 0 <= k < |tail| && ops.lineKey(tail[k]) == h {
      assert lines[|lines| - 1 - k] == tail[k];
    }
  }

  /** A line is cut from the head of a page exactly when it is blank or its key is among the first 30 lines of at
      least 60% of the pages, and from the tail with the last 20 lines instead. */
  lemma CutExactly(ops: TextOps, pages: seq<Page>, line: string)
    ensures CutsHead(ops, pages, line) <==> ops.trim(line) == "" || 10 * |OpenedBy(ops, pages, ops.lineKey(line))| >= 6 * |pages|
    ensures CutsTail(ops, pages, line) <==> ops.trim(line) == "" || 10 * |ClosedBy(ops, pages, ops.lineKey(line))| >= 6 * |pages|
  {
    hide KeyIn, Lines, CountIf, HeadLines, TailLines;
    var h := ops.lineKey(line);
    CountIsNumber(pages, HasHead(ops, h));
    CountIsNumber(pages, HasTail(ops, h));
    forall p | 0 <= p < |pages|
      ensures p in OpenedBy(ops, pages, h) <==> HasHead(ops, h)(pages[p])
      ensures p in ClosedBy(ops, pages, h) <==> HasTail(ops, h)(pages[p])
    {
      HeadLinesHave(ops, Lines(pages[p]), h);
      TailLinesHave(ops, Lines(pages[p]), h);
    }
    assert OpenedBy(ops, pages, h) == PagesWith(pages, HasHead(ops, h));
    assert ClosedBy(ops, pages, h) == PagesWith(pages, HasTail(ops, h));
  }

  /** lines[head..tail] is what is left: everything around it may be cut and it cannot be cut further. */
  ghost predicate IsMiddle(ops: TextOps, pages: seq<Page>, lines: seq<string>, head: nat, tail: nat) {
    && head <= tail <= |lines|
    && (forall k :: 0 <= k < head ==> CutsHead(ops, pages, lines[k]))
    && (forall k :: tail <= k < |lines| ==> CutsTail(ops, pages, lines[k]))
    && (head < |lines| ==> !CutsHead(ops, pages, lines[head]))
    && (head < tail ==> !CutsTail(ops, pages, lines[tail - 1]))
  }

  function HeadCut(ops: TextOps, pages: seq<Page>, lines: seq<string>, from: nat): (head: nat)
    requires from <= |lines|
    ensures from <= head <= |lines|
    decreases |lines| - from
  {
    if from < |lines| && CutsHead(ops, pages, lines[from]) then HeadCut(ops, pages, lines, from + 1) else from
  }

  function TailCut(ops: TextOps, pages: seq<Page>, lines: seq<string>, head: nat, to: nat): (tail: nat)
    requires head <= to <= |lines|
    ensures head <= tail <= to
  {
    if to > head && CutsTail(ops, pages, lines[to - 1]) then TailCut(ops, pages, lines, head, to - 1) else to
  }

  function Stripped(ops: TextOps, pages: seq<Page>, lines: seq<string>): seq<string> {
    var head := HeadCut(ops, pages, lines, 0);
    lines[head..TailCut(ops, pages, lines, head, |lines|)]
  }

  lemma {:induction false} HeadCutStops(ops: TextOps, pages: seq<Page>, lines: seq<string>, from: nat)
    requires from <= |lines|
    ensures var head := HeadCut(ops, pages, lines, from);
      && (forall k :: from <= k < head ==> CutsHead(ops, pages, lines[k]))
      && (head < |lines| ==> !CutsHead(ops, pages, lines[head]))
    decreases |lines| - from
  {
    hide CutsHead;
    if from < |lines| && CutsHead(ops, pages, lines[from]) {
      HeadCutStops(ops, pages, lines, from + 1);
    }
  }

  lemma {:induction false} TailCutStops(ops: TextOps, pages: seq<Page>, lines: seq<string>, head: nat, to: nat)
    requires head <= to <= |lines|
    ensures var tail := TailCut(ops, pages, lines, head, to);
      && (forall k :: tail <= k < to ==> CutsTail(ops, pages, lines[k]))
      && (head < tail ==> !CutsTail(ops, pages, lines[tail - 1]))
  {
    hide CutsTail;
    if to > head && CutsTail(ops, pages, lines[to - 1]) {
      TailCutStops(ops, pages, lines, head, to - 1);
    }
  }

  /** Stripping keeps one stretch of the page, cuts only blank or repeated lines around it, and as many of
      them as it can. */
  lemma StrippedIsMiddle(ops: TextOps, pages: seq<Page>, lines: seq<string>) returns (head: nat, tail: nat)
    ensures IsMiddle(ops, pages, lines, head, tail) && Stripped(ops, pages, lines) == lines[head..tail]
  {
    head := HeadCut(ops, pages, lines, 0);
    tail := TailCut(ops, pages, lines, head, |lines|);
    HeadCutStops(ops, pages, lines, 0);
    TailCutStops(ops, pages, lines, head, |lines|);
  }

  /** No other stretch would do. */
  lemma MiddleIsUnique(ops: TextOps, pages: seq<Page>, lines: seq<string>, h: nat, t: nat, h': nat, t': nat)
    requires IsMiddle(ops, pages, lines, h, t) && IsMiddle(ops, pages, lines, h', t')
    ensures h == h' && lines[h..t] == lines[h'..t']
  {
    assert !(h < h') && !(h' < h);
    assert !(t < t') && !(t' < t);
  }

  method StripLines(ops: TextOps, ghost pages: seq<Page>, lines: seq<string>, navLeading: set<string>, navTrailing: set<string>)
    returns (middle: seq<string>)
    requires forall h :: h in navLeading <==> NavHead(ops, pages, h)
    requires forall h :: h in navTrailing <==> NavTail(ops, pages, h)
    ensures middle == Stripped(ops, pages, lines)
  {
    var head := 0;
    while head < |lines| && (ops.trim(lines[head]) == "" || ops.lineKey(lines[head]) in navLeading)
      invariant head <= |lines| && HeadCut(ops, pages, lines, 0) == HeadCut(ops, pages, lines, head)
    {
      head := head + 1;
    }
    var tail := |lines|;
    while tail > head && (ops.trim(lines[tail - 1]) == "" || ops.lineKey(lines[tail - 1]) in navTrailing)
      invariant head <= tail <= |lines|
      invariant TailCut(ops, pages, lines, head, |lines|) == TailCut(ops, pages, lines, head, tail)
    {
      tail := tail - 1;
    }
    middle := lines[head..tail];
  }

  /** The page after navigation stripping; fewer than four pages are left alone. */
  function StrippedPage(ops: TextOps, pages: seq<Page>, page: Page): Page {
    if |pages| < MIN_CORPUS then page else Page(page.url, Join(Stripped(ops, pages, Lines(page))))
  }

  /** With four pages or more, what is left of a page is that middle of its lines, joined. */
  lemma StrippedPageReads(ops: TextOps, pages: seq<Page>, page: Page) returns (head: nat, tail: nat)
    ensures |pages| < 4 ==> StrippedPage(ops, pages, page) == page
    ensures |pages| >= 4 ==>
      && IsMiddle(ops, pages, Lines(page), head, tail) && StrippedPage(ops, pages, page).url == page.url
      && Joined(StrippedPage(ops, pages, page).markdown, Lines(page)[head..tail], "\n")
  {
    hide IsMiddle, Joined, Stripped, Lines;
    head, tail := StrippedIsMiddle(ops, pages, Lines(page));
    JoinLaysOut(Stripped(ops, pages, Lines(page)));
  }

  method CountNavigation(ops: TextOps, pages: seq<Page>) returns (countLeading: map<string, nat>, countTrailing: map<string, nat>)
    ensures forall h :: CountOf(countLeading, h) == CountIf(pages, HasHead(ops, h))
    ensures forall h :: CountOf(countTrailing, h) == CountIf(pages, HasTail(ops, h))
  {
    hide KeyIn, CountOf;
    countLeading, countTrailing := map[], map[];
    NothingCounted();
    for p := 0 to |pages|
      invariant forall h :: CountOf(countLeading, h) == CountIf(pages[..p], HasHead(ops, h))
      invariant forall h :: CountOf(countTrailing, h) == CountIf(pages[..p], HasTail(ops, h))
    {
      assert pages[..p + 1][..p] == pages[..p];
      countLeading := Tally(ops.lineKey, HeadLines(Lines(pages[p])), countLeading);
      countTrailing := Tally(ops.lineKey, TailLines(Lines(pages[p])), countTrailing);
    }
    assert pages[..|pages|] == pages;
  }

  lemma NothingCounted()
    ensures forall h :: CountOf(map[], h) == 0
  {
  }

  method StripRepeatedNavigationLines(ops: TextOps, pages: seq<Page>) returns (stripped: seq<Page>)
    ensures |stripped| == |pages|
    ensures forall p :: 0 <= p < |pages| ==> stripped[p] == StrippedPage(ops, pages, pages[p])
  {
    if |pages| < MIN_CORPUS {
      return pages;
    }
    var countLeading, countTrailing := CountNavigation(ops, pages);
    var navLeading := set h | h in countLeading && countLeading[h] * 10 >= |pages| * 6;
    var navTrailing := set h | h in countTrailing && countTrailing[h] * 10 >= |pages| * 6;
    stripped := [];
    for p := 0 to |pages|
      invariant |stripped| == p
      invariant forall q :: 0 <= q < p ==> stripped[q] == StrippedPage(ops, pages, pages[q])
    {
      var middle := StripLines(ops, pages, Lines(pages[p]), navLeading, navTrailing);
      stripped := stripped + [Page(pages[p].url, Join(middle))];
    }
  }

  // ---------------------------------------------------------------- boilerplate blocks

  function PageBlocks(ops: TextOps, pages: seq<Page>, page: Page): seq<string> {
    Blocks(ops, StrippedPage(ops, pages, page).markdown)
  }

  function HasBlock(ops: TextOps, pages: seq<Page>, h: string): Page -> bool {
    page => KeyIn(ops.blockKey, PageBlocks(ops, pages, page), h)
  }

  /** The block is on more than half of the pages. */
  predicate Majority(ops: TextOps, pages: seq<Page>, h: string) {
    CountIf(pages, HasBlock(ops, pages, h)) * 2 > |pages|
  }

  predicate IsBoilerplate(ops: TextOps, pages: seq<Page>, stored: set<string>, h: string) {
    h in stored || Majority(ops, pages, h)
  }

  function Survivors(ops: TextOps, pages: seq<Page>, stored: set<string>, blocks: seq<string>): seq<string> {
    if blocks == [] then []
    else
      var last := blocks[|blocks| - 1];
      Survivors(ops, pages, stored, blocks[..|blocks| - 1])
      + if IsBoilerplate(ops, pages, stored, ops.blockKey(last)) then [] else [last]
  }

  /** `blocks.join("\n\n")`. */
  function JoinBlocks(blocks: seq<string>): string {
    if blocks == [] then ""
    else if |blocks| == 1 then blocks[0]
    else blocks[0] + "\n\n" + JoinBlocks(blocks[1..])
  }

  function CleanPage(ops: TextOps, pages: seq<Page>, stored: set<string>, page: Page): Page {
    Page(page.url, JoinBlocks(Survivors(ops, pages, stored, PageBlocks(ops, pages, page))))
  }

  /** `at` lists, in order, exactly the positions of the blocks that are not boilerplate. */
  ghost predicate PicksSurvivors(ops: TextOps, pages: seq<Page>, stored: set<string>, blocks: seq<string>, at: seq<nat>) {
    && Increasing(at, |blocks|)
    && (forall b :: 0 <= b < |blocks| ==> (b in at <==> !IsBoilerplate(ops, pages, stored, ops.blockKey(blocks[b]))))
  }

  /** The survivors are the blocks at those positions, in the same order. */
  lemma {:induction false} SurvivorsArePicked(ops: TextOps, pages: seq<Page>, stored: set<string>, blocks: seq<string>) returns (at: seq<nat>)
    ensures PicksSurvivors(ops, pages, stored, blocks, at)
    ensures |Survivors(ops, pages, stored, blocks)| == |at|
    ensures forall k :: 0 <= k < |at| ==> Survivors(ops, pages, stored, blocks)[k] == blocks[at[k]]
  {
    hide IsBoilerplate;
    if blocks == [] {
      at := [];
    } else {
      var n := |blocks| - 1;
      at := SurvivorsArePicked(ops, pages, stored, blocks[..n]);
      if !IsBoilerplate(ops, pages, stored, ops.blockKey(blocks[n])) {
        at := at + [n];
      }
    }
  }

  /** Whatever survives anywhere is not remembered for the domain and is on at most half of the pages. */
  lemma SurvivorsAreRare(ops: TextOps, pages: seq<Page>, stored: set<string>, page: Page, block: string)
    requires block in Survivors(ops, pages, stored, PageBlocks(ops, pages, page))
    ensures ops.blockKey(block) !in stored
    ensures CountIf(pages, HasBlock(ops, pages, ops.blockKey(block))) * 2 <= |pages|
    ensures block in PageBlocks(ops, pages, page)
  {
    var at := SurvivorsArePicked(ops, pages, stored, PageBlocks(ops, pages, page));
    var k :| 0 <= k < |at| && Survivors(ops, pages, stored, PageBlocks(ops, pages, page))[k] == block;
    assert at[k] in at;
  }

  /** Joined blocks stand one after the other with exactly two newlines between neighbours. */
  lemma {:induction false} JoinBlocksLaysOut(blocks: seq<string>)
    ensures Joined(JoinBlocks(blocks), blocks, "\n\n")
  {
    hide Joined;
    if blocks == [] {
      NoPart("\n\n");
    } else if |blocks| == 1 {
      OnePart(blocks[0], "\n\n");
      assert blocks == [blocks[0]];
    } else {
      JoinBlocksLaysOut(blocks[1..]);
      OneMorePart(blocks[0], JoinBlocks(blocks[1..]), blocks[1..], "\n\n");
      assert blocks == [blocks[0]] + blocks[1..];
    }
  }

  /** The blocks of a page once its navigation is gone. */
  ghost function BlocksLeft(ops: TextOps, pages: seq<Page>, page: Page): seq<string> {
    Blocks(ops, StrippedPage(ops, pages, page).markdown)
  }

  /** The pages on which some block has this key. */
  ghost function PagesWithBlock(ops: TextOps, pages: seq<Page>, h: string): set<nat> {
    set p | 0 <= p < |pages| &&
      exists b :: 0 <= b < |BlocksLeft(ops, pages, pages[p])| && ops.blockKey(BlocksLeft(ops, pages, pages[p])[b]) == h
  }

  lemma MajorityExactly(ops: TextOps, pages: seq<Page>, h: string)
    ensures Majority(ops, pages, h) <==> 2 * |PagesWithBlock(ops, pages, h)| > |pages|
  {
    hide CountIf, Blocks, StrippedPage;
    CountIsNumber(pages, HasBlock(ops, pages, h));
    forall p | 0 <= p < |pages|
      ensures p in PagesWithBlock(ops, pages, h) <==> HasBlock(ops, pages, h)(pages[p])
    {
      assert PageBlocks(ops, pages, pages[p]) == BlocksLeft(ops, pages, pages[p]);
    }
    assert PagesWithBlock(ops, pages, h) == PagesWith(pages, HasBlock(ops, pages, h));
  }

  /** The positions of the blocks whose keys are neither remembered nor on more than half of the pages. */
  ghost predicate RareAt(ops: TextOps, pages: seq<Page>, stored: set<string>, blocks: seq<string>, at: seq<nat>) {
    && Increasing(at, |blocks|)
    && (forall b :: 0 <= b < |blocks| ==>
          (b in at <==>
             && ops.blockKey(blocks[b]) !in stored
             && 2 * |PagesWithBlock(ops, pages, ops.blockKey(blocks[b]))| <= |pages|))
  }

  /** The cleaned page has the url of the page and, with two newlines between neighbours and nothing else, exactly
      the rare blocks of the page in their order. */
  ghost predicate Cleaned(ops: TextOps, pages: seq<Page>, stored: set<string>, page: Page, clean: Page) {
    && clean.url == page.url
    && exists at, kept ::
        && RareAt(ops, pages, stored, BlocksLeft(ops, pages, page), at)
        && BlocksAt(kept, BlocksLeft(ops, pages, page), at)
        && Joined(clean.markdown, kept, "\n\n")
  }

  ghost predicate BlocksAt(kept: seq<string>, blocks: seq<string>, at: seq<nat>) {
    |kept| == |at| && forall k :: 0 <= k < |at| ==> at[k] < |blocks| && kept[k] == blocks[at[k]]
  }

  lemma CleanPageIsCleaned(ops: TextOps, pages: seq<Page>, stored: set<string>, page: Page)
    ensures Cleaned(ops, pages, stored, page, CleanPage(ops, pages, stored, page))
  {
    hide Joined, Majority, Increasing, PagesWithBlock, Survivors;
    var blocks := PageBlocks(ops, pages, page);
    assert blocks == BlocksLeft(ops, pages, page);
    hide PageBlocks, BlocksLeft;
    var at := SurvivorsArePicked(ops, pages, stored, blocks);
    var kept := Survivors(ops, pages, stored, blocks);
    forall b | 0 <= b < |blocks|
      ensures IsBoilerplate(ops, pages, stored, ops.blockKey(blocks[b])) <==>
        ops.blockKey(blocks[b]) in stored || 2 * |PagesWithBlock(ops, pages, ops.blockKey(blocks[b]))| > |pages|
    {
      MajorityExactly(ops, pages, ops.blockKey(blocks[b]));
    }
    assert RareAt(ops, pages, stored, blocks, at);
    PositionsBelow(at, |blocks|);
    assert BlocksAt(kept, blocks, at);
    JoinBlocksLaysOut(kept);
  }

  lemma PositionsBelow(at: seq<nat>, size: nat)
    requires Increasing(at, size)
    ensures forall k :: 0 <= k < |at| ==> at[k] < size
  {
  }

  // ---------------------------------------------------------------- page order

  lemma NavigationReordered(ops: TextOps, pages: seq<Page>, others: seq<Page>, line: string)
    requires multiset(pages) == multiset(others)
    ensures CutsHead(ops, pages, line) == CutsHead(ops, others, line)
    ensures CutsTail(ops, pages, line) == CutsTail(ops, others, line)
  {
    assert |multiset(pages)| == |pages| && |multiset(others)| == |others|;
    CountIfReordered(pages, others, HasHead(ops, ops.lineKey(line)));
    CountIfReordered(pages, others, HasTail(ops, ops.lineKey(line)));
  }

  lemma StrippedReordered(ops: TextOps, pages: seq<Page>, others: seq<Page>, lines: seq<string>)
    requires multiset(pages) == multiset(others)
    ensures Stripped(ops, pages, lines) == Stripped(ops, others, lines)
  {
    hide CutsHead, CutsTail;
    var head, tail := StrippedIsMiddle(ops, pages, lines);
    var head', tail' := StrippedIsMiddle(ops, others, lines);
    forall k | 0 <= k < |lines|
      ensures CutsHead(ops, pages, lines[k]) == CutsHead(ops, others, lines[k])
      ensures CutsTail(ops, pages, lines[k]) == CutsTail(ops, others, lines[k])
    {
      NavigationReordered(ops, pages, others, lines[k]);
    }
    MiddleIsUnique(ops, pages, lines, head, tail, head', tail');
  }

  lemma BlocksReordered(ops: TextOps, pages: seq<Page>, others: seq<Page>, page: Page)
    requires multiset(pages) == multiset(others)
    ensures PageBlocks(ops, pages, page) == PageBlocks(ops, others, page)
  {
    assert |multiset(pages)| == |pages| && |multiset(others)| == |others|;
    StrippedReordered(ops, pages, others, Lines(page));
  }

  lemma MajorityReordered(ops: TextOps, pages: seq<Page>, others: seq<Page>, h: string)
    requires multiset(pages) == multiset(others)
    ensures Majority(ops, pages, h) == Majority(ops, others, h)
  {
    hide PageBlocks, KeyIn, CountIf;
    assert |multiset(pages)| == |pages| && |multiset(others)| == |others|;
    CountIfReordered(pages, others, HasBlock(ops, pages, h));
    forall page | page in others
      ensures HasBlock(ops, pages, h)(page) == HasBlock(ops, others, h)(page)
    {
      BlocksReordered(ops, pages, others, page);
    }
    CountIfSame(others, HasBlock(ops, pages, h), HasBlock(ops, others, h));
  }

  lemma {:induction false} SurvivorsReordered(ops: TextOps, pages: seq<Page>, others: seq<Page>, stored: set<string>, blocks: seq<string>)
    requires multiset(pages) == multiset(others)
    ensures Survivors(ops, pages, stored, blocks) == Survivors(ops, others, stored, blocks)
  {
    if blocks != [] {
      hide Majority;
      SurvivorsReordered(ops, pages, others, stored, blocks[..|blocks| - 1]);
      MajorityReordered(ops, pages, others, ops.blockKey(blocks[|blocks| - 1]));
    }
  }

  /** What a page becomes, and what the domain learns, does not depend on the order of the pages. */
  lemma OrderDoesNotMatter(ops: TextOps, pages: seq<Page>, others: seq<Page>, stored: set<string>, page: Page, h: string)
    requires multiset(pages) == multiset(others)
    ensures CleanPage(ops, pages, stored, page) == CleanPage(ops, others, stored, page)
    ensures IsBoilerplate(ops, pages, stored, h) == IsBoilerplate(ops, others, stored, h)
  {
    hide Majority, Survivors, PageBlocks;
    BlocksReordered(ops, pages, others, page);
    SurvivorsReordered(ops, pages, others, stored, PageBlocks(ops, pages, page));
    MajorityReordered(ops, pages, others, h);
  }

  // ---------------------------------------------------------------- the stored set

  datatype Row = Row(domain: string, blockHash: string)

  method ToSeq(items: set<string>) returns (list: seq<string>)
    ensures forall h :: h in list <==> h in items
  {
    list := [];
    var left := items;
    while left != {}
      invariant forall h :: h in items <==> h in left || h in list
      decreases |left|
    {
      var h :| h in left;
      left := left - {h};
      list := list + [h];
    }
  }

  /** The table domain_boilerplate, keyed by domain and hash. */
  class DomainBoilerplate {
    var rows: set<Row>

    constructor ()
      ensures rows == {}
    {
      rows := {};
    }

    ghost function StoredFor(domain: Option<string>): set<string>
      reads this
    {
      if domain.Some? && domain.value != "" then set r | r in rows && r.domain == domain.value :: r.blockHash else {}
    }

    method GetStoredBoilerplate(domain: string) returns (hashes: set<string>)
      ensures forall h :: h in hashes <==> Row(domain, h) in rows
    {
      hashes := set r | r in rows && r.domain == domain :: r.blockHash;
      assert forall h :: Row(domain, h) in rows ==> Row(domain, h).blockHash in hashes;
    }

    /** DELETE, then INSERT OR IGNORE each hash, in one transaction. */
    method StoreBoilerplate(domain: string, hashes: seq<string>)
      modifies this
      ensures forall d, h :: Row(d, h) in rows <==> if d == domain then h in hashes else Row(d, h) in old(rows)
    {
      rows := set r | r in rows && r.domain != domain;
      for k := 0 to |hashes|
        invariant forall d, h :: Row(d, h) in rows <==> if d == domain then h in hashes[..k] else Row(d, h) in old(rows)
      {
        assert hashes[..k + 1] == hashes[..k] + [hashes[k]];
        rows := rows + {Row(domain, hashes[k])};
      }
      assert hashes[..|hashes|] == hashes;
    }

    /** Two or more pages lose their boilerplate and a named domain remembers it on top of what it knew; one
        page passes through. Other domains are untouched. */
    method DeduplicatePages(ops: TextOps, pages: seq<Page>, domain: Option<string>) returns (clean: seq<Page>)
      modifies this
      ensures |pages| <= 1 ==> clean == pages && rows == old(rows)
      ensures |pages| > 1 ==>
        && |clean| == |pages|
        && (forall p :: 0 <= p < |pages| ==> clean[p] == CleanPage(ops, pages, old(StoredFor(domain)), pages[p]))
        && (forall p :: 0 <= p < |pages| ==> Cleaned(ops, pages, old(StoredFor(domain)), pages[p], clean[p]))
      ensures |pages| > 1 ==>
        forall d, h :: Row(d, h) in rows <==>
          Row(d, h) in old(rows) || (domain == Some(d) && d != "" && 2 * |PagesWithBlock(ops, pages, h)| > |pages|)
    {
      if |pages| <= 1 {
        return pages;
      }
      hide Majority, PageBlocks, Survivors, StrippedPage, CleanPage, Cleaned, CountIf, PagesWithBlock;
      var stripped := StripRepeatedNavigationLines(ops, pages);
      var boilerplate: set<string> := {};
      if domain.Some? && domain.value != "" {
        boilerplate := GetStoredBoilerplate(domain.value);
      }
      ghost var stored := StoredFor(domain);
      assert boilerplate == stored;
      var pageBlocks := SplitPages(ops, pages, stripped);
      var frequent := FrequentHashes(ops, pages, pageBlocks);
      boilerplate := boilerplate + frequent;
      if domain.Some? && domain.value != "" {
        var hashes := ToSeq(boilerplate);
        StoreBoilerplate(domain.value, hashes);
      }
      clean := StripBoilerplate(ops, pages, stored, pageBlocks, boilerplate);
      forall p | 0 <= p < |pages|
        ensures Cleaned(ops, pages, stored, pages[p], clean[p])
      {
        CleanPageIsCleaned(ops, pages, stored, pages[p]);
      }
      forall h
        ensures Majority(ops, pages, h) <==> 2 * |PagesWithBlock(ops, pages, h)| > |pages|
      {
        MajorityExactly(ops, pages, h);
      }
    }
  }

  method StripBoilerplate(ops: TextOps, pages: seq<Page>, ghost stored: set<string>, pageBlocks: seq<seq<string>>, boilerplate: set<string>)
    returns (clean: seq<Page>)
    requires |pageBlocks| == |pages|
    requires forall p :: 0 <= p < |pages| ==> pageBlocks[p] == PageBlocks(ops, pages, pages[p])
    requires forall h :: h in boilerplate <==> IsBoilerplate(ops, pages, stored, h)
    ensures |clean| == |pages|
    ensures forall p :: 0 <= p < |pages| ==> clean[p] == CleanPage(ops, pages, stored, pages[p])
  {
    hide PageBlocks, IsBoilerplate, Survivors, JoinBlocks;
    clean := [];
    for p := 0 to |pages|
      invariant |clean| == p
      invariant forall q :: 0 <= q < p ==> clean[q] == CleanPage(ops, pages, stored, pages[q])
    {
      var kept := FilterBlocks(ops, pages, stored, pageBlocks[p], boilerplate);
      clean := clean + [Page(pages[p].url, JoinBlocks(kept))];
    }
  }

  method SplitPages(ops: TextOps, ghost pages: seq<Page>, stripped: seq<Page>) returns (pageBlocks: seq<seq<string>>)
    requires |stripped| == |pages|
    requires forall p :: 0 <= p < |pages| ==> stripped[p] == StrippedPage(ops, pages, pages[p])
    ensures |pageBlocks| == |pages|
    ensures forall p :: 0 <= p < |pages| ==> pageBlocks[p] == PageBlocks(ops, pages, pages[p])
  {
    hide StrippedPage, Blocks;
    pageBlocks := [];
    for p := 0 to |stripped|
      invariant |pageBlocks| == p
      invariant forall q :: 0 <= q < p ==> pageBlocks[q] == PageBlocks(ops, pages, pages[q])
    {
      var blocks := SplitIntoBlocks(ops, stripped[p].markdown);
      pageBlocks := pageBlocks + [blocks];
    }
  }

  /** The hashes found on more than half of the pages. */
  method FrequentHashes(ops: TextOps, pages: seq<Page>, pageBlocks: seq<seq<string>>) returns (frequent: set<string>)
    requires |pageBlocks| == |pages|
    requires forall p :: 0 <= p < |pages| ==> pageBlocks[p] == PageBlocks(ops, pages, pages[p])
    ensures forall h :: h in frequent <==> Majority(ops, pages, h)
  {
    hide KeyIn, PageBlocks;
    var counts: map<string, nat> := map[];
    for p := 0 to |pages|
      invariant forall h :: CountOf(counts, h) == CountIf(pages[..p], HasBlock(ops, pages, h))
    {
      assert pages[..p + 1][..p] == pages[..p];
      counts := Tally(ops.blockKey, pageBlocks[p], counts);
    }
    assert pages[..|pages|] == pages;
    frequent := set h | h in counts && counts[h] * 2 > |pages|;
  }

  method FilterBlocks(ops: TextOps, ghost pages: seq<Page>, ghost stored: set<string>, blocks: seq<string>, boilerplate: set<string>)
    returns (kept: seq<string>)
    requires forall h :: h in boilerplate <==> IsBoilerplate(ops, pages, stored, h)
    ensures kept == Survivors(ops, pages, stored, blocks)
  {
    hide IsBoilerplate;
    kept := [];
    for b := 0 to |blocks|
      invariant kept == Survivors(ops, pages, stored, blocks[..b])
    {
      assert blocks[..b + 1][..b] == blocks[..b];
      if ops.blockKey(blocks[b]) !in boilerplate {
        kept := kept + [blocks[b]];
      }
    }
    assert blocks[..|blocks|] == blocks;
  }
}

/** Printing hunks as unified-diff text, reading such text back, and the two composed: what
    `renderUnifiedDiff` prints can be parsed and applied, forward and in reverse. */
module PatchText {
  import opened Lcs
  import opened EditScript
  import opened HunkGrouping
  import opened LineText
  import opened Options
  import opened UnifiedPatch

  // ---------------------------------------------------------------- printing

  function DigitChar(d: nat): char
    requires d < 10
  {
    ('0' as int + d) as char
  }

  function Decimal(n: nat): string {
    if n < 10 then [DigitChar(n)] else Decimal(n / 10) + [DigitChar(n % 10)]
  }

  function Number(x: int): string {
    if x < 0 then "-" + Decimal(-x) else Decimal(x)
  }

  function Header(h: Hunk<string>): string {
    "@@ -" + (Number(h.oldStart) + ("," + (Number(h.oldLen) + (" +" +
    (Number(h.newStart) + ("," + (Number(h.newLen) + " @@")))))))
  }

  function BodyLine(line: PatchLine<string>): string {
    match line
    case Context(l) => " " + l
    case Removed(l) => "-" + l
    case Added(l) => "+" + l
  }

  function BodyLines(lines: seq<PatchLine<string>>): seq<string> {
    if lines == [] then [] else [BodyLine(lines[0])] + BodyLines(lines[1..])
  }

  function HunkLines(hunks: seq<Hunk<string>>): seq<string> {
    if hunks == [] then []
    else [Header(hunks[0])] + (BodyLines(hunks[0].lines) + HunkLines(hunks[1..]))
  }

  const OLD_HEADER: string := "--- old"
  const NEW_HEADER: string := "+++ new"

  function PatchLines(hunks: seq<Hunk<string>>): seq<string> {
    [OLD_HEADER, NEW_HEADER] + HunkLines(hunks)
  }

  /** The printing half of the renderer: lengths are counted, then header and body are pushed. */
  method PrintGroup(g: Group<string>) returns (lines: seq<string>)
    ensures lines == [Header(HunkOf(g))] + BodyLines(HunkOf(g).lines)
  {
    NothingToPrint();
    hide OldOf, NewOf, Number, BodyLines, LinesOfOps;
    assert g.ops[0..] == g.ops;
    var oldLen, newLen := 0, 0;
    for k := 0 to |g.ops|
      invariant oldLen + |OldOf(g.ops[k..])| == |OldOf(g.ops)|
      invariant newLen + |NewOf(g.ops[k..])| == |NewOf(g.ops)|
    {
      CountStep(g.ops, k);
      match g.ops[k] {
        case Equal(_, _) => oldLen, newLen := oldLen + 1, newLen + 1;
        case Delete(_) => oldLen := oldLen + 1;
        case Insert(_) => newLen := newLen + 1;
      }
    }
    lines := ["@@ -" + (Number(g.oldStart) + ("," + (Number(oldLen) + (" +" +
              (Number(g.newStart) + ("," + (Number(newLen) + " @@")))))))];
    assert g.ops[|g.ops|..] == [];
    for k := 0 to |g.ops|
      invariant lines + BodyLines(LinesOfOps(g.ops[k..])) == [Header(HunkOf(g))] + BodyLines(HunkOf(g).lines)
    {
      PrintStep(g.ops, k);
      var text: string;
      match g.ops[k] {
        case Equal(o, _) => text := " " + o;
        case Delete(o) => text := "-" + o;
        case Insert(n) => text := "+" + n;
      }
      assert text == BodyLine(LineOf(g.ops[k]));
      Regroup(lines, [text], BodyLines(LinesOfOps(g.ops[k + 1..])));
      lines := lines + [text];
    }
  }

  lemma NothingToPrint()
    ensures OldOf<string>([]) == [] && NewOf<string>([]) == [] && BodyLines(LinesOfOps([])) == []
  {
  }

  lemma CountStep(ops: seq<EditOp<string>>, k: nat)
    requires k < |ops|
    ensures |OldOf(ops[k..])| == |OldOf(ops[k + 1..])| + (if ops[k].Insert? then 0 else 1)
    ensures |NewOf(ops[k..])| == |NewOf(ops[k + 1..])| + (if ops[k].Delete? then 0 else 1)
  {
    assert ops[k..][1..] == ops[k + 1..];
  }

  lemma PrintStep(ops: seq<EditOp<string>>, k: nat)
    requires k < |ops|
    ensures BodyLines(LinesOfOps(ops[k..])) == [BodyLine(LineOf(ops[k]))] + BodyLines(LinesOfOps(ops[k + 1..]))
  {
    assert ops[k..][1..] == ops[k + 1..];
    assert LinesOfOps(ops[k..])[1..] == LinesOfOps(ops[k + 1..]);
  }

  lemma HunkLinesStep(groups: seq<Group<string>>, k: nat)
    requires k < |groups|
    ensures HunkLines(HunksOf(groups[k..]))
            == [Header(HunkOf(groups[k]))] + BodyLines(HunkOf(groups[k]).lines) + HunkLines(HunksOf(groups[k + 1..]))
  {
    assert groups[k..][1..] == groups[k + 1..];
    assert HunksOf(groups[k..])[1..] == HunksOf(groups[k + 1..]);
  }

  /** The text prints the grouping of the script. */
  ghost predicate Renders(ops: seq<EditOp<string>>, text: string) {
    exists groups: seq<Group<string>> :: Groups(ops, groups) && text == Join(PatchLines(HunksOf(groups)))
  }

  /** A script has one rendering. */
  lemma RenderingIsUnique(ops: seq<EditOp<string>>, text: string, other: string)
    requires Renders(ops, text) && Renders(ops, other)
    ensures text == other
  {
    hide IsGrouping, PatchLines, HunksOf, Join;
    var gs: seq<Group<string>> :| Groups(ops, gs) && text == Join(PatchLines(HunksOf(gs)));
    var hs: seq<Group<string>> :| Groups(ops, hs) && other == Join(PatchLines(HunksOf(hs)));
    var ss: seq<Span> :| IsGrouping(ops, gs, ss);
    var ts: seq<Span> :| IsGrouping(ops, hs, ts);
    GroupingIsUnique(ops, gs, ss, hs, ts);
  }

  /** Numbers are printed digit by digit, most significant first. */
  lemma DigitByDigit(n: nat, d: nat)
    requires d < 10
    ensures Decimal(d) == ["0123456789"[d]]
    ensures n > 0 ==> Decimal(10 * n + d) == Decimal(n) + ["0123456789"[d]]
  {
    assert DigitChar(d) == "0123456789"[d];
    assert n > 0 ==> (10 * n + d) / 10 == n && (10 * n + d) % 10 == d;
  }

  const ONE_CHANGE: seq<EditOp<string>> := [Equal("k", "k"), Delete("x"), Insert("y")]

  lemma OneChangeGrouped()
    ensures IsGrouping(ONE_CHANGE, [Group(ONE_CHANGE, 1, 1)], [Span(0, 1, 3, 3)])
    ensures HunkOf(Group(ONE_CHANGE, 1, 1)) == Hunk(1, 2, 1, 2, [Context("k"), Removed("x"), Added("y")])
  {
    var ops, spans := ONE_CHANGE, [Span(0, 1, 3, 3)];
    assert ops[0..3] == ops && ops[..0] == [] && ops[3..] == [] && |ops| == 3;
    assert ops[1..][0] == ops[1] && ops[1..][1..] == ops[2..] && ops[2..][0] == ops[2] && ops[2..][1..] == [];
    assert PreviousLast(spans, 1) == 3 && PreviousLast(spans, 0) == 0;
    assert GroupAt(ops, spans[0]) == Group(ops, 1, 1);
    assert Placed(ops, [Group(ops, 1, 1)], spans, 0);
  }

  lemma JoinMore(line: string, rest: seq<string>)
    requires rest != []
    ensures Join([line] + rest) == line + "\n" + Join(rest)
  {
    assert ([line] + rest)[1..] == rest;
  }

  lemma BodyMore(line: PatchLine<string>, rest: seq<PatchLine<string>>)
    ensures BodyLines([line] + rest) == [BodyLine(line)] + BodyLines(rest)
  {
    assert ([line] + rest)[1..] == rest;
  }

  lemma OneHunkLines(h: Hunk<string>)
    ensures PatchLines([h]) == ["--- old", "+++ new", Header(h)] + BodyLines(h.lines)
  {
    hide Header, BodyLines;
    assert [h][1..] == [];
    assert HunkLines([h]) == [Header(h)] + (BodyLines(h.lines) + HunkLines([]));
  }

  lemma SmallHeader()
    ensures forall lines :: Header(Hunk(1, 2, 1, 2, lines)) == "@@ -1,2 +1,2 @@"
  {
    assert Number(1) == "1" && Number(2) == "2";
  }

  lemma NoBody()
    ensures BodyLines([]) == []
  {
  }

  lemma ExampleBody()
    ensures BodyLines([Context("k"), Removed("x"), Added("y")]) == [" k", "-x", "+y"]
  {
    hide BodyLines;
    NoBody();
    BodyMore(Added("y"), []);
    BodyMore(Removed("x"), [Added("y")]);
    BodyMore(Context("k"), [Removed("x"), Added("y")]);
    assert [Added("y")] + [] == [Added("y")] && [Removed("x")] + [Added("y")] == [Removed("x"), Added("y")];
    assert [Context("k")] + [Removed("x"), Added("y")] == [Context("k"), Removed("x"), Added("y")];
    assert " " + "k" == " k" && "-" + "x" == "-x" && "+" + "y" == "+y";
  }

  /** The text of one changed line after one kept line, in full. */
  lemma PrintedExample()
    ensures Renders(ONE_CHANGE, "--- old\n+++ new\n@@ -1,2 +1,2 @@\n k\n-x\n+y")
  {
    OneChangeGrouped();
    SmallHeader();
    ExampleBody();
    hide IsGrouping, HunkOf, Header, BodyLines, PatchLines, Join;
    var groups: seq<Group<string>> := [Group(ONE_CHANGE, 1, 1)];
    OneHunkOf(Group(ONE_CHANGE, 1, 1));
    var hunk := HunkOf(groups[0]);
    OneHunkLines(hunk);
    assert PatchLines(HunksOf(groups)) == ["--- old", "+++ new", "@@ -1,2 +1,2 @@", " k", "-x", "+y"];
    JoinSix("--- old", "+++ new", "@@ -1,2 +1,2 @@", " k", "-x", "+y");
    assert Groups(ONE_CHANGE, groups);
  }

  lemma OneHunkOf(g: Group<string>)
    ensures HunksOf([g]) == [HunkOf(g)]
  {
    hide HunkOf;
    assert [g][1..] == [];
  }

  lemma JoinSix(a: string, b: string, c: string, d: string, e: string, f: string)
    ensures Join([a, b, c, d, e, f]) == a + "\n" + (b + "\n" + (c + "\n" + (d + "\n" + (e + "\n" + f))))
  {
    JoinMore(e, [f]);
    JoinMore(d, [e, f]);
    JoinMore(c, [d, e, f]);
    JoinMore(b, [c, d, e, f]);
    JoinMore(a, [b, c, d, e, f]);
    hide Join;
    assert [e] + [f] == [e, f] && [d] + [e, f] == [d, e, f] && [c] + [d, e, f] == [c, d, e, f];
    assert [b] + [c, d, e, f] == [b, c, d, e, f] && [a] + [b, c, d, e, f] == [a, b, c, d, e, f];
    JoinLast(f);
  }

  lemma JoinLast(line: string)
    ensures Join([line]) == line
  {
  }

  method RenderUnifiedDiff(ops: seq<EditOp<string>>) returns (text: string)
    ensures Renders(ops, text)
  {
    hide Groups, HunksOf, HunkLines, HunkOf, Header, BodyLines, Join;
    var found, spans := GroupOps(ops);
    var lines := [OLD_HEADER] + [NEW_HEADER];
    for k := 0 to |found|
      invariant lines + HunkLines(HunksOf(found[k..])) == PatchLines(HunksOf(found))
    {
      HunkLinesStep(found, k);
      var printed := PrintGroup(found[k]);
      Regroup(lines, printed, HunkLines(HunksOf(found[k + 1..])));
      lines := lines + printed;
    }
    assert found[|found|..] == [];
    NoHunkLines(lines);
    text := Join(lines);
  }

  lemma NoHunkLines(lines: seq<string>)
    ensures lines + HunkLines(HunksOf([])) == lines
  {
  }

  // ---------------------------------------------------------------- reading

  predicate IsDigit(c: char) { '0' <= c <= '9' }

  function ReadDigits(s: string, value: nat): (nat, string) {
    if |s| > 0 && IsDigit(s[0]) then ReadDigits(s[1..], 10 * value + (s[0] as int - '0' as int))
    else (value, s)
  }

  function ReadNumber(s: string): Option<(nat, string)> {
    if |s| > 0 && IsDigit(s[0]) then Some(ReadDigits(s, 0)) else None
  }

  function Expect(s: string, literal: string): Option<string> {
    if literal <= s then Some(s[|literal|..]) else None
  }

  function ReadHeader(s: string): Option<(nat, nat, nat, nat)> {
    var s1 :- Expect(s, "@@ -");
    var (oldStart, s2) :- ReadNumber(s1);
    var s3 :- Expect(s2, ",");
    var (oldLen, s4) :- ReadNumber(s3);
    var s5 :- Expect(s4, " +");
    var (newStart, s6) :- ReadNumber(s5);
    var s7 :- Expect(s6, ",");
    var (newLen, s8) :- ReadNumber(s7);
    if s8 == " @@" then Some((oldStart, oldLen, newStart, newLen)) else None
  }

  /** Reads body lines until the two stated lengths are used up. */
  function ReadBody(lines: seq<string>, oldLeft: nat, newLeft: nat): (r: Option<(seq<PatchLine<string>>, seq<string>)>)
    ensures r.Some? ==> |r.value.1| <= |lines|
  {
    if oldLeft == 0 && newLeft == 0 then Some(([], lines))
    else if |lines| == 0 || |lines[0]| == 0 then None
    else
      var tag, text := lines[0][0], lines[0][1..];
      if tag == ' ' && oldLeft > 0 && newLeft > 0 then
        var (body, rest) :- ReadBody(lines[1..], oldLeft - 1, newLeft - 1);
        Some(([Context(text)] + body, rest))
      else if tag == '-' && oldLeft > 0 then
        var (body, rest) :- ReadBody(lines[1..], oldLeft - 1, newLeft);
        Some(([Removed(text)] + body, rest))
      else if tag == '+' && newLeft > 0 then
        var (body, rest) :- ReadBody(lines[1..], oldLeft, newLeft - 1);
        Some(([Added(text)] + body, rest))
      else None
  }

  function ReadHunks(lines: seq<string>): Option<seq<Hunk<string>>>
    decreases |lines|
  {
    if lines == [] then Some([])
    else
      var (oldStart, oldLen, newStart, newLen) :- ReadHeader(lines[0]);
      var (body, rest) :- ReadBody(lines[1..], oldLen, newLen);
      var hunks :- ReadHunks(rest);
      Some([Hunk(oldStart, oldLen, newStart, newLen, body)] + hunks)
  }

  /** The empty text is the patch without hunks. */
  function ReadPatch(text: string): Option<seq<Hunk<string>>> {
    if text == "" then Some([])
    else
      var lines := SplitOnNewline(text);
      if |lines| >= 2 && lines[0] == OLD_HEADER && lines[1] == NEW_HEADER then ReadHunks(lines[2..]) else None
  }

  function ApplyPatch(text: string, before: seq<string>): Option<seq<string>> {
    var hunks :- ReadPatch(text);
    Apply(hunks, before)
  }

  function ApplyPatchReverse(text: string, after: seq<string>): Option<seq<string>> {
    var hunks :- ReadPatch(text);
    ApplyReverse(hunks, after)
  }

  // ---------------------------------------------------------------- reading what was printed

  lemma {:induction false} DecimalDigits(n: nat)
    ensures |Decimal(n)| > 0
    ensures forall k :: 0 <= k < |Decimal(n)| ==> IsDigit(Decimal(n)[k])
  {
    if n >= 10 {
      DecimalDigits(n / 10);
    }
  }

  lemma {:induction false} ReadDecimal(n: nat, rest: string)
    ensures ReadDigits(Decimal(n) + rest, 0) == ReadDigits(rest, n)
  {
    if n >= 10 {
      var d := DigitChar(n % 10);
      assert Decimal(n) + rest == Decimal(n / 10) + ([d] + rest);
      ReadDecimal(n / 10, [d] + rest);
      assert ([d] + rest)[1..] == rest;
    } else {
      assert Decimal(n) + rest == [DigitChar(n)] + rest;
      assert ([DigitChar(n)] + rest)[1..] == rest;
    }
  }

  lemma ReadNumberBack(n: nat, rest: string)
    requires |rest| > 0 ==> !IsDigit(rest[0])
    ensures ReadNumber(Decimal(n) + rest) == Some((n, rest))
  {
    DecimalDigits(n);
    ReadDecimal(n, rest);
  }

  lemma ExpectBack(literal: string, rest: string)
    ensures Expect(literal + rest, literal) == Some(rest)
  {
  }

  lemma ReadHeaderBack(h: Hunk<string>)
    requires h.oldStart >= 0 && h.newStart >= 0
    ensures ReadHeader(Header(h)) == Some((h.oldStart, h.oldLen, h.newStart, h.newLen))
  {
    var t8 := " @@";
    var t7 := Decimal(h.newLen) + t8;
    var t6 := "," + t7;
    var t5 := Decimal(h.newStart) + t6;
    var t4 := " +" + t5;
    var t3 := Decimal(h.oldLen) + t4;
    var t2 := "," + t3;
    var t1 := Decimal(h.oldStart) + t2;
    ExpectBack("@@ -", t1);
    ReadNumberBack(h.oldStart, t2);
    ExpectBack(",", t3);
    ReadNumberBack(h.oldLen, t4);
    ExpectBack(" +", t5);
    ReadNumberBack(h.newStart, t6);
    ExpectBack(",", t7);
    ReadNumberBack(h.newLen, t8);
    assert Header(h) == "@@ -" + t1;
    hide Expect, ReadNumber, Decimal, Number, Header;
  }

  /** Reading a line that stands in front of a readable body. */
  lemma ReadLineBack(line: PatchLine<string>, lines: seq<string>, oldLeft: nat, newLeft: nat)
    requires lines != [] && lines[0] == BodyLine(line) && ReadBody(lines[1..], oldLeft, newLeft).Some?
    ensures var (body, rest) := ReadBody(lines[1..], oldLeft, newLeft).value;
      ReadBody(lines, oldLeft + (if line.Added? then 0 else 1), newLeft + (if line.Removed? then 0 else 1))
      == Some(([line] + body, rest))
  {
    assert BodyLine(line)[1..] == line.line;
  }

  lemma SidesOfMore(line: PatchLine<string>, lines: seq<PatchLine<string>>)
    ensures |OldSide([line] + lines)| == |OldSide(lines)| + (if line.Added? then 0 else 1)
    ensures |NewSide([line] + lines)| == |NewSide(lines)| + (if line.Removed? then 0 else 1)
  {
    assert ([line] + lines)[1..] == lines;
  }

  lemma {:induction false} ReadBodyBack(lines: seq<PatchLine<string>>, rest: seq<string>)
    ensures ReadBody(BodyLines(lines) + rest, |OldSide(lines)|, |NewSide(lines)|) == Some((lines, rest))
  {
    if lines == [] {
      assert BodyLines(lines) + rest == rest;
    } else {
      var line := lines[0];
      ReadBodyBack(lines[1..], rest);
      BodyMore(line, lines[1..]);
      SidesOfMore(line, lines[1..]);
      assert lines == [line] + lines[1..];
      var all := BodyLines(lines) + rest;
      assert all[0] == BodyLine(line) && all[1..] == BodyLines(lines[1..]) + rest;
      ReadLineBack(line, all, |OldSide(lines[1..])|, |NewSide(lines[1..])|);
    }
  }

  ghost predicate Printable(h: Hunk<string>) {
    h.oldStart >= 0 && h.newStart >= 0 && h.oldLen == |OldSide(h.lines)| && h.newLen == |NewSide(h.lines)|
  }

  lemma {:induction false} ReadHunksBack(hunks: seq<Hunk<string>>)
    requires forall k :: 0 <= k < |hunks| ==> Printable(hunks[k])
    ensures ReadHunks(HunkLines(hunks)) == Some(hunks)
  {
    if hunks != [] {
      var h := hunks[0];
      ReadHunksBack(hunks[1..]);
      ReadHeaderBack(h);
      ReadBodyBack(h.lines, HunkLines(hunks[1..]));
      var lines := HunkLines(hunks);
      assert lines[0] == Header(h);
      assert lines[1..] == BodyLines(h.lines) + HunkLines(hunks[1..]);
      assert hunks == [h] + hunks[1..];
      hide ReadHeader, ReadBody, Header, BodyLines;
    }
  }

  // ---------------------------------------------------------------- no line break inside a printed line

  ghost predicate OneLine(s: string) { '\n' !in s }

  ghost predicate OneLineEach(lines: seq<string>) { forall k :: 0 <= k < |lines| ==> OneLine(lines[k]) }

  lemma NumberOneLine(x: int)
    ensures OneLine(Number(x))
  {
    DecimalDigits(if x < 0 then -x else x);
  }

  lemma HeaderOneLine(h: Hunk<string>)
    ensures OneLine(Header(h))
  {
    NumberOneLine(h.oldStart);
    NumberOneLine(h.oldLen);
    NumberOneLine(h.newStart);
    NumberOneLine(h.newLen);
    hide Number;
  }

  ghost predicate PlainHunk(h: Hunk<string>) {
    forall k :: 0 <= k < |h.lines| ==> OneLine(h.lines[k].line)
  }

  lemma {:induction false} BodyOneLineEach(lines: seq<PatchLine<string>>)
    requires forall k :: 0 <= k < |lines| ==> OneLine(lines[k].line)
    ensures OneLineEach(BodyLines(lines))
  {
    if lines != [] {
      BodyOneLineEach(lines[1..]);
      assert OneLine(BodyLine(lines[0]));
    }
  }

  lemma {:induction false} HunkLinesOneLineEach(hunks: seq<Hunk<string>>)
    requires forall k :: 0 <= k < |hunks| ==> PlainHunk(hunks[k])
    ensures OneLineEach(HunkLines(hunks))
  {
    if hunks != [] {
      HunkLinesOneLineEach(hunks[1..]);
      assert PlainHunk(hunks[0]);
      BodyOneLineEach(hunks[0].lines);
      HeaderOneLine(hunks[0]);
      hide Header, BodyLines, OneLine;
    }
  }

  /** Reading undoes printing. */
  lemma ReadPatchBack(hunks: seq<Hunk<string>>)
    requires forall k :: 0 <= k < |hunks| ==> Printable(hunks[k])
    requires forall k :: 0 <= k < |hunks| ==> PlainHunk(hunks[k])
    ensures ReadPatch(Join(PatchLines(hunks))) == Some(hunks)
  {
    HunkLinesOneLineEach(hunks);
    ReadHunksBack(hunks);
    var lines := PatchLines(hunks);
    assert lines[0] == OLD_HEADER && lines[1] == NEW_HEADER && lines[2..] == HunkLines(hunks);
    assert OneLine(OLD_HEADER) && OneLine(NEW_HEADER);
    assert OneLineEach(lines);
    SplitJoin(lines);
    JoinEmpty(lines);
  }

  // ---------------------------------------------------------------- the hunks of a script

  ghost predicate PlainOps(ops: seq<EditOp<string>>) {
    forall k :: 0 <= k < |ops| ==> (ops[k].Insert? || Plain(ops[k].oldLine)) && (ops[k].Delete? || Plain(ops[k].newLine))
  }

  lemma {:induction false} ScriptIsPlain(ops: seq<EditOp<string>>)
    requires AllPlain(OldOf(ops)) && AllPlain(NewOf(ops))
    ensures PlainOps(ops)
  {
    if ops != [] {
      var o, n, op := OldOf(ops), NewOf(ops), ops[0];
      assert if op.Insert? then o == OldOf(ops[1..]) else o[0] == op.oldLine && o[1..] == OldOf(ops[1..]);
      assert if op.Delete? then n == NewOf(ops[1..]) else n[0] == op.newLine && n[1..] == NewOf(ops[1..]);
      ScriptIsPlain(ops[1..]);
      assert ops == [op] + ops[1..];
    }
  }

  lemma {:induction false} PlainLinesOfOps(ops: seq<EditOp<string>>)
    requires PlainOps(ops)
    ensures forall k :: 0 <= k < |LinesOfOps(ops)| ==> OneLine(LinesOfOps(ops)[k].line)
  {
    if ops != [] {
      PlainLinesOfOps(ops[1..]);
    }
  }

  lemma {:induction false} HunksAt<T>(groups: seq<Group<T>>, k: nat)
    requires k < |groups|
    ensures k < |HunksOf(groups)| == |groups| && HunksOf(groups)[k] == HunkOf(groups[k])
  {
    if k > 0 {
      HunksAt(groups[1..], k - 1);
    } else if |groups| > 1 {
      HunksAt(groups[1..], 0);
    }
  }

  lemma HunksPrintable(ops: seq<EditOp<string>>, groups: seq<Group<string>>, spans: seq<Span>, k: nat)
    requires Sound(ops) && PlainOps(ops) && IsGrouping(ops, groups, spans) && k < |groups|
    ensures k < |HunksOf(groups)| && Printable(HunksOf(groups)[k]) && PlainHunk(HunksOf(groups)[k])
  {
    HunksAt(groups, k);
    PlacedAll(ops, groups, spans, k);
    assert Sound(groups[k].ops);
    SidesOfLines(groups[k].ops);
    assert PlainOps(groups[k].ops);
    PlainLinesOfOps(groups[k].ops);
  }

  lemma PrintedGroupsRoundTrip(ops: seq<EditOp<string>>, groups: seq<Group<string>>, spans: seq<Span>)
    requires Sound(ops) && AllPlain(OldOf(ops)) && AllPlain(NewOf(ops)) && IsGrouping(ops, groups, spans)
    ensures var text := Join(PatchLines(HunksOf(groups)));
      && ApplyPatch(text, OldOf(ops)) == Some(NewOf(ops))
      && ApplyPatchReverse(text, NewOf(ops)) == Some(OldOf(ops))
      && text != ""
  {
    ScriptIsPlain(ops);
    var hunks := HunksOf(groups);
    assert |hunks| == |groups| by {
      if groups != [] { HunksAt(groups, 0); }
    }
    forall k: nat | k < |hunks|
      ensures Printable(hunks[k]) && PlainHunk(hunks[k])
    {
      HunksPrintable(ops, groups, spans, k);
    }
    ReadPatchBack(hunks);
    JoinEmpty(PatchLines(hunks));
    ForwardRoundTrip(ops, groups, spans);
    ReverseRoundTrip(ops, groups, spans);
  }

  /** The rendered text of a script, read back and applied to the old lines, gives the new lines; applied in
      reverse to the new lines it gives the old lines. */
  lemma PatchTextRoundTrip(ops: seq<EditOp<string>>, text: string)
    requires Sound(ops) && AllPlain(OldOf(ops)) && AllPlain(NewOf(ops)) && Renders(ops, text)
    ensures ApplyPatch(text, OldOf(ops)) == Some(NewOf(ops))
    ensures ApplyPatchReverse(text, NewOf(ops)) == Some(OldOf(ops))
    ensures text != ""
  {
    hide IsGrouping, PatchLines, HunksOf, Join, AllPlain, ApplyPatch, ApplyPatchReverse;
    var groups: seq<Group<string>> :| Groups(ops, groups) && text == Join(PatchLines(HunksOf(groups)));
    var spans: seq<Span> :| IsGrouping(ops, groups, spans);
    PrintedGroupsRoundTrip(ops, groups, spans);
  }
}

/** Splitting text into lines and joining lines back, as both diff modules do it. */
module LineText {
  import opened Layout

  function ReplaceCrLf(s: string): string {
    if |s| == 0 then ""
    else if |s| >= 2 && s[0] == '\r' && s[1] == '\n' then "\n" + ReplaceCrLf(s[2..])
    else [s[0]] + ReplaceCrLf(s[1..])
  }

  function ReplaceCr(s: string): string {
    if |s| == 0 then ""
    else [if s[0] == '\r' then '\n' else s[0]] + ReplaceCr(s[1..])
  }

  /** CRLF and lone CR both become LF. */
  function NormalizeLineEndings(s: string): string {
    ReplaceCr(ReplaceCrLf(s))
  }

  /** `s.split("\n")`: always at least one part. */
  function SplitOnNewline(s: string): (parts: seq<string>)
    ensures |parts| > 0
  {
    if |s| == 0 then [""]
    else if s[0] == '\n' then [""] + SplitOnNewline(s[1..])
    else
      var rest := SplitOnNewline(s[1..]);
      [[s[0]] + rest[0]] + rest[1..]
  }

  /** `lines.join("\n")`. */
  function Join(lines: seq<string>): string {
    if |lines| == 0 then ""
    else if |lines| == 1 then lines[0]
    else lines[0] + "\n" + Join(lines[1..])
  }

  function DropLastEmpty(parts: seq<string>): seq<string> {
    if |parts| > 0 && parts[|parts| - 1] == "" then parts[..|parts| - 1] else parts
  }

  /** The lines of a text: no part for a final newline, no lines at all in the empty text. */
  function LinesOf(text: string): seq<string> {
    if text == "" then [] else DropLastEmpty(SplitOnNewline(NormalizeLineEndings(text)))
  }

  method SplitLines(text: string) returns (lines: seq<string>)
    ensures lines == LinesOf(text)
  {
    if text == "" {
      return [];
    }
    var normalized := NormalizeLineEndings(text);
    lines := SplitOnNewline(normalized);
    if |lines| > 0 && lines[|lines| - 1] == "" {
      lines := lines[..|lines| - 1];
    }
  }

  // ---------------------------------------------------------------- laws

  ghost predicate Plain(line: string) {
    '\n' !in line && '\r' !in line
  }

  ghost predicate AllPlain(lines: seq<string>) {
    forall k :: 0 <= k < |lines| ==> Plain(lines[k])
  }

  lemma {:induction false} NoCrLeft(s: string)
    ensures '\r' !in ReplaceCr(s)
  {
    if |s| > 0 {
      NoCrLeft(s[1..]);
    }
  }

  lemma {:induction false} PlainUnchanged(s: string)
    requires '\r' !in s
    ensures ReplaceCrLf(s) == s && ReplaceCr(s) == s
  {
    if |s| > 0 {
      PlainUnchanged(s[1..]);
      assert s == [s[0]] + s[1..];
    }
  }

  lemma {:induction false} PartsArePlain(s: string)
    requires '\r' !in s
    ensures AllPlain(SplitOnNewline(s))
  {
    if |s| > 0 {
      PartsArePlain(s[1..]);
    }
  }

  /** No line of a text contains a line break of any kind. */
  lemma LinesArePlain(text: string)
    ensures AllPlain(LinesOf(text))
  {
    NoCrLeft(ReplaceCrLf(text));
    PartsArePlain(NormalizeLineEndings(text));
  }

  lemma {:induction false} SplitAfterLine(line: string, rest: string)
    requires '\n' !in line
    ensures SplitOnNewline(line + "\n" + rest) == [line] + SplitOnNewline(rest)
    ensures SplitOnNewline(line) == [line]
  {
    if |line| == 0 {
      assert line + "\n" + rest == "\n" + rest;
      assert ("\n" + rest)[1..] == rest;
    } else {
      var s := line + "\n" + rest;
      assert s[1..] == line[1..] + "\n" + rest;
      SplitAfterLine(line[1..], rest);
      assert line == [line[0]] + line[1..];
      assert [line[1..]][1..] == [];
      assert ([line[1..]] + SplitOnNewline(rest))[1..] == SplitOnNewline(rest);
    }
  }

  /** Splitting undoes joining, for lines without a newline. */
  lemma {:induction false} SplitJoin(lines: seq<string>)
    requires |lines| > 0 && forall k :: 0 <= k < |lines| ==> '\n' !in lines[k]
    ensures SplitOnNewline(Join(lines)) == lines
  {
    if |lines| == 1 {
      SplitAfterLine(lines[0], "");
    } else {
      SplitJoin(lines[1..]);
      SplitAfterLine(lines[0], Join(lines[1..]));
    }
  }

  lemma {:induction false} JoinIsPlain(lines: seq<string>)
    requires AllPlain(lines)
    ensures '\r' !in Join(lines)
  {
    if |lines| > 1 {
      JoinIsPlain(lines[1..]);
    }
  }

  lemma {:induction false} JoinEmpty(lines: seq<string>)
    ensures Join(lines) == "" <==> lines == [] || lines == [""]
  {
    if |lines| == 1 {
      assert lines == [lines[0]];
    }
  }

  /** Joining lines into a body and splitting the body again loses exactly a final empty line. */
  lemma LinesOfJoin(lines: seq<string>)
    requires AllPlain(lines)
    ensures LinesOf(Join(lines)) == DropLastEmpty(lines)
  {
    JoinEmpty(lines);
    if Join(lines) != "" {
      JoinIsPlain(lines);
      PlainUnchanged(Join(lines));
      SplitJoin(lines);
    }
  }

  // ---------------------------------------------------------------- what normalizing, joining and splitting do

  lemma {:induction false} CrInTwo(s: string, t: string)
    ensures ReplaceCr(s + t) == ReplaceCr(s) + ReplaceCr(t)
  {
    if s == "" {
      assert s + t == t;
    } else {
      CrInTwo(s[1..], t);
      assert (s + t)[1..] == s[1..] + t;
    }
  }

  /** How many characters of a text the first replacement takes at once. */
  function CrLfStep(s: string): nat {
    if |s| >= 2 && s[0] == '\r' && s[1] == '\n' then 2 else 1
  }

  lemma CrLfUnfold(s: string)
    requires s != ""
    ensures CrLfStep(s) <= |s|
    ensures ReplaceCrLf(s) == [if CrLfStep(s) == 2 then '\n' else s[0]] + ReplaceCrLf(s[CrLfStep(s)..])
  {
  }

  lemma {:induction false} CrLfInTwo(s: string, t: string)
    requires s != "" && t != "" && s[|s| - 1] == '\r' ==> t[0] != '\n'
    ensures ReplaceCrLf(s + t) == ReplaceCrLf(s) + ReplaceCrLf(t)
    decreases |s|
  {
    if s == "" {
      assert s + t == t;
    } else {
      CrLfUnfold(s);
      CrLfUnfold(s + t);
      var n := CrLfStep(s);
      CrLfInTwo(s[n..], t);
      hide ReplaceCrLf;
      assert (s + t)[n..] == s[n..] + t;
      Regroup([if n == 2 then '\n' else s[0]], ReplaceCrLf(s[n..]), ReplaceCrLf(t));
    }
  }

  lemma Regroup<T>(a: seq<T>, b: seq<T>, c: seq<T>)
    ensures a + (b + c) == (a + b) + c
  {
  }

  /** A text may be normalized piece by piece, as long as no cut goes through a CRLF. */
  lemma NormalizeInTwo(s: string, t: string)
    requires s != "" && t != "" && s[|s| - 1] == '\r' ==> t[0] != '\n'
    ensures NormalizeLineEndings(s + t) == NormalizeLineEndings(s) + NormalizeLineEndings(t)
  {
    CrLfInTwo(s, t);
    CrInTwo(ReplaceCrLf(s), ReplaceCrLf(t));
  }

  /** A CRLF and a lone CR become one LF each, every other character stays. */
  lemma NormalizePieces(c: char)
    ensures NormalizeLineEndings("") == "" && NormalizeLineEndings("\r\n") == "\n"
    ensures NormalizeLineEndings([c]) == if c == '\r' then "\n" else [c]
  {
    assert ReplaceCrLf("\r\n") == "\n" + ReplaceCrLf("");
    assert ReplaceCrLf([c]) == [c] + ReplaceCrLf("");
    assert ReplaceCr("\n") == "\n" + ReplaceCr("");
    assert ReplaceCr([c]) == [if c == '\r' then '\n' else c] + ReplaceCr("");
  }

  /** Inside a text too. */
  lemma NormalizeInside(s: string, c: char, t: string)
    ensures NormalizeLineEndings(s + "\r\n" + t) == NormalizeLineEndings(s) + "\n" + NormalizeLineEndings(t)
    ensures c == '\r' && (t == "" || t[0] != '\n') ==>
      NormalizeLineEndings(s + [c] + t) == NormalizeLineEndings(s) + "\n" + NormalizeLineEndings(t)
    ensures c != '\r' && (c == '\n' ==> s == "" || s[|s| - 1] != '\r') ==>
      NormalizeLineEndings(s + [c] + t) == NormalizeLineEndings(s) + [c] + NormalizeLineEndings(t)
  {
    hide NormalizeLineEndings;
    NormalizePieces(c);
    NormalizeInTwo(s, "\r\n");
    NormalizeInTwo(s + "\r\n", t);
    if c == '\r' && (t == "" || t[0] != '\n') {
      NormalizeInTwo(s, [c]);
      NormalizeInTwo(s + [c], t);
    }
    if c != '\r' && (c == '\n' ==> s == "" || s[|s| - 1] != '\r') {
      NormalizeInTwo(s, [c]);
      NormalizeInTwo(s + [c], t);
    }
  }

  /** Joined lines stand one after the other with a newline between neighbours. */
  lemma {:induction false} JoinLaysOut(lines: seq<string>)
    ensures Joined(Join(lines), lines, "\n")
  {
    hide Joined;
    if lines == [] {
      NoPart("\n");
    } else if |lines| == 1 {
      OnePart(lines[0], "\n");
      assert lines == [lines[0]];
    } else {
      JoinLaysOut(lines[1..]);
      OneMorePart(lines[0], Join(lines[1..]), lines[1..], "\n");
      assert lines == [lines[0]] + lines[1..];
    }
  }

  /** Joining undoes splitting. */
  lemma {:induction false} JoinSplit(s: string)
    ensures Join(SplitOnNewline(s)) == s
  {
    if s != "" {
      JoinSplit(s[1..]);
      JoinHead(s[0], SplitOnNewline(s[1..]));
      assert s == [s[0]] + s[1..];
    }
  }

  lemma JoinHead(c: char, rest: seq<string>)
    requires rest != []
    ensures Join([""] + rest) == "\n" + Join(rest)
    ensures Join([[c] + rest[0]] + rest[1..]) == [c] + Join(rest)
  {
    var more := [[c] + rest[0]] + rest[1..];
    JoinUnfold([""] + rest);
    JoinUnfold(more);
    JoinUnfold(rest);
    hide Join;
    assert ([""] + rest)[1..] == rest && more[1..] == rest[1..];
    if |rest| > 1 {
      Regroup([c], rest[0] + "\n", Join(rest[1..]));
      assert [c] + (rest[0] + "\n") == [c] + rest[0] + "\n";
    }
  }

  lemma JoinUnfold(lines: seq<string>)
    requires lines != []
    ensures Join(lines) == if |lines| == 1 then lines[0] else lines[0] + "\n" + Join(lines[1..])
  {
  }

  /** A text without a newline at its end. */
  function WithoutFinalNewline(s: string): string {
    if s != "" && s[|s| - 1] == '\n' then s[..|s| - 1] else s
  }

  lemma {:induction false} SplitBeforeNewline(s: string)
    ensures SplitOnNewline(s + "\n") == SplitOnNewline(s) + [""]
  {
    if s == "" {
      assert s + "\n" == "\n";
      assert "\n"[1..] == "";
    } else {
      SplitBeforeNewline(s[1..]);
      assert (s + "\n")[1..] == s[1..] + "\n";
    }
  }

  lemma {:induction false} LastPart(s: string)
    requires s != "" && s[|s| - 1] != '\n'
    ensures SplitOnNewline(s)[|SplitOnNewline(s)| - 1] != ""
  {
    if |s| > 1 {
      LastPart(s[1..]);
    }
  }

  lemma {:induction false} NothingNormalizedAway(s: string)
    requires s != ""
    ensures NormalizeLineEndings(s) != ""
  {
  }

  /** The lines of a text, joined, are the normalized text less one final newline, when it has one; only the empty
      text has no lines. */
  lemma LinesSpellText(text: string)
    ensures Join(LinesOf(text)) == WithoutFinalNewline(NormalizeLineEndings(text))
    ensures LinesOf(text) == [] <==> text == ""
  {
    if text != "" {
      NothingNormalizedAway(text);
      hide NormalizeLineEndings, SplitOnNewline;
      var n := NormalizeLineEndings(text);
      var body := WithoutFinalNewline(n);
      JoinSplit(body);
      if body != n {
        SplitBeforeNewline(body);
        assert n == body + "\n";
      } else {
        LastPart(n);
      }
    }
  }

  /** Two texts have the same lines exactly when their normalized forms differ by at most one final newline, and
      the empty text shares its lines with no other. */
  lemma SameLinesExactly(s: string, t: string)
    ensures LinesOf(s) == LinesOf(t) <==>
      && WithoutFinalNewline(NormalizeLineEndings(s)) == WithoutFinalNewline(NormalizeLineEndings(t))
      && (s == "" <==> t == "")
  {
    LinesSpellText(s);
    LinesSpellText(t);
    if s != "" && t != "" {
      LinesAreSplit(s);
      LinesAreSplit(t);
    }
    hide LinesOf, Join, WithoutFinalNewline, NormalizeLineEndings;
  }

  lemma LinesAreSplit(text: string)
    requires text != ""
    ensures LinesOf(text) == SplitOnNewline(WithoutFinalNewline(NormalizeLineEndings(text)))
  {
    LinesArePlain(text);
    LinesSpellText(text);
    SplitJoin(LinesOf(text));
  }
}

/** Edit scripts between two line (or token) lists: building one from the LCS table, counting its
    changes, and putting deletes before inserts. Lines are opaque values with equality. */
module EditScript {
  import opened Lcs

  datatype EditOp<T> =
    | Equal(oldLine: T, newLine: T)
    | Delete(oldLine: T)
    | Insert(newLine: T)

  // ---------------------------------------------------------------- what a script means

  /** The old side: what the deletes and equals spell. */
  function OldOf<T>(ops: seq<EditOp<T>>): seq<T> {
    if ops == [] then []
    else (if ops[0].Insert? then [] else [ops[0].oldLine]) + OldOf(ops[1..])
  }

  /** The new side: what the inserts and equals spell. */
  function NewOf<T>(ops: seq<EditOp<T>>): seq<T> {
    if ops == [] then []
    else (if ops[0].Delete? then [] else [ops[0].newLine]) + NewOf(ops[1..])
  }

  function EqualCount<T>(ops: seq<EditOp<T>>): nat {
    if ops == [] then 0
    else (if ops[0].Equal? then 1 else 0) + EqualCount(ops[1..])
  }

  /** Deletes plus inserts. */
  function ChangeCount<T>(ops: seq<EditOp<T>>): nat {
    if ops == [] then 0
    else (if ops[0].Equal? then 0 else 1) + ChangeCount(ops[1..])
  }

  /** Every equal op pairs two equal lines. */
  ghost predicate Sound<T>(ops: seq<EditOp<T>>) {
    forall k :: 0 <= k < |ops| && ops[k].Equal? ==> ops[k].oldLine == ops[k].newLine
  }

  /** A script turns `a` into `b`. */
  ghost predicate IsScript<T>(ops: seq<EditOp<T>>, a: seq<T>, b: seq<T>) {
    Sound(ops) && OldOf(ops) == a && NewOf(ops) == b
  }

  lemma {:induction false} OldOfConcat<T>(s: seq<EditOp<T>>, t: seq<EditOp<T>>)
    ensures OldOf(s + t) == OldOf(s) + OldOf(t)
  {
    if s == [] {
      assert s + t == t;
    } else {
      assert (s + t)[1..] == s[1..] + t;
      OldOfConcat(s[1..], t);
    }
  }

  lemma {:induction false} NewOfConcat<T>(s: seq<EditOp<T>>, t: seq<EditOp<T>>)
    ensures NewOf(s + t) == NewOf(s) + NewOf(t)
  {
    if s == [] {
      assert s + t == t;
    } else {
      assert (s + t)[1..] == s[1..] + t;
      NewOfConcat(s[1..], t);
    }
  }

  lemma {:induction false} EqualCountOfConcat<T>(s: seq<EditOp<T>>, t: seq<EditOp<T>>)
    ensures EqualCount(s + t) == EqualCount(s) + EqualCount(t)
  {
    if s == [] {
      assert s + t == t;
    } else {
      assert (s + t)[1..] == s[1..] + t;
      EqualCountOfConcat(s[1..], t);
    }
  }

  /** What one more op at the end adds. */
  lemma ScriptPush<T>(front: seq<EditOp<T>>, op: EditOp<T>)
    ensures OldOf(front + [op]) == (if op.Insert? then OldOf(front) else OldOf(front) + [op.oldLine])
    ensures NewOf(front + [op]) == (if op.Delete? then NewOf(front) else NewOf(front) + [op.newLine])
    ensures EqualCount(front + [op]) == EqualCount(front) + if op.Equal? then 1 else 0
  {
    OldOfConcat(front, [op]);
    NewOfConcat(front, [op]);
    EqualCountOfConcat(front, [op]);
    assert [op][1..] == [];
  }

  /** Each side is as long as the equals plus its own changes. */
  lemma {:induction false} ScriptLengths<T>(ops: seq<EditOp<T>>)
    ensures |OldOf(ops)| + |NewOf(ops)| == ChangeCount(ops) + 2 * EqualCount(ops)
    ensures EqualCount(ops) <= |OldOf(ops)| && EqualCount(ops) <= |NewOf(ops)|
  {
    if ops != [] {
      ScriptLengths(ops[1..]);
    }
  }

  lemma PrefixPush<T>(a: seq<T>, i: nat, front: seq<T>, x: T)
    requires i <= |a| && a[..i] == front + [x]
    ensures i > 0 && a[..i - 1] == front && a[i - 1] == x
  {
    assert a[..i][..i - 1] == a[..i - 1];
    assert a[..i][i - 1] == a[i - 1];
  }

  /** Taking the last op off a script for a[..i] and b[..j] leaves a script for shorter prefixes. */
  lemma ScriptPop<T>(ops: seq<EditOp<T>>, a: seq<T>, b: seq<T>, i: nat, j: nat)
    requires ops != [] && i <= |a| && j <= |b|
    requires IsScript(ops, a[..i], b[..j])
    ensures var front, op := ops[..|ops| - 1], ops[|ops| - 1];
      && EqualCount(ops) == EqualCount(front) + (if op.Equal? then 1 else 0)
      && match op
         case Equal(_, _) => i > 0 && j > 0 && a[i - 1] == b[j - 1] && IsScript(front, a[..i - 1], b[..j - 1])
         case Delete(_) => i > 0 && IsScript(front, a[..i - 1], b[..j])
         case Insert(_) => j > 0 && IsScript(front, a[..i], b[..j - 1])
  {
    var front, op := ops[..|ops| - 1], ops[|ops| - 1];
    assert ops == front + [op];
    assert Sound(front);
    ScriptPush(front, op);
    if !op.Insert? {
      PrefixPush(a, i, OldOf(front), op.oldLine);
    }
    if !op.Delete? {
      PrefixPush(b, j, NewOf(front), op.newLine);
    }
  }

  /** The equal ops of any script spell a common subsequence, so there are at most LCS many. */
  lemma {:induction false} EqualsAtMostLcs<T>(ops: seq<EditOp<T>>, a: seq<T>, b: seq<T>, i: nat, j: nat)
    requires i <= |a| && j <= |b|
    requires IsScript(ops, a[..i], b[..j])
    ensures EqualCount(ops) <= Score(a, b, i, j)
    decreases |ops|
  {
    hide IsScript;
    if ops != [] {
      ScriptPop(ops, a, b, i, j);
      ScoreSteps(a, b, i, j);
      var front := ops[..|ops| - 1];
      match ops[|ops| - 1] {
        case Equal(_, _) => EqualsAtMostLcs(front, a, b, i - 1, j - 1);
        case Delete(_) => EqualsAtMostLcs(front, a, b, i - 1, j);
        case Insert(_) => EqualsAtMostLcs(front, a, b, i, j - 1);
      }
    }
  }

  // ---------------------------------------------------------------- building a script

  /** The script the backward walk reads off: deletes win ties. */
  function Backtrack<T(==)>(a: seq<T>, b: seq<T>, i: nat, j: nat): seq<EditOp<T>>
    requires i <= |a| && j <= |b|
  {
    if i > 0 && j > 0 then
      if a[i - 1] == b[j - 1] then Backtrack(a, b, i - 1, j - 1) + [Equal(a[i - 1], b[j - 1])]
      else if Score(a, b, i - 1, j) >= Score(a, b, i, j - 1) then Backtrack(a, b, i - 1, j) + [Delete(a[i - 1])]
      else Backtrack(a, b, i, j - 1) + [Insert(b[j - 1])]
    else if i > 0 then Backtrack(a, b, i - 1, j) + [Delete(a[i - 1])]
    else if j > 0 then Backtrack(a, b, i, j - 1) + [Insert(b[j - 1])]
    else []
  }

  /** Adding one op to a script for prefixes makes a script for longer prefixes. */
  lemma ScriptGrows<T>(front: seq<EditOp<T>>, op: EditOp<T>, a: seq<T>, b: seq<T>, i: nat, j: nat)
    requires i <= |a| && j <= |b|
    requires match op
             case Equal(o, n) => i > 0 && j > 0 && o == a[i - 1] == b[j - 1] == n && IsScript(front, a[..i - 1], b[..j - 1])
             case Delete(o) => i > 0 && o == a[i - 1] && IsScript(front, a[..i - 1], b[..j])
             case Insert(n) => j > 0 && n == b[j - 1] && IsScript(front, a[..i], b[..j - 1])
    ensures IsScript(front + [op], a[..i], b[..j])
    ensures EqualCount(front + [op]) == EqualCount(front) + if op.Equal? then 1 else 0
  {
    assert i > 0 ==> a[..i] == a[..i - 1] + [a[i - 1]];
    assert j > 0 ==> b[..j] == b[..j - 1] + [b[j - 1]];
    ScriptPush(front, op);
    assert Sound(front + [op]);
  }

  lemma {:induction false} BacktrackSpells<T>(a: seq<T>, b: seq<T>, i: nat, j: nat)
    requires i <= |a| && j <= |b|
    ensures IsScript(Backtrack(a, b, i, j), a[..i], b[..j])
    ensures EqualCount(Backtrack(a, b, i, j)) == Score(a, b, i, j)
    decreases i + j
  {
    if i == 0 && j == 0 {
      return;
    }
    hide IsScript, OldOf, NewOf;
    if i > 0 && j > 0 && a[i - 1] == b[j - 1] {
      BacktrackSpells(a, b, i - 1, j - 1);
      ScriptGrows(Backtrack(a, b, i - 1, j - 1), Equal(a[i - 1], b[j - 1]), a, b, i, j);
    } else if i > 0 && (j == 0 || Score(a, b, i - 1, j) >= Score(a, b, i, j - 1)) {
      BacktrackSpells(a, b, i - 1, j);
      ScriptGrows(Backtrack(a, b, i - 1, j), Delete(a[i - 1]), a, b, i, j);
    } else {
      BacktrackSpells(a, b, i, j - 1);
      ScriptGrows(Backtrack(a, b, i, j - 1), Insert(b[j - 1]), a, b, i, j);
    }
  }

  function LcsScript<T(==)>(a: seq<T>, b: seq<T>): seq<EditOp<T>> {
    Backtrack(a, b, |a|, |b|)
  }

  /** The script is exact and minimal: it turns `a` into `b`, keeps as many lines as a longest common
      subsequence has, and no script has fewer changes. */
  lemma LcsScriptIsMinimal<T(!new)>(a: seq<T>, b: seq<T>)
    ensures IsScript(LcsScript(a, b), a, b)
    ensures EqualCount(LcsScript(a, b)) == LcsLength(a, b)
    ensures forall s: seq<EditOp<T>> :: IsScript(s, a, b) ==> ChangeCount(LcsScript(a, b)) <= ChangeCount(s)
  {
    assert a[..|a|] == a && b[..|b|] == b;
    BacktrackSpells(a, b, |a|, |b|);
    ScriptLengths(LcsScript(a, b));
    forall s: seq<EditOp<T>> | IsScript(s, a, b)
      ensures ChangeCount(LcsScript(a, b)) <= ChangeCount(s)
    {
      EqualsAtMostLcs(s, a, b, |a|, |b|);
      ScriptLengths(s);
    }
  }

  function Reversed<T>(s: seq<T>): seq<T> {
    if s == [] then [] else [s[|s| - 1]] + Reversed(s[..|s| - 1])
  }

  /** The walk stands at (i, j): what is left to read plus what was pushed, reversed, is the script. */
  ghost predicate Walked<T>(a: seq<T>, b: seq<T>, i: nat, j: nat, pushed: seq<EditOp<T>>) {
    i <= |a| && j <= |b| && Backtrack(a, b, i, j) + Reversed(pushed) == LcsScript(a, b)
  }

  /** Pushing an op now puts it in front once the list is reversed. */
  lemma WalkStep<T>(a: seq<T>, b: seq<T>, i: nat, j: nat, i': nat, j': nat, op: EditOp<T>, pushed: seq<EditOp<T>>)
    requires Walked(a, b, i, j, pushed)
    requires i' <= i && j' <= j
    requires Backtrack(a, b, i, j) == Backtrack(a, b, i', j') + [op]
    ensures Walked(a, b, i', j', pushed + [op])
  {
    assert (pushed + [op])[..|pushed|] == pushed;
    assert Backtrack(a, b, i', j') + ([op] + Reversed(pushed)) == Backtrack(a, b, i', j') + [op] + Reversed(pushed);
  }

  lemma WalkEqual<T>(a: seq<T>, b: seq<T>, i: nat, j: nat, pushed: seq<EditOp<T>>)
    requires i > 0 && j > 0 && Walked(a, b, i, j, pushed)
    requires a[i - 1] == b[j - 1]
    ensures Walked(a, b, i - 1, j - 1, pushed + [Equal(a[i - 1], b[j - 1])])
  {
    WalkStep(a, b, i, j, i - 1, j - 1, Equal(a[i - 1], b[j - 1]), pushed);
  }

  lemma WalkDelete<T>(a: seq<T>, b: seq<T>, i: nat, j: nat, pushed: seq<EditOp<T>>)
    requires i > 0 && Walked(a, b, i, j, pushed)
    requires j > 0 ==> a[i - 1] != b[j - 1] && Score(a, b, i - 1, j) >= Score(a, b, i, j - 1)
    ensures Walked(a, b, i - 1, j, pushed + [Delete(a[i - 1])])
  {
    WalkStep(a, b, i, j, i - 1, j, Delete(a[i - 1]), pushed);
  }

  lemma WalkInsert<T>(a: seq<T>, b: seq<T>, i: nat, j: nat, pushed: seq<EditOp<T>>)
    requires j > 0 && Walked(a, b, i, j, pushed)
    requires i > 0 ==> a[i - 1] != b[j - 1] && Score(a, b, i - 1, j) < Score(a, b, i, j - 1)
    ensures Walked(a, b, i, j - 1, pushed + [Insert(b[j - 1])])
  {
    WalkStep(a, b, i, j, i, j - 1, Insert(b[j - 1]), pushed);
  }

  lemma TableEntries<T>(dp: seq<Uint32>, stride: nat, a: seq<T>, b: seq<T>, i: nat, j: nat)
    requires 1 <= i <= |a| && 1 <= j <= |b|
    requires IsLcsTable(dp, stride, a, b)
    ensures var up, left := (i - 1) * stride + j, i * stride + (j - 1);
      && 0 <= up < |dp| && dp[up] == Score(a, b, i - 1, j)
      && 0 <= left < |dp| && dp[left] == Score(a, b, i, j - 1)
  {
    CellIsRowMajor(i - 1, j, stride);
    CellIsRowMajor(i, j - 1, stride);
  }

  lemma WalkStart<T>(a: seq<T>, b: seq<T>)
    ensures Walked(a, b, |a|, |b|, [])
  {
  }

  lemma WalkDone<T>(a: seq<T>, b: seq<T>, pushed: seq<EditOp<T>>)
    requires Walked(a, b, 0, 0, pushed)
    ensures Reversed(pushed) == LcsScript(a, b)
  {
    assert Reversed(pushed) == Backtrack(a, b, 0, 0) + Reversed(pushed);
  }

  method BuildEditScript<T(==)>(oldLines: seq<T>, newLines: seq<T>) returns (ops: seq<EditOp<T>>)
    requires ArrayLike(oldLines) && ArrayLike(newLines)
    ensures ops == LcsScript(oldLines, newLines)
  {
    hide Walked, Backtrack, Score, Reversed;
    var m, n := |oldLines|, |newLines|;
    var stride := n + 1;
    var dp := ComputeLcsTable(oldLines, newLines);
    ghost var table := dp[..];
    ops := [];
    var i, j := m, n;
    WalkStart(oldLines, newLines);
    while i > 0 && j > 0
      invariant 0 <= i <= m && 0 <= j <= n && dp[..] == table
      invariant Walked(oldLines, newLines, i, j, ops)
      decreases i + j
    {
      TableEntries(dp[..], stride, oldLines, newLines, i, j);
      if oldLines[i - 1] == newLines[j - 1] {
        WalkEqual(oldLines, newLines, i, j, ops);
        ops := ops + [Equal(oldLines[i - 1], newLines[j - 1])];
        i, j := i - 1, j - 1;
      } else if dp[(i - 1) * stride + j] >= dp[i * stride + (j - 1)] {
        WalkDelete(oldLines, newLines, i, j, ops);
        ops := ops + [Delete(oldLines[i - 1])];
        i := i - 1;
      } else {
        WalkInsert(oldLines, newLines, i, j, ops);
        ops := ops + [Insert(newLines[j - 1])];
        j := j - 1;
      }
    }
    while i > 0
      invariant 0 <= i <= m && 0 <= j <= n && (i == 0 || j == 0)
      invariant Walked(oldLines, newLines, i, j, ops)
    {
      WalkDelete(oldLines, newLines, i, j, ops);
      ops := ops + [Delete(oldLines[i - 1])];
      i := i - 1;
    }
    while j > 0
      invariant i == 0 <= j <= n
      invariant Walked(oldLines, newLines, i, j, ops)
    {
      WalkInsert(oldLines, newLines, i, j, ops);
      ops := ops + [Insert(newLines[j - 1])];
      j := j - 1;
    }
    WalkDone(oldLines, newLines, ops);
    ops := Reversed(ops);
  }

  // ---------------------------------------------------------------- runs of changes

  /** A maximal run of consecutive changes. */
  datatype Run<T> = Run(removes: seq<T>, adds: seq<T>)

  function Close<T>(removes: seq<T>, adds: seq<T>): seq<Run<T>> {
    if |removes| == 0 && |adds| == 0 then [] else [Run(removes, adds)]
  }

  /** The runs of `ops`, the first one already holding `removes` and `adds`. */
  function RunsFrom<T>(ops: seq<EditOp<T>>, removes: seq<T>, adds: seq<T>): seq<Run<T>>
    decreases |ops|
  {
    if ops == [] then Close(removes, adds)
    else match ops[0]
      case Equal(_, _) => Close(removes, adds) + RunsFrom(ops[1..], [], [])
      case Delete(o) => RunsFrom(ops[1..], removes + [o], adds)
      case Insert(n) => RunsFrom(ops[1..], removes, adds + [n])
  }

  function Runs<T>(ops: seq<EditOp<T>>): seq<Run<T>> {
    RunsFrom(ops, [], [])
  }

  /** Reading one op at position i. */
  lemma RunsStep<T>(ops: seq<EditOp<T>>, i: nat, removes: seq<T>, adds: seq<T>)
    requires i < |ops|
    ensures ops[i].Equal? && |removes| + |adds| == 0 ==> RunsFrom(ops[i..], removes, adds) == Runs(ops[i + 1..])
    ensures ops[i].Delete? ==> RunsFrom(ops[i..], removes, adds) == RunsFrom(ops[i + 1..], removes + [ops[i].oldLine], adds)
    ensures ops[i].Insert? ==> RunsFrom(ops[i..], removes, adds) == RunsFrom(ops[i + 1..], removes, adds + [ops[i].newLine])
  {
    assert ops[i..][1..] == ops[i + 1..];
  }

  /** At an equal op or the end, a pending run is complete. */
  lemma RunsFromClosed<T>(ops: seq<EditOp<T>>, removes: seq<T>, adds: seq<T>)
    requires |removes| + |adds| > 0
    requires ops == [] || ops[0].Equal?
    ensures RunsFrom(ops, removes, adds) == [Run(removes, adds)] + Runs(ops)
    ensures RunsFrom(ops, removes, adds)[0] == Run(removes, adds)
    ensures RunsFrom(ops, removes, adds)[1..] == Runs(ops)
  {
  }

  lemma RunsAtEnd<T>(ops: seq<EditOp<T>>)
    ensures Runs(ops[|ops|..]) == []
  {
  }

  function Paired<T>(run: Run<T>): nat { Min(|run.removes|, |run.adds|) }

  function Modified<T>(runs: seq<Run<T>>): nat {
    if runs == [] then 0 else Paired(runs[0]) + Modified(runs[1..])
  }

  function Removed<T>(runs: seq<Run<T>>): nat {
    if runs == [] then 0 else |runs[0].removes| - Paired(runs[0]) + Removed(runs[1..])
  }

  function Added<T>(runs: seq<Run<T>>): nat {
    if runs == [] then 0 else |runs[0].adds| - Paired(runs[0]) + Added(runs[1..])
  }

  datatype Counts = Counts(added: nat, removed: nat, modified: nat)

  function RunCounts<T>(runs: seq<Run<T>>): Counts {
    Counts(Added(runs), Removed(runs), Modified(runs))
  }

  /** No run adds more lines than it removes. */
  ghost predicate NoneGrows<T>(runs: seq<Run<T>>) {
    forall k :: 0 <= k < |runs| ==> |runs[k].adds| <= |runs[k].removes|
  }

  ghost predicate NoneShrinks<T>(runs: seq<Run<T>>) {
    forall k :: 0 <= k < |runs| ==> |runs[k].removes| <= |runs[k].adds|
  }

  /** Lines are reported as added exactly when some run grows, as removed exactly when some run shrinks. */
  lemma {:induction false} PureCounts<T>(runs: seq<Run<T>>)
    ensures Added(runs) == 0 <==> NoneGrows(runs)
    ensures Removed(runs) == 0 <==> NoneShrinks(runs)
  {
    if runs != [] {
      PureCounts(runs[1..]);
      assert runs == [runs[0]] + runs[1..];
    }
  }

  method CountsFromOps<T>(ops: seq<EditOp<T>>) returns (counts: Counts)
    ensures counts == RunCounts(Runs(ops))
  {
    var added, removed, modified := 0, 0, 0;
    var i := 0;
    while i < |ops|
      invariant 0 <= i <= |ops|
      invariant added + Added(Runs(ops[i..])) == Added(Runs(ops))
      invariant removed + Removed(Runs(ops[i..])) == Removed(Runs(ops))
      invariant modified + Modified(Runs(ops[i..])) == Modified(Runs(ops))
    {
      RunsStep(ops, i, [], []);
      if ops[i].Equal? {
        i := i + 1;
        continue;
      }
      var dels, ins := 0, 0;
      ghost var start := i;
      ghost var removes: seq<T>, adds: seq<T> := [], [];
      while i < |ops| && !ops[i].Equal?
        invariant start <= i <= |ops|
        invariant dels == |removes| && ins == |adds|
        invariant dels + ins > 0 || (i < |ops| && !ops[i].Equal?)
        invariant RunsFrom(ops[i..], removes, adds) == Runs(ops[start..])
      {
        RunsStep(ops, i, removes, adds);
        if ops[i].Delete? {
          removes := removes + [ops[i].oldLine];
          dels := dels + 1;
        } else {
          adds := adds + [ops[i].newLine];
          ins := ins + 1;
        }
        i := i + 1;
      }
      RunsFromClosed(ops[i..], removes, adds);
      var pair := Min(dels, ins);
      modified := modified + pair;
      removed := removed + (dels - pair);
      added := added + (ins - pair);
    }
    counts := Counts(added, removed, modified);
  }

  /** Over all runs, every delete is counted once as removed or modified, every insert once as added
      or modified. */
  lemma {:induction false} CountsConserve<T>(ops: seq<EditOp<T>>, removes: seq<T>, adds: seq<T>)
    ensures var runs := RunsFrom(ops, removes, adds);
      && Removed(runs) + Modified(runs) == |removes| + |OldOf(ops)| - EqualCount(ops)
      && Added(runs) + Modified(runs) == |adds| + |NewOf(ops)| - EqualCount(ops)
    decreases |ops|
  {
    if ops != [] {
      match ops[0] {
        case Equal(_, _) =>
          CountsConserve(ops[1..], [], []);
          assert Runs(ops) == Runs(ops[1..]);
          if |removes| + |adds| > 0 {
            RunsFromClosed(ops, removes, adds);
          }
        case Delete(o) => CountsConserve(ops[1..], removes + [o], adds);
        case Insert(n) => CountsConserve(ops[1..], removes, adds + [n]);
      }
    }
  }

  /** For the script of two line lists: the accounting identities against the LCS, and all counts are
      zero exactly when nothing changed. */
  lemma LineAccounting<T(!new)>(a: seq<T>, b: seq<T>)
    ensures var c := RunCounts(Runs(LcsScript(a, b)));
      && c.added + c.modified == |b| - LcsLength(a, b)
      && c.removed + c.modified == |a| - LcsLength(a, b)
      && c.added - c.removed == |b| - |a|
      && (c == Counts(0, 0, 0) <==> a == b)
  {
    LcsScriptIsMinimal(a, b);
    CountsConserve(LcsScript(a, b), [], []);
    if a == b {
      ScoreOfSelf(a, |a|);
    } else {
      assert a[..|a|] == a && b[..|b|] == b;
      if |a| == |b| && LcsLength(a, b) == |a| {
        FullScoreMeansEqual(a, b, |a|);
      }
    }
  }

  // ---------------------------------------------------------------- deletes before inserts

  /** Deletes are emitted at once; the inserts of the current run are held back until it ends. */
  function NormalFrom<T>(ops: seq<EditOp<T>>, held: seq<EditOp<T>>): seq<EditOp<T>>
    decreases |ops|
  {
    if ops == [] then held
    else match ops[0]
      case Equal(_, _) => held + ([ops[0]] + NormalFrom(ops[1..], []))
      case Delete(_) => [ops[0]] + NormalFrom(ops[1..], held)
      case Insert(_) => NormalFrom(ops[1..], held + [ops[0]])
  }

  function Normal<T>(ops: seq<EditOp<T>>): seq<EditOp<T>> {
    NormalFrom(ops, [])
  }

  lemma NormalStep<T>(ops: seq<EditOp<T>>, i: nat, held: seq<EditOp<T>>)
    requires i < |ops|
    ensures ops[i].Equal? && held == [] ==> NormalFrom(ops[i..], held) == [ops[i]] + Normal(ops[i + 1..])
    ensures ops[i].Delete? ==> NormalFrom(ops[i..], held) == [ops[i]] + NormalFrom(ops[i + 1..], held)
    ensures ops[i].Insert? ==> NormalFrom(ops[i..], held) == NormalFrom(ops[i + 1..], held + [ops[i]])
  {
    assert ops[i..][1..] == ops[i + 1..];
  }

  lemma NormalClosed<T>(ops: seq<EditOp<T>>, held: seq<EditOp<T>>)
    requires ops == [] || ops[0].Equal?
    ensures NormalFrom(ops, held) == held + Normal(ops)
  {
  }

  method NormalizeEditOrder<T>(ops: seq<EditOp<T>>) returns (out: seq<EditOp<T>>)
    ensures out == Normal(ops)
  {
    out := [];
    var i := 0;
    while i < |ops|
      invariant 0 <= i <= |ops|
      invariant out + Normal(ops[i..]) == Normal(ops)
    {
      if ops[i].Equal? {
        NormalStep(ops, i, []);
        out := out + [ops[i]];
        i := i + 1;
        continue;
      }
      var dels: seq<EditOp<T>>, ins: seq<EditOp<T>> := [], [];
      ghost var start := i;
      while i < |ops| && !ops[i].Equal?
        invariant start <= i <= |ops| && (start == i ==> !ops[i].Equal?)
        invariant dels + NormalFrom(ops[i..], ins) == Normal(ops[start..])
      {
        NormalStep(ops, i, ins);
        if ops[i].Delete? {
          dels := dels + [ops[i]];
        } else {
          ins := ins + [ops[i]];
        }
        i := i + 1;
      }
      NormalClosed(ops[i..], ins);
      assert out + (dels + (ins + Normal(ops[i..]))) == out + dels + ins + Normal(ops[i..]);
      out := out + dels + ins;
    }
  }

  ghost predicate AllInserts<T>(s: seq<EditOp<T>>) { forall k :: 0 <= k < |s| ==> s[k].Insert? }

  /** No insert is directly followed by a delete. */
  ghost predicate DeletesFirst<T>(ops: seq<EditOp<T>>) {
    forall k :: 0 <= k < |ops| - 1 ==> !(ops[k].Insert? && ops[k + 1].Delete?)
  }

  lemma {:induction false} InsertsOnly<T>(s: seq<EditOp<T>>)
    requires AllInserts(s)
    ensures OldOf(s) == [] && EqualCount(s) == 0
  {
    if s != [] {
      InsertsOnly(s[1..]);
    }
  }

  lemma {:induction false} NormalKeepsOld<T>(ops: seq<EditOp<T>>, held: seq<EditOp<T>>)
    requires AllInserts(held)
    ensures OldOf(NormalFrom(ops, held)) == OldOf(ops)
    decreases |ops|
  {
    InsertsOnly(held);
    if ops != [] {
      match ops[0] {
        case Equal(_, _) =>
          NormalKeepsOld(ops[1..], []);
          OldOfConcat(held, [ops[0]] + NormalFrom(ops[1..], []));
        case Delete(_) =>
          NormalKeepsOld(ops[1..], held);
        case Insert(_) =>
          NormalKeepsOld(ops[1..], held + [ops[0]]);
      }
    }
  }

  lemma {:induction false} NormalKeepsNew<T>(ops: seq<EditOp<T>>, held: seq<EditOp<T>>)
    requires AllInserts(held)
    ensures NewOf(NormalFrom(ops, held)) == NewOf(held) + NewOf(ops)
    decreases |ops|
  {
    if ops != [] {
      var op, rest := ops[0], ops[1..];
      match op {
        case Equal(_, n) =>
          NormalKeepsNew(rest, []);
          NewOfConcat(held, [op] + NormalFrom(rest, []));
          NewOfCons(op, NormalFrom(rest, []));
          NewOfCons(op, rest);
          hide NewOf;
          assert [op] + rest == ops && [] + NewOf(rest) == NewOf(rest);
        case Delete(_) =>
          NormalKeepsNew(rest, held);
          NewOfCons(op, NormalFrom(rest, held));
        case Insert(n) =>
          NormalKeepsNew(rest, held + [op]);
          ScriptPush(held, op);
          assert NewOf(held) + ([n] + NewOf(rest)) == NewOf(held) + [n] + NewOf(rest);
      }
    }
  }

  lemma NewOfCons<T>(op: EditOp<T>, rest: seq<EditOp<T>>)
    ensures NewOf([op] + rest) == (if op.Delete? then NewOf(rest) else [op.newLine] + NewOf(rest))
  {
    assert ([op] + rest)[1..] == rest;
  }

  lemma {:induction false} NormalKeepsOps<T>(ops: seq<EditOp<T>>, held: seq<EditOp<T>>)
    ensures multiset(NormalFrom(ops, held)) == multiset(held) + multiset(ops)
    decreases |ops|
  {
    if ops != [] {
      var op, rest := ops[0], ops[1..];
      assert ops == [op] + rest;
      match op {
        case Equal(_, _) => NormalKeepsOps(rest, []);
        case Delete(_) => NormalKeepsOps(rest, held);
        case Insert(_) => NormalKeepsOps(rest, held + [op]);
      }
    }
  }

  lemma {:induction false} NormalPutsDeletesFirst<T>(ops: seq<EditOp<T>>, held: seq<EditOp<T>>)
    requires AllInserts(held)
    ensures DeletesFirst(NormalFrom(ops, held))
    decreases |ops|
  {
    if ops != [] {
      match ops[0] {
        case Equal(_, _) => NormalPutsDeletesFirst(ops[1..], []);
        case Delete(_) => NormalPutsDeletesFirst(ops[1..], held);
        case Insert(_) => NormalPutsDeletesFirst(ops[1..], held + [ops[0]]);
      }
    }
  }

  lemma {:induction false} RunsAfterInserts<T>(ins: seq<EditOp<T>>, rest: seq<EditOp<T>>, removes: seq<T>, adds: seq<T>)
    requires AllInserts(ins)
    ensures RunsFrom(ins + rest, removes, adds) == RunsFrom(rest, removes, adds + NewOf(ins))
    decreases |ins|
  {
    if ins == [] {
      assert ins + rest == rest && adds + NewOf(ins) == adds;
    } else {
      assert (ins + rest)[1..] == ins[1..] + rest;
      RunsAfterInserts(ins[1..], rest, removes, adds + [ins[0].newLine]);
      assert adds + NewOf(ins) == adds + [ins[0].newLine] + NewOf(ins[1..]);
    }
  }

  lemma {:induction false} NormalKeepsRuns<T>(ops: seq<EditOp<T>>, held: seq<EditOp<T>>, removes: seq<T>, adds: seq<T>)
    requires AllInserts(held)
    ensures RunsFrom(NormalFrom(ops, held), removes, adds) == RunsFrom(ops, removes, adds + NewOf(held))
    decreases |ops|
  {
    if ops == [] {
      RunsAfterInserts(held, [], removes, adds);
      assert held + [] == held;
    } else {
      var op, rest := ops[0], ops[1..];
      match op {
        case Equal(_, _) =>
          NormalKeepsRuns(rest, [], [], []);
          assert [] + NewOf<T>([]) == [];
          RunsAfterInserts(held, [op] + NormalFrom(rest, []), removes, adds);
        case Delete(_) =>
          NormalKeepsRuns(rest, held, removes + [op.oldLine], adds);
        case Insert(_) =>
          NormalKeepsRuns(rest, held + [op], removes, adds);
          ScriptPush(held, op);
          assert adds + NewOf(held + [op]) == adds + NewOf(held) + [op.newLine];
      }
    }
  }

  /** Normalizing only reorders inside a run: both sides, the runs and the ops themselves are kept,
      and afterwards no insert comes before a delete. */
  lemma NormalIsAReordering<T>(ops: seq<EditOp<T>>)
    ensures OldOf(Normal(ops)) == OldOf(ops) && NewOf(Normal(ops)) == NewOf(ops)
    ensures Runs(Normal(ops)) == Runs(ops)
    ensures multiset(Normal(ops)) == multiset(ops)
    ensures DeletesFirst(Normal(ops))
    ensures Sound(ops) ==> Sound(Normal(ops))
  {
    NormalKeepsOld(ops, []);
    NormalKeepsNew(ops, []);
    NormalKeepsOps(ops, []);
    NormalKeepsRuns(ops, [], [], []);
    assert [] + NewOf<T>([]) == [];
    NormalPutsDeletesFirst(ops, []);
    forall k | Sound(ops) && 0 <= k < |Normal(ops)| && Normal(ops)[k].Equal?
      ensures Normal(ops)[k].oldLine == Normal(ops)[k].newLine
    {
      assert Normal(ops)[k] in multiset(Normal(ops));
      assert Normal(ops)[k] in ops;
    }
  }

  // ---------------------------------------------------------------- changed characters

  function Total<T>(lines: seq<T>, size: T -> nat): nat {
    if lines == [] then 0 else size(lines[0]) + Total(lines[1..], size)
  }

  function ChangedSize<T>(ops: seq<EditOp<T>>, size: T -> nat): nat {
    if ops == [] then 0
    else (match ops[0]
            case Equal(_, _) => 0
            case Delete(o) => size(o)
            case Insert(n) => size(n)) + ChangedSize(ops[1..], size)
  }

  function KeptSize<T>(ops: seq<EditOp<T>>, size: T -> nat): nat {
    if ops == [] then 0
    else (if ops[0].Equal? then size(ops[0].oldLine) else 0) + KeptSize(ops[1..], size)
  }

  method ChangedCharsFromOps<T>(ops: seq<EditOp<T>>, size: T -> nat) returns (total: nat)
    ensures total == ChangedSize(ops, size)
  {
    total := 0;
    for k := 0 to |ops|
      invariant total + ChangedSize(ops[k..], size) == ChangedSize(ops, size)
    {
      match ops[k] {
        case Delete(o) => total := total + size(o);
        case Insert(n) => total := total + size(n);
        case Equal(_, _) =>
      }
    }
  }

  /** Every character of either side is in a change or in a kept pair, never both. */
  lemma {:induction false} CharactersConserve<T>(ops: seq<EditOp<T>>, size: T -> nat)
    requires Sound(ops)
    ensures ChangedSize(ops, size) + 2 * KeptSize(ops, size) == Total(OldOf(ops), size) + Total(NewOf(ops), size)
  {
    if ops != [] {
      assert Sound(ops[1..]);
      CharactersConserve(ops[1..], size);
      var o, n := OldOf(ops), NewOf(ops);
      assert if ops[0].Insert? then o == OldOf(ops[1..]) else o[1..] == OldOf(ops[1..]);
      assert if ops[0].Delete? then n == NewOf(ops[1..]) else n[1..] == NewOf(ops[1..]);
    }
  }
}

/** Which of the minimal edit scripts src/cache/diff-engine.ts picks: read from the end, it keeps a line rather than
    deleting one, and deletes one rather than inserting one, wherever a minimal script can. */
module ScriptChoice {
  import opened EditScript
  import opened Lcs

  function Rank<T>(op: EditOp<T>): nat {
    match op
    case Equal(_, _) => 2
    case Delete(_) => 1
    case Insert(_) => 0
  }

  /** The scripts end alike in k ops, and before those s has the higher rank. */
  ghost predicate AheadAt<T>(s: seq<EditOp<T>>, t: seq<EditOp<T>>, k: nat) {
    && k < |s| && k < |t|
    && s[|s| - k..] == t[|t| - k..]
    && Rank(s[|s| - 1 - k]) > Rank(t[|t| - 1 - k])
  }

  /** Read from the end, s has the higher rank at the first difference. */
  ghost predicate Ahead<T>(s: seq<EditOp<T>>, t: seq<EditOp<T>>) {
    exists k: nat :: AheadAt(s, t, k)
  }

  lemma AheadByLast<T>(s: seq<EditOp<T>>, t: seq<EditOp<T>>)
    requires s != [] && t != [] && Rank(s[|s| - 1]) > Rank(t[|t| - 1])
    ensures Ahead(s, t)
  {
    assert AheadAt(s, t, 0);
  }

  lemma AheadBeforeLast<T>(s: seq<EditOp<T>>, t: seq<EditOp<T>>, op: EditOp<T>)
    requires Ahead(s, t)
    ensures Ahead(s + [op], t + [op])
  {
    var k: nat :| AheadAt(s, t, k);
    assert (s + [op])[|s| - k..] == s[|s| - k..] + [op];
    assert (t + [op])[|t| - k..] == t[|t| - k..] + [op];
    assert AheadAt(s + [op], t + [op], k + 1);
  }

  /** Nothing comes both before and after. */
  lemma AheadOneWay<T>(s: seq<EditOp<T>>, t: seq<EditOp<T>>)
    requires Ahead(s, t)
    ensures !Ahead(t, s) && s != t
  {
    var k: nat :| AheadAt(s, t, k);
    forall j: nat | AheadAt(t, s, j)
      ensures false
    {
      if j < k {
        AlikeBehind(s, t, k, j);
      } else if k < j {
        AlikeBehind(t, s, j, k);
      }
    }
  }

  lemma AlikeBehind<T>(s: seq<EditOp<T>>, t: seq<EditOp<T>>, k: nat, j: nat)
    requires AheadAt(s, t, k) && j < k
    ensures s[|s| - 1 - j] == t[|t| - 1 - j]
  {
    assert s[|s| - k..][k - 1 - j] == t[|t| - k..][k - 1 - j];
  }

  /** What the walk does at (i, j), and what its choice leaves to be found. */
  lemma WalkChoice<T>(a: seq<T>, b: seq<T>, i: nat, j: nat)
    requires i <= |a| && j <= |b| && i + j > 0
    ensures var ops := Backtrack(a, b, i, j);
      && ops != []
      && match ops[|ops| - 1]
         case Equal(o, n) =>
           && i > 0 && j > 0 && o == a[i - 1] == b[j - 1] == n
           && ops[..|ops| - 1] == Backtrack(a, b, i - 1, j - 1) && Score(a, b, i, j) == Score(a, b, i - 1, j - 1) + 1
         case Delete(o) =>
           && i > 0 && o == a[i - 1] && (j > 0 ==> a[i - 1] != b[j - 1])
           && ops[..|ops| - 1] == Backtrack(a, b, i - 1, j) && Score(a, b, i, j) == Score(a, b, i - 1, j)
         case Insert(n) =>
           && j > 0 && n == b[j - 1] && (i > 0 ==> a[i - 1] != b[j - 1] && Score(a, b, i - 1, j) < Score(a, b, i, j))
           && ops[..|ops| - 1] == Backtrack(a, b, i, j - 1) && Score(a, b, i, j) == Score(a, b, i, j - 1)
  {
  }

  /** Any other minimal script ends in an op of lower rank, or in the same op after a minimal script. */
  lemma OtherChoice<T>(ops: seq<EditOp<T>>, a: seq<T>, b: seq<T>, i: nat, j: nat)
    requires i <= |a| && j <= |b| && i + j > 0 && ops != []
    requires IsScript(ops, a[..i], b[..j]) && EqualCount(ops) == Score(a, b, i, j)
    ensures var walk := Backtrack(a, b, i, j);
      walk != [] && (ops[|ops| - 1] == walk[|walk| - 1] || Rank(walk[|walk| - 1]) > Rank(ops[|ops| - 1]))
  {
    WalkChoice(a, b, i, j);
    ScriptPop(ops, a, b, i, j);
    LastOp(ops, a, b, i, j);
    hide Backtrack, Score, IsScript, EqualCount;
    var front := ops[..|ops| - 1];
    if ops[|ops| - 1].Delete? {
      EqualsAtMostLcs(front, a, b, i - 1, j);
    }
  }

  lemma LastOp<T>(ops: seq<EditOp<T>>, a: seq<T>, b: seq<T>, i: nat, j: nat)
    requires i <= |a| && j <= |b| && ops != [] && IsScript(ops, a[..i], b[..j])
    ensures match ops[|ops| - 1]
      case Equal(o, n) => i > 0 && j > 0 && o == a[i - 1] && n == b[j - 1]
      case Delete(o) => i > 0 && o == a[i - 1]
      case Insert(n) => j > 0 && n == b[j - 1]
  {
    var front, op := ops[..|ops| - 1], ops[|ops| - 1];
    assert ops == front + [op];
    ScriptPush(front, op);
    if !op.Insert? {
      PrefixPush(a, i, OldOf(front), op.oldLine);
    }
    if !op.Delete? {
      PrefixPush(b, j, NewOf(front), op.newLine);
    }
  }

  lemma {:induction false} WalkIsAhead<T>(ops: seq<EditOp<T>>, a: seq<T>, b: seq<T>, i: nat, j: nat)
    requires i <= |a| && j <= |b|
    requires IsScript(ops, a[..i], b[..j]) && EqualCount(ops) == Score(a, b, i, j)
    ensures ops == Backtrack(a, b, i, j) || Ahead(Backtrack(a, b, i, j), ops)
    decreases |ops|
  {
    NothingLeft(ops, a, b, i, j);
    hide Backtrack, Score, IsScript, EqualCount, Ahead;
    if ops != [] {
      WalkChoice(a, b, i, j);
      OtherChoice(ops, a, b, i, j);
      var walk := Backtrack(a, b, i, j);
      var front, last := ops[..|ops| - 1], ops[|ops| - 1];
      if last == walk[|walk| - 1] {
        ScriptPop(ops, a, b, i, j);
        match last {
          case Equal(_, _) => WalkIsAhead(front, a, b, i - 1, j - 1);
          case Delete(_) => WalkIsAhead(front, a, b, i - 1, j);
          case Insert(_) => WalkIsAhead(front, a, b, i, j - 1);
        }
        SameOrAhead(walk, ops);
      } else {
        AheadByLast(walk, ops);
      }
    }
  }

  lemma SameOrAhead<T>(s: seq<EditOp<T>>, t: seq<EditOp<T>>)
    requires s != [] && t != [] && s[|s| - 1] == t[|t| - 1]
    requires t[..|t| - 1] == s[..|s| - 1] || Ahead(s[..|s| - 1], t[..|t| - 1])
    ensures t == s || Ahead(s, t)
  {
    var last := s[|s| - 1];
    assert s == s[..|s| - 1] + [last] && t == t[..|t| - 1] + [last];
    if t[..|t| - 1] != s[..|s| - 1] {
      AheadBeforeLast(s[..|s| - 1], t[..|t| - 1], last);
    }
  }

  lemma NothingLeft<T>(ops: seq<EditOp<T>>, a: seq<T>, b: seq<T>, i: nat, j: nat)
    requires i <= |a| && j <= |b| && IsScript(ops, a[..i], b[..j])
    ensures ops == [] <==> i + j == 0
    ensures i + j == 0 ==> Backtrack(a, b, i, j) == []
  {
    ScriptLengths(ops);
  }

  /** The script is ahead of every other script with as few changes; so it is the only one with that property. */
  lemma ChosenScript<T>(a: seq<T>, b: seq<T>, ops: seq<EditOp<T>>)
    requires IsScript(ops, a, b) && EqualCount(ops) == LcsLength(a, b)
    ensures ops == LcsScript(a, b) || Ahead(LcsScript(a, b), ops)
  {
    assert a[..|a|] == a && b[..|b|] == b;
    hide IsScript, EqualCount, Score, Backtrack, Ahead;
    WalkIsAhead(ops, a, b, |a|, |b|);
  }
}

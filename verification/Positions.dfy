/** Strictly increasing lists of positions, used to say which items of a list were picked, and in which order. */
module Positions {
  ghost predicate Increasing(at: seq<nat>, size: nat) {
    && (forall i, j :: 0 <= i < j < |at| ==> at[i] < at[j])
    && (forall i :: 0 <= i < |at| ==> at[i] < size)
  }

  /** The positions after looking at one more item. */
  function Extended(at: seq<nat>, n: nat, picked: bool): seq<nat> {
    if picked then at + [n] else at
  }

  lemma ExtendedIncreases(at: seq<nat>, n: nat, picked: bool)
    requires Increasing(at, n)
    ensures Increasing(Extended(at, n, picked), n + 1)
    ensures forall k :: k in Extended(at, n, picked) <==> k in at || (picked && k == n)
    ensures n !in at
  {
  }

  /** How far a list of `size` items was read until `limit` of them were found. */
  function ReadUpTo(at: seq<nat>, limit: nat, size: nat): nat {
    if |at| < limit then size else if at == [] then 0 else at[|at| - 1]
  }

  /** The first `limit` of the wanted positions, or all of them when there are fewer. */
  ghost predicate FirstOf(at: seq<nat>, wanted: set<nat>, limit: nat, size: nat) {
    && Increasing(at, size) && |at| <= limit
    && (forall i :: 0 <= i < |at| ==> at[i] in wanted)
    && (forall k :: k in wanted && k < ReadUpTo(at, limit, size) ==> k in at)
  }

  lemma {:induction false} SamePositions(a: seq<nat>, b: seq<nat>, wanted: set<nat>, limit: nat, size: nat, n: nat)
    requires FirstOf(a, wanted, limit, size) && FirstOf(b, wanted, limit, size) && n <= |a|
    ensures n <= |b| && a[..n] == b[..n]
  {
    if n > 0 {
      var i := n - 1;
      SamePositions(a, b, wanted, limit, size, i);
      assert i < |b| && b[i] <= a[i] by {
        if i >= |b| || a[i] < b[i] {
          NotSkipped(b, wanted, limit, size, i, a[i]);
          NotEarlier(a, b, i, a[i]);
        }
      }
      if b[i] < a[i] {
        NotSkipped(a, wanted, limit, size, i, b[i]);
        NotEarlier(b, a, i, b[i]);
      }
    }
  }

  /** A wanted position before item i of the list is one of the items before. */
  lemma NotSkipped(at: seq<nat>, wanted: set<nat>, limit: nat, size: nat, i: nat, k: nat)
    requires FirstOf(at, wanted, limit, size) && k in wanted && k < size && i < limit
    requires i >= |at| || k < at[i]
    ensures k in at[..if i < |at| then i else |at|]
  {
    assert k in at;
  }

  lemma NotEarlier(a: seq<nat>, b: seq<nat>, i: nat, k: nat)
    requires i < |a| && a[i] == k && (forall p, q :: 0 <= p < q < |a| ==> a[p] < a[q])
    requires a[..i] == b[..if i < |b| then i else |b|]
    ensures k !in b[..if i < |b| then i else |b|]
  {
  }

  /** There is only one list of the first wanted positions. */
  lemma FirstOfIsUnique(a: seq<nat>, b: seq<nat>, wanted: set<nat>, limit: nat, size: nat)
    requires FirstOf(a, wanted, limit, size) && FirstOf(b, wanted, limit, size)
    ensures a == b
  {
    SamePositions(a, b, wanted, limit, size, |a|);
    SamePositions(b, a, wanted, limit, size, |b|);
  }

  /** The beginning of the list of all wanted positions is the list of the first ones. */
  lemma FirstOfAll(all: seq<nat>, wanted: set<nat>, limit: nat, size: nat)
    requires Increasing(all, size) && (forall k :: k in wanted <==> k in all)
    ensures FirstOf(all[..if limit < |all| then limit else |all|], wanted, limit, size)
  {
    var at := all[..if limit < |all| then limit else |all|];
    forall k | k in wanted && k < ReadUpTo(at, limit, size)
      ensures k in at
    {
      var i :| 0 <= i < |all| && all[i] == k;
      assert i < |at|;
      assert at[i] == k;
    }
  }
}

/** Normalised discounted cumulative gain (benchmarks/search/metrics.ts). The discount 1 / log2(i + 2) is any
    positive, strictly decreasing weight. */
module RankingMetrics {
  import opened Positions

  datatype Judgment = Judgment(queryId: string, url: string, grade: nat)

  /** The first judgment of the url under the query decides; an unjudged url is worth nothing. */
  function GetGrade(url: string, judgments: seq<Judgment>, queryId: string): nat {
    if judgments == [] then 0
    else if judgments[0].queryId == queryId && judgments[0].url == url then judgments[0].grade
    else GetGrade(url, judgments[1..], queryId)
  }

  function Grades(ranked: seq<string>, judgments: seq<Judgment>, queryId: string): (grades: seq<nat>)
    ensures |grades| == |ranked|
    ensures forall i :: 0 <= i < |ranked| ==> grades[i] == GetGrade(ranked[i], judgments, queryId)
  {
    seq(|ranked|, i requires 0 <= i < |ranked| => GetGrade(ranked[i], judgments, queryId))
  }

  /** The grades of all judgments of the query, in order. */
  function QueryGrades(judgments: seq<Judgment>, queryId: string): seq<nat> {
    if judgments == [] then []
    else
      (if judgments[0].queryId == queryId then [judgments[0].grade] else []) + QueryGrades(judgments[1..], queryId)
  }

  ghost predicate Discounts(w: nat -> real) {
    && (forall i: nat :: w(i) > 0.0)
    && (forall i: nat, j: nat :: i < j ==> w(i) > w(j))
  }

  function Gain(grade: nat, weight: real): real {
    grade as real * weight
  }

  function Dcg(grades: seq<nat>, w: nat -> real): real {
    if grades == [] then 0.0
    else Dcg(grades[..|grades| - 1], w) + Gain(grades[|grades| - 1], w(|grades| - 1))
  }

  lemma DcgAppend(front: seq<nat>, last: nat, w: nat -> real)
    ensures Dcg(front + [last], w) == Dcg(front, w) + Gain(last, w(|front|))
  {
    assert (front + [last])[..|front|] == front;
  }

  method ComputeDcg(grades: seq<nat>, w: nat -> real) returns (dcg: real)
    ensures dcg == Dcg(grades, w)
  {
    if |grades| == 0 {
      return 0.0;
    }
    dcg := 0.0;
    for i := 0 to |grades|
      invariant dcg == Dcg(grades[..i], w)
    {
      assert grades[..i + 1][..i] == grades[..i];
      if grades[i] == 0 {
        continue;
      }
      dcg := dcg + grades[i] as real * w(i);
    }
    assert grades[..|grades|] == grades;
  }

  // ---------------------------------------------------------------- sorting

  ghost predicate Descending(s: seq<nat>) {
    forall i, j :: 0 <= i < j < |s| ==> s[i] >= s[j]
  }

  function Insert(x: nat, s: seq<nat>): seq<nat> {
    if s == [] then [x]
    else if x >= s[0] then [x] + s
    else [s[0]] + Insert(x, s[1..])
  }

  function SortDescending(s: seq<nat>): seq<nat> {
    if s == [] then [] else Insert(s[0], SortDescending(s[1..]))
  }

  lemma {:induction false} InsertKeeps(x: nat, s: seq<nat>)
    ensures multiset(Insert(x, s)) == multiset(s) + multiset{x}
  {
    if s != [] && x < s[0] {
      InsertKeeps(x, s[1..]);
      assert s == [s[0]] + s[1..];
    }
  }

  lemma {:induction false} InsertSorts(x: nat, s: seq<nat>)
    requires Descending(s)
    ensures Descending(Insert(x, s))
  {
    if s != [] && x < s[0] {
      var rest := s[1..];
      InsertSorts(x, rest);
      InsertKeeps(x, rest);
      var placed := Insert(x, rest);
      forall k | 0 <= k < |placed|
        ensures placed[k] <= s[0]
      {
        assert placed[k] in multiset(placed);
        assert placed[k] == x || placed[k] in rest;
      }
    }
  }

  lemma {:induction false} SortSorts(s: seq<nat>)
    ensures Descending(SortDescending(s)) && multiset(SortDescending(s)) == multiset(s)
  {
    if s != [] {
      SortSorts(s[1..]);
      InsertKeeps(s[0], SortDescending(s[1..]));
      InsertSorts(s[0], SortDescending(s[1..]));
      assert s == [s[0]] + s[1..];
    }
  }

  function Take(s: seq<nat>, n: int): seq<nat> {
    if n <= 0 then [] else if n >= |s| then s else s[..n]
  }

  // ---------------------------------------------------------------- the score

  function IdealGrades(ranked: seq<string>, judgments: seq<Judgment>, queryId: string): seq<nat> {
    Take(SortDescending(QueryGrades(judgments, queryId)), |ranked|)
  }

  ghost function Ndcg(ranked: seq<string>, judgments: seq<Judgment>, queryId: string, w: nat -> real): real {
    var actual := Dcg(Grades(ranked, judgments, queryId), w);
    var ideal := Dcg(IdealGrades(ranked, judgments, queryId), w);
    if actual == 0.0 || ideal == 0.0 then 0.0 else actual / ideal
  }

  method ComputeNdcg(ranked: seq<string>, judgments: seq<Judgment>, queryId: string, w: nat -> real) returns (ndcg: real)
    ensures ndcg == Ndcg(ranked, judgments, queryId, w)
  {
    if |ranked| == 0 {
      return 0.0;
    }
    var queryGrades := QueryGrades(judgments, queryId);
    if |queryGrades| == 0 {
      assert SortDescending(queryGrades) == [];
      return 0.0;
    }
    var actualDcg := ComputeDcg(Grades(ranked, judgments, queryId), w);
    if actualDcg == 0.0 {
      return 0.0;
    }
    var idealDcg := ComputeDcg(Take(SortDescending(queryGrades), |ranked|), w);
    if idealDcg == 0.0 {
      return 0.0;
    }
    return actualDcg / idealDcg;
  }

  method ComputeNdcgAtK(ranked: seq<string>, judgments: seq<Judgment>, queryId: string, w: nat -> real, k: int) returns (ndcg: real)
    ensures ndcg == if k <= 0 then 0.0 else Ndcg(if k >= |ranked| then ranked else ranked[..k], judgments, queryId, w)
  {
    if k <= 0 {
      return 0.0;
    }
    ndcg := ComputeNdcg(if k >= |ranked| then ranked else ranked[..k], judgments, queryId, w);
  }

  // ---------------------------------------------------------------- grades of distinct urls

  ghost predicate Distinct(ranked: seq<string>) {
    forall i, j :: 0 <= i < j < |ranked| ==> ranked[i] != ranked[j]
  }

  /** Every positive grade occurs in x at most as often as in s. */
  ghost predicate Within(x: seq<nat>, s: seq<nat>) {
    forall v :: v > 0 ==> multiset(x)[v] <= multiset(s)[v]
  }

  lemma {:induction false} UnjudgedGrades(ranked: seq<string>, queryId: string)
    ensures Within(Grades(ranked, [], queryId), [])
  {
    var grades := Grades(ranked, [], queryId);
    forall v | v > 0
      ensures multiset(grades)[v] == 0
    {
      if v in grades {
        assert false;
      }
    }
  }

  /** Each judgment serves at most one of several distinct urls. */
  lemma {:induction false} DistinctUrlsWithin(ranked: seq<string>, judgments: seq<Judgment>, queryId: string)
    requires Distinct(ranked)
    ensures Within(Grades(ranked, judgments, queryId), QueryGrades(judgments, queryId))
    decreases |judgments|
  {
    if judgments == [] {
      UnjudgedGrades(ranked, queryId);
    } else {
      var first, rest := judgments[0], judgments[1..];
      DistinctUrlsWithin(ranked, rest, queryId);
      var grades, later := Grades(ranked, judgments, queryId), Grades(ranked, rest, queryId);
      if first.queryId == queryId && first.url in ranked {
        var p :| 0 <= p < |ranked| && ranked[p] == first.url;
        assert grades == later[p := first.grade];
        OneReplaced(later, p, first.grade, QueryGrades(rest, queryId));
      } else {
        assert grades == later;
        if first.queryId == queryId {
          assert multiset(QueryGrades(judgments, queryId)) == multiset{first.grade} + multiset(QueryGrades(rest, queryId));
        }
      }
    }
  }

  lemma OneReplaced(grades: seq<nat>, p: nat, grade: nat, s: seq<nat>)
    requires p < |grades| && Within(grades, s)
    ensures Within(grades[p := grade], [grade] + s)
  {
    assert multiset([grade] + s) == multiset{grade} + multiset(s);
    assert multiset(grades[p := grade]) == multiset(grades) - multiset{grades[p]} + multiset{grade};
  }

  // ---------------------------------------------------------------- the best k grades

  function Sum(s: seq<nat>): nat {
    if s == [] then 0 else Sum(s[..|s| - 1]) + s[|s| - 1]
  }

  lemma SumAppend(front: seq<nat>, last: nat)
    ensures Sum(front + [last]) == Sum(front) + last
  {
    assert (front + [last])[..|front|] == front;
  }

  lemma {:induction false} SumOfConcat(s: seq<nat>, t: seq<nat>)
    ensures Sum(s + t) == Sum(s) + Sum(t)
  {
    if t == [] {
      assert s + t == s;
    } else {
      SumOfConcat(s, t[..|t| - 1]);
      assert (s + t)[..|s + t| - 1] == s + t[..|t| - 1];
    }
  }

  lemma {:induction false} AllZeroSum(s: seq<nat>)
    requires forall i :: 0 <= i < |s| ==> s[i] == 0
    ensures Sum(s) == 0
  {
    if s != [] {
      AllZeroSum(s[..|s| - 1]);
    }
  }

  /** In a descending list the first k are worth at least as much as the k after the first. */
  lemma {:induction false} ShiftedSum(s: seq<nat>, k: nat)
    requires Descending(s) && s != []
    ensures Sum(Take(s[1..], k)) <= Sum(Take(s, k))
  {
    if k == 1 {
      assert Take(s, 1) == [s[0]] && [s[0]][..0] == [];
      if |s| > 1 {
        assert Take(s[1..], 1) == [s[1]] && [s[1]][..0] == [];
      }
    } else if k > |s| - 1 {
      assert s == [s[0]] + s[1..];
      SumOfConcat([s[0]], s[1..]);
    } else if k > 1 {
      ShiftedSum(s, k - 1);
      assert Take(s, k)[..k - 1] == Take(s, k - 1);
      assert Take(s[1..], k)[..k - 1] == Take(s[1..], k - 1);
      assert s[k - 1] >= s[k];
    }
  }

  lemma SumWithout(x: seq<nat>, p: nat)
    requires p < |x|
    ensures Sum(x) == x[p] + Sum(x[..p] + x[p + 1..])
  {
    hide Sum;
    assert x == (x[..p] + [x[p]]) + x[p + 1..];
    SumOfConcat(x[..p] + [x[p]], x[p + 1..]);
    SumAppend(x[..p], x[p]);
    SumOfConcat(x[..p], x[p + 1..]);
  }

  lemma TakeFirst(s: seq<nat>, k: nat)
    requires s != [] && k > 0
    ensures Sum(Take(s, k)) == s[0] + Sum(Take(s[1..], k - 1))
  {
    assert Take(s, k) == [s[0]] + Take(s[1..], k - 1);
    SumOfConcat([s[0]], Take(s[1..], k - 1));
    assert [s[0]][..0] == [];
  }

  lemma DescendingTail(s: seq<nat>)
    requires Descending(s) && s != []
    ensures Descending(s[1..])
  {
  }

  lemma WithoutUnused(x: seq<nat>, s: seq<nat>)
    requires s != [] && Within(x, s) && s[0] !in x
    ensures Within(x, s[1..])
  {
    assert s == [s[0]] + s[1..];
    assert multiset(s) == multiset{s[0]} + multiset(s[1..]);
    assert multiset(x)[s[0]] == 0;
  }

  /** No selection beats the best ones. */
  lemma {:induction false} BestSum(x: seq<nat>, s: seq<nat>)
    requires Descending(s) && Within(x, s)
    ensures Sum(x) <= Sum(Take(s, |x|))
    decreases |s|
  {
    hide Descending, Within, Sum, Take;
    if s == [] || s[0] == 0 {
      NoPositive(x, s);
      AllZeroSum(x);
    } else {
      DescendingTail(s);
      if s[0] in x {
        var p :| 0 <= p < |x| && x[p] == s[0];
        WithoutBest(x, p, s);
        BestSum(x[..p] + x[p + 1..], s[1..]);
        SumWithout(x, p);
        TakeFirst(s, |x|);
      } else {
        WithoutUnused(x, s);
        BestSum(x, s[1..]);
        ShiftedSum(s, |x|);
      }
    }
  }

  lemma NoPositive(x: seq<nat>, s: seq<nat>)
    requires Descending(s) && Within(x, s) && (s == [] || s[0] == 0)
    ensures forall i :: 0 <= i < |x| ==> x[i] == 0
  {
    forall i | 0 <= i < |x|
      ensures x[i] == 0
    {
      if x[i] > 0 {
        assert multiset(x)[x[i]] > 0;
        assert x[i] in s;
      }
    }
  }

  lemma WithoutBest(x: seq<nat>, p: nat, s: seq<nat>)
    requires s != [] && p < |x| && x[p] == s[0] && Within(x, s)
    ensures Within(x[..p] + x[p + 1..], s[1..])
  {
    assert x == x[..p] + [x[p]] + x[p + 1..];
    assert s == [s[0]] + s[1..];
    assert multiset(x) == multiset(x[..p] + x[p + 1..]) + multiset{s[0]};
    assert multiset(s) == multiset(s[1..]) + multiset{s[0]};
    forall v | v > 0
      ensures multiset(x[..p] + x[p + 1..])[v] <= multiset(s[1..])[v]
    {
      assert multiset(x)[v] <= multiset(s)[v];
    }
  }

  // ---------------------------------------------------------------- prefix sums carry over to DCG

  /** x with zeros up to length n. */
  function Padded(x: seq<nat>, n: nat): (p: seq<nat>)
    ensures |p| == (if |x| >= n then |x| else n)
  {
    if |x| >= n then x else Padded(x, n - 1) + [0]
  }

  lemma {:induction false} PaddedScore(x: seq<nat>, n: nat, w: nat -> real)
    ensures Dcg(Padded(x, n), w) == Dcg(x, w)
  {
    hide Dcg;
    if |x| < n {
      PaddedScore(x, n - 1, w);
      DcgAppend(Padded(x, n - 1), 0, w);
    }
  }

  lemma {:induction false} PaddedSum(x: seq<nat>, n: nat, k: nat)
    requires k <= |Padded(x, n)|
    ensures Sum(Padded(x, n)[..k]) == Sum(Take(x, k))
  {
    hide Sum;
    if |x| >= n {
      assert Padded(x, n)[..k] == Take(x, k);
    } else {
      var p, q := Padded(x, n), Padded(x, n - 1);
      if k < n {
        PaddedSum(x, n - 1, k);
        assert p[..k] == q[..k];
      } else {
        PaddedSum(x, n - 1, n - 1);
        SumAppend(q, 0);
        assert p == q + [0] && p[..k] == p && q[..n - 1] == q;
        assert Take(x, k) == Take(x, n - 1);
      }
    }
  }

  ghost predicate Dominated(g: seq<nat>, h: seq<nat>) {
    |g| == |h| && forall k :: 0 <= k <= |g| ==> Sum(g[..k]) <= Sum(h[..k])
  }

  lemma GainStep(lead: nat, lead': nat, gap: real, gap': real, heavier: real, weight: real, g: nat, h: nat)
    requires heavier > weight > 0.0
    requires lead' == lead + h - g
    requires gap >= lead as real * heavier
    requires gap' == gap + Gain(h, weight) - Gain(g, weight)
    ensures gap' >= lead' as real * weight
    ensures gap' == lead' as real * weight ==> gap == lead as real * heavier && lead == 0
  {
    var l := lead as real;
    assert lead' as real == l + h as real - g as real;
    assert lead' as real * weight == l * weight + h as real * weight - g as real * weight;
    assert l * heavier == l * weight + l * (heavier - weight);
    if lead > 0 {
      Positive(l, heavier - weight);
    }
  }

  lemma Positive(p: real, q: real)
    requires p > 0.0 && q > 0.0
    ensures p * q > 0.0
  {
  }

  /** Summation by parts: a lead in every prefix sum is a lead in DCG, worth at least its last weight, and
      exactly that only when no earlier prefix leads. */
  lemma {:induction false} LeadCarriesOver(g: seq<nat>, h: seq<nat>, w: nat -> real, k: nat)
    requires Discounts(w) && Dominated(g, h) && 0 < k <= |g|
    ensures Dcg(h[..k], w) - Dcg(g[..k], w) >= (Sum(h[..k]) - Sum(g[..k])) as real * w(k - 1)
    ensures Dcg(h[..k], w) - Dcg(g[..k], w) == (Sum(h[..k]) - Sum(g[..k])) as real * w(k - 1) ==>
      forall j :: 0 <= j < k ==> Sum(g[..j]) == Sum(h[..j])
  {
    hide Dcg, Sum, Gain, Dominated;
    LeadAt(g, h, k);
    LastOfPrefix(g, k, w);
    LastOfPrefix(h, k, w);
    if k == 1 {
      NothingYet(g, w);
      NothingYet(h, w);
      GainDifference(g[0], h[0], w(0));
    } else {
      LeadCarriesOver(g, h, w, k - 1);
      LeadAt(g, h, k - 1);
      assert w(k - 2) > w(k - 1) > 0.0;
      hide Discounts;
      GainStep(Sum(h[..k - 1]) - Sum(g[..k - 1]), Sum(h[..k]) - Sum(g[..k]),
        Dcg(h[..k - 1], w) - Dcg(g[..k - 1], w), Dcg(h[..k], w) - Dcg(g[..k], w),
        w(k - 2), w(k - 1), g[k - 1], h[k - 1]);
    }
  }

  lemma LeadAt(g: seq<nat>, h: seq<nat>, k: nat)
    requires Dominated(g, h) && k <= |g|
    ensures |g| == |h| && Sum(g[..k]) <= Sum(h[..k])
  {
  }

  lemma NothingYet(g: seq<nat>, w: nat -> real)
    ensures Dcg(g[..0], w) == 0.0 && Sum(g[..0]) == 0
  {
  }

  lemma GainDifference(g: nat, h: nat, weight: real)
    ensures Gain(h, weight) - Gain(g, weight) == (h - g) as real * weight
  {
  }

  lemma LastOfPrefix(g: seq<nat>, k: nat, w: nat -> real)
    requires 0 < k <= |g|
    ensures Dcg(g[..k], w) == Dcg(g[..k - 1], w) + Gain(g[k - 1], w(k - 1))
    ensures Sum(g[..k]) == Sum(g[..k - 1]) + g[k - 1]
  {
    assert g[..k] == g[..k - 1] + [g[k - 1]];
    DcgAppend(g[..k - 1], g[k - 1], w);
    SumAppend(g[..k - 1], g[k - 1]);
  }

  lemma {:induction false} SamePrefixSums(g: seq<nat>, h: seq<nat>)
    requires |g| == |h| && forall j :: 0 <= j <= |g| ==> Sum(g[..j]) == Sum(h[..j])
    ensures g == h
  {
    forall k | 0 <= k < |g|
      ensures g[k] == h[k]
    {
      assert g[..k + 1][..k] == g[..k] && h[..k + 1][..k] == h[..k];
      assert Sum(g[..k + 1]) == Sum(h[..k + 1]);
    }
  }

  lemma SamePlaces(lead: nat, gap: real, weight: real)
    requires weight > 0.0 && gap >= lead as real * weight
    ensures gap >= 0.0
    ensures gap == 0.0 ==> lead == 0 && gap == lead as real * weight
  {
    if lead > 0 {
      Positive(lead as real, weight);
    }
  }

  /** Dominated grades score no more, and the same only when they are the same grades. */
  lemma DominatedScoresLess(g: seq<nat>, h: seq<nat>, w: nat -> real)
    requires Discounts(w) && Dominated(g, h)
    ensures Dcg(g, w) <= Dcg(h, w)
    ensures Dcg(g, w) == Dcg(h, w) <==> g == h
  {
    hide Dcg, Sum, Gain, Dominated;
    var n := |g|;
    LeadAt(g, h, n);
    if n == 0 {
      assert g == h;
    } else {
      LeadCarriesOver(g, h, w, n);
      assert w(n - 1) > 0.0;
      assert g[..n] == g && h[..n] == h;
      hide Discounts;
      SamePlaces(Sum(h) - Sum(g), Dcg(h, w) - Dcg(g, w), w(n - 1));
      if Dcg(g, w) == Dcg(h, w) {
        SamePrefixSums(g, h);
      }
    }
  }

  // ---------------------------------------------------------------- NDCG

  lemma {:induction false} DcgSign(grades: seq<nat>, w: nat -> real)
    requires Discounts(w)
    ensures Dcg(grades, w) >= 0.0
    ensures Dcg(grades, w) == 0.0 <==> forall i :: 0 <= i < |grades| ==> grades[i] == 0
  {
    if grades != [] {
      var n := |grades| - 1;
      DcgSign(grades[..n], w);
      if grades[n] > 0 {
        Positive(grades[n] as real, w(n));
      } else {
        assert forall i :: 0 <= i < n ==> grades[..n][i] == grades[i];
      }
    }
  }

  lemma PrefixWithin(g: seq<nat>, k: nat, q: seq<nat>, s: seq<nat>)
    requires k <= |g| && Within(g, q) && multiset(s) == multiset(q)
    ensures Within(g[..k], s)
  {
    assert g == g[..k] + g[k..];
    assert multiset(g) == multiset(g[..k]) + multiset(g[k..]);
    forall v | v > 0
      ensures multiset(g[..k])[v] <= multiset(s)[v]
    {
      assert multiset(g)[v] <= multiset(q)[v];
    }
  }

  lemma ActualIsDominated(ranked: seq<string>, judgments: seq<Judgment>, queryId: string)
    requires Distinct(ranked)
    ensures Dominated(Grades(ranked, judgments, queryId), Padded(IdealGrades(ranked, judgments, queryId), |ranked|))
  {
    hide Distinct, Within, QueryGrades, SortDescending, Descending, Padded, Sum;
    var g, q := Grades(ranked, judgments, queryId), QueryGrades(judgments, queryId);
    var s, ideal := SortDescending(q), IdealGrades(ranked, judgments, queryId);
    SortSorts(q);
    DistinctUrlsWithin(ranked, judgments, queryId);
    forall k: nat | k <= |g|
      ensures Sum(g[..k]) <= Sum(Padded(ideal, |ranked|)[..k])
    {
      PrefixWithin(g, k, q, s);
      BestSum(g[..k], s);
      PaddedSum(ideal, |ranked|, k);
      assert Take(ideal, k) == Take(s, k);
    }
  }

  /** For distinct urls the score lies in [0, 1], and is 1 exactly when some grade counts and the ranking
      has the ideal grades position by position. */
  lemma NdcgOfDistinctUrls(ranked: seq<string>, judgments: seq<Judgment>, queryId: string, w: nat -> real)
    requires Discounts(w) && Distinct(ranked)
    ensures 0.0 <= Ndcg(ranked, judgments, queryId, w) <= 1.0
    ensures Dcg(Grades(ranked, judgments, queryId), w) <= Dcg(IdealGrades(ranked, judgments, queryId), w)
    ensures Ndcg(ranked, judgments, queryId, w) == 1.0 <==>
      && Grades(ranked, judgments, queryId) == Padded(IdealGrades(ranked, judgments, queryId), |ranked|)
      && exists i :: 0 <= i < |ranked| && Grades(ranked, judgments, queryId)[i] > 0
  {
    var g, ideal := Grades(ranked, judgments, queryId), IdealGrades(ranked, judgments, queryId);
    ActualIsDominated(ranked, judgments, queryId);
    PaddedScore(ideal, |ranked|, w);
    DominatedScoresLess(g, Padded(ideal, |ranked|), w);
    DcgSign(g, w);
    if Dcg(ideal, w) > 0.0 {
      Ratio(Dcg(g, w), Dcg(ideal, w));
    }
  }

  lemma Ratio(p: real, q: real)
    requires 0.0 <= p && 0.0 < q
    ensures 0.0 <= p / q
    ensures p / q > 1.0 <==> p > q
    ensures p / q == 1.0 <==> p == q
  {
    var r := p / q;
    assert r * q == p;
    Factor(r, q);
  }

  lemma Factor(r: real, q: real)
    requires q > 0.0
    ensures r * q >= 0.0 ==> r >= 0.0
    ensures r * q > q <==> r > 1.0
    ensures r * q == q <==> r == 1.0
  {
    assert r * q - q == (r - 1.0) * q;
    if r > 1.0 {
      Positive(r - 1.0, q);
    } else if r < 1.0 {
      Positive(1.0 - r, q);
      assert (1.0 - r) * q == -((r - 1.0) * q);
    }
    if r < 0.0 {
      Positive(-r, q);
      assert -r * q == -(r * q);
    }
  }

  // ---------------------------------------------------------------- repeated urls

  /** Whatever the judgments, the ranking scores at most 1. */
  ghost predicate NeverAboveOne(ranked: seq<string>, w: nat -> real) {
    forall judgments: seq<Judgment>, queryId: string :: Ndcg(ranked, judgments, queryId, w) <= 1.0
  }

  function FirstOnly(ranked: seq<string>): seq<string> {
    if ranked == [] then []
    else
      var front, last := FirstOnly(ranked[..|ranked| - 1]), ranked[|ranked| - 1];
      if last in front then front else front + [last]
  }

  lemma {:induction false} FirstOnlyKeeps(ranked: seq<string>)
    ensures forall u :: u in ranked <==> u in FirstOnly(ranked)
    ensures |FirstOnly(ranked)| <= |ranked|
    ensures |FirstOnly(ranked)| == |ranked| ==> Distinct(ranked)
  {
    if ranked != [] {
      var n := |ranked| - 1;
      FirstOnlyKeeps(ranked[..n]);
      assert ranked == ranked[..n] + [ranked[n]];
    }
  }

  /** One judgment of grade 1 for each url. */
  function AllRelevant(urls: seq<string>): seq<Judgment> {
    if urls == [] then [] else [Judgment("q", urls[0], 1)] + AllRelevant(urls[1..])
  }

  lemma {:induction false} AllRelevantGrades(urls: seq<string>)
    ensures QueryGrades(AllRelevant(urls), "q") == Ones(|urls|)
    ensures forall u :: u in urls ==> GetGrade(u, AllRelevant(urls), "q") == 1
  {
    if urls != [] {
      AllRelevantGrades(urls[1..]);
      assert AllRelevant(urls)[1..] == AllRelevant(urls[1..]);
    }
  }

  function Ones(n: nat): (s: seq<nat>)
    ensures |s| == n && forall i :: 0 <= i < n ==> s[i] == 1
  {
    if n == 0 then [] else [1] + Ones(n - 1)
  }

  lemma {:induction false} OnesSorted(n: nat)
    ensures SortDescending(Ones(n)) == Ones(n)
  {
    if n > 0 {
      assert Ones(n)[1..] == Ones(n - 1);
      OnesSorted(n - 1);
    }
  }

  lemma {:induction false} MoreOnesScoreMore(m: nat, n: nat, w: nat -> real)
    requires Discounts(w) && m < n
    ensures Dcg(Ones(m), w) < Dcg(Ones(n), w)
  {
    assert Ones(n)[..n - 1] == Ones(n - 1);
    if m < n - 1 {
      MoreOnesScoreMore(m, n - 1, w);
    }
  }

  /** A ranking that lists a url twice exceeds 1 when every listed url is judged relevant once. */
  lemma RepeatedUrlExceedsOne(ranked: seq<string>, w: nat -> real)
    requires Discounts(w) && !Distinct(ranked)
    ensures Ndcg(ranked, AllRelevant(FirstOnly(ranked)), "q", w) > 1.0
  {
    var urls := FirstOnly(ranked);
    var judgments := AllRelevant(urls);
    FirstOnlyKeeps(ranked);
    AllRelevantGrades(urls);
    OnesSorted(|urls|);
    assert Grades(ranked, judgments, "q") == Ones(|ranked|);
    assert IdealGrades(ranked, judgments, "q") == Ones(|urls|);
    assert ranked[0] in urls;
    hide Distinct, FirstOnly, AllRelevant, Grades, IdealGrades, Dcg;
    MoreOnesScoreMore(|urls|, |ranked|, w);
    SomeOneCounts(|urls|, w);
    Ratio(Dcg(Ones(|ranked|), w), Dcg(Ones(|urls|), w));
  }

  lemma SomeOneCounts(n: nat, w: nat -> real)
    requires Discounts(w) && n > 0
    ensures Dcg(Ones(n), w) > 0.0
  {
    DcgSign(Ones(n), w);
    assert Ones(n)[0] == 1;
  }

  /** The score is certain to stay within 1 exactly for rankings that list no url twice. */
  lemma WithinOneExactly(ranked: seq<string>, w: nat -> real)
    requires Discounts(w)
    ensures NeverAboveOne(ranked, w) <==> Distinct(ranked)
  {
    if Distinct(ranked) {
      forall judgments: seq<Judgment>, queryId: string
        ensures Ndcg(ranked, judgments, queryId, w) <= 1.0
      {
        NdcgOfDistinctUrls(ranked, judgments, queryId, w);
      }
    } else {
      RepeatedUrlExceedsOne(ranked, w);
    }
  }

  // ---------------------------------------------------------------- what the score is made of

  /** The grade of a url is that of its first judgment under the query, and 0 when it has none. */
  lemma {:induction false} GradeIsFirst(url: string, judgments: seq<Judgment>, queryId: string) returns (k: nat)
    ensures k <= |judgments|
    ensures forall j :: 0 <= j < k ==> judgments[j].queryId != queryId || judgments[j].url != url
    ensures k < |judgments| ==>
      judgments[k].queryId == queryId && judgments[k].url == url && GetGrade(url, judgments, queryId) == judgments[k].grade
    ensures k == |judgments| ==> GetGrade(url, judgments, queryId) == 0
  {
    k := 0;
    if judgments != [] && !(judgments[0].queryId == queryId && judgments[0].url == url) {
      k := GradeIsFirst(url, judgments[1..], queryId);
      k := k + 1;
    }
  }

  /** The listed positions are those of the judgments of the query. */
  ghost predicate JudgmentsOf(judgments: seq<Judgment>, queryId: string, at: seq<nat>) {
    && Increasing(at, |judgments|)
    && (forall k :: 0 <= k < |judgments| ==> (k in at <==> judgments[k].queryId == queryId))
  }

  /** The grades are those of the judgments at the listed positions, in order. */
  ghost predicate GradesAt(judgments: seq<Judgment>, grades: seq<nat>, at: seq<nat>) {
    && |grades| == |at|
    && (forall i :: 0 <= i < |at| ==> at[i] < |judgments| && grades[i] == judgments[at[i]].grade)
  }

  lemma {:induction false} QueryGradesSplit(front: seq<Judgment>, last: Judgment, queryId: string)
    ensures QueryGrades(front + [last], queryId)
         == QueryGrades(front, queryId) + if last.queryId == queryId then [last.grade] else []
  {
    if front == [] {
      assert front + [last] == [last] && [last][1..] == [];
    } else {
      QueryGradesSplit(front[1..], last, queryId);
      assert (front + [last])[1..] == front[1..] + [last];
    }
  }

  lemma JudgmentsMore(judgments: seq<Judgment>, queryId: string, at: seq<nat>, n: nat)
    requires n + 1 == |judgments| && JudgmentsOf(judgments[..n], queryId, at)
    ensures JudgmentsOf(judgments, queryId, Extended(at, n, judgments[n].queryId == queryId))
  {
    ExtendedIncreases(at, n, judgments[n].queryId == queryId);
    hide Increasing;
  }

  lemma GradesMore(judgments: seq<Judgment>, grades: seq<nat>, at: seq<nat>, n: nat, mine: bool)
    requires n + 1 == |judgments| && GradesAt(judgments[..n], grades, at)
    ensures GradesAt(judgments, grades + if mine then [judgments[n].grade] else [], Extended(at, n, mine))
  {
  }

  lemma {:induction false} QueryGradesRead(judgments: seq<Judgment>, queryId: string) returns (at: seq<nat>)
    ensures JudgmentsOf(judgments, queryId, at) && GradesAt(judgments, QueryGrades(judgments, queryId), at)
  {
    hide JudgmentsOf, GradesAt, QueryGrades;
    if judgments == [] {
      at := [];
      NothingJudged(queryId);
    } else {
      var n := |judgments| - 1;
      at := QueryGradesRead(judgments[..n], queryId);
      JudgmentsMore(judgments, queryId, at, n);
      GradesMore(judgments, QueryGrades(judgments[..n], queryId), at, n, judgments[n].queryId == queryId);
      QueryGradesSplit(judgments[..n], judgments[n], queryId);
      assert judgments == judgments[..n] + [judgments[n]];
      at := Extended(at, n, judgments[n].queryId == queryId);
    }
  }

  lemma NothingJudged(queryId: string)
    ensures JudgmentsOf([], queryId, []) && GradesAt([], QueryGrades([], queryId), [])
  {
  }

  /** The ideal grades are the largest of the query's grades, as many as urls are ranked or judged, in descending
      order: what is left of the query's grades is nowhere larger. */
  lemma IdealIsBest(ranked: seq<string>, judgments: seq<Judgment>, queryId: string) returns (rest: seq<nat>)
    ensures var ideal, q := IdealGrades(ranked, judgments, queryId), QueryGrades(judgments, queryId);
      && Descending(ideal) && |ideal| == (if |ranked| <= |q| then |ranked| else |q|)
      && multiset(q) == multiset(ideal) + multiset(rest)
      && (forall i, j :: 0 <= i < |ideal| && 0 <= j < |rest| ==> ideal[i] >= rest[j])
  {
    hide QueryGrades, SortDescending;
    var q := QueryGrades(judgments, queryId);
    var s, ideal := SortDescending(q), IdealGrades(ranked, judgments, queryId);
    SortSorts(q);
    assert |multiset(s)| == |multiset(q)|;
    rest := s[|ideal|..];
    assert ideal == s[..|ideal|];
    assert s == ideal + rest;
  }

  /** DCG is linear in the grades. */
  lemma {:induction false} DcgOfSum(x: seq<nat>, y: seq<nat>, z: seq<nat>, w: nat -> real)
    requires |x| == |y| == |z| && forall i :: 0 <= i < |z| ==> z[i] == x[i] + y[i]
    ensures Dcg(z, w) == Dcg(x, w) + Dcg(y, w)
  {
    if z != [] {
      var n := |z| - 1;
      DcgOfSum(x[..n], y[..n], z[..n], w);
      GainOfSum(x[n], y[n], w(n));
      hide Gain;
    }
  }

  lemma GainOfSum(x: nat, y: nat, weight: real)
    ensures Gain(x + y, weight) == Gain(x, weight) + Gain(y, weight)
  {
    assert (x + y) as real == x as real + y as real;
    assert (x as real + y as real) * weight == x as real * weight + y as real * weight;
  }

  /** And a single grade counts with the weight of its position. */
  lemma {:induction false} DcgOfOne(grades: seq<nat>, k: nat, w: nat -> real)
    requires k < |grades| && forall i :: 0 <= i < |grades| && i != k ==> grades[i] == 0
    ensures Dcg(grades, w) == grades[k] as real * w(k)
  {
    var n := |grades| - 1;
    if k < n {
      DcgOfOne(grades[..n], k, w);
      assert grades[n] == 0;
      assert 0 as real * w(n) == 0.0;
    } else {
      DcgOfZeros(grades[..n], w);
    }
  }

  lemma {:induction false} DcgOfZeros(grades: seq<nat>, w: nat -> real)
    requires forall i :: 0 <= i < |grades| ==> grades[i] == 0
    ensures Dcg(grades, w) == 0.0
  {
    if grades != [] {
      var n := |grades| - 1;
      DcgOfZeros(grades[..n], w);
      assert 0 as real * w(n) == 0.0;
    }
  }

  lemma PositiveIsJudged(url: string, judgments: seq<Judgment>, queryId: string)
    requires GetGrade(url, judgments, queryId) > 0
    ensures exists g :: g in QueryGrades(judgments, queryId) && g > 0
  {
    hide GetGrade, QueryGrades;
    var k := GradeIsFirst(url, judgments, queryId);
    var at := QueryGradesRead(judgments, queryId);
    assert k in at;
    var i :| 0 <= i < |at| && at[i] == k;
    var g := QueryGrades(judgments, queryId)[i];
    assert g in QueryGrades(judgments, queryId) && g > 0;
  }

  /** As soon as a listed url has a positive grade, the ideal score is positive. */
  lemma SomethingIdeal(ranked: seq<string>, judgments: seq<Judgment>, queryId: string, w: nat -> real)
    requires Discounts(w) && exists i :: 0 <= i < |ranked| && Grades(ranked, judgments, queryId)[i] > 0
    ensures Dcg(IdealGrades(ranked, judgments, queryId), w) > 0.0
  {
    hide GetGrade, QueryGrades, Dcg, IdealGrades;
    var i :| 0 <= i < |ranked| && Grades(ranked, judgments, queryId)[i] > 0;
    PositiveIsJudged(ranked[i], judgments, queryId);
    var ideal := IdealGrades(ranked, judgments, queryId);
    var rest := IdealIsBest(ranked, judgments, queryId);
    var g :| g in QueryGrades(judgments, queryId) && g > 0;
    assert g in multiset(QueryGrades(judgments, queryId));
    assert |multiset(QueryGrades(judgments, queryId))| == |QueryGrades(judgments, queryId)|;
    FirstIsPositive(ideal, rest, g);
    DcgSign(ideal, w);
  }

  lemma FirstIsPositive(ideal: seq<nat>, rest: seq<nat>, g: nat)
    requires g > 0 && g in multiset(ideal) + multiset(rest) && ideal != [] && Descending(ideal)
    requires forall i, j :: 0 <= i < |ideal| && 0 <= j < |rest| ==> ideal[i] >= rest[j]
    ensures ideal[0] > 0
  {
    if g in ideal {
      var i :| 0 <= i < |ideal| && ideal[i] == g;
    } else {
      assert g in rest;
      var j :| 0 <= j < |rest| && rest[j] == g;
    }
  }

  /** For every ranking, repeated urls included, the score is the actual DCG as a share of the ideal one; it is 0
      exactly when no listed url has a positive grade. */
  lemma NdcgIsShare(ranked: seq<string>, judgments: seq<Judgment>, queryId: string, w: nat -> real)
    requires Discounts(w)
    ensures Ndcg(ranked, judgments, queryId, w) * Dcg(IdealGrades(ranked, judgments, queryId), w)
         == Dcg(Grades(ranked, judgments, queryId), w)
    ensures Ndcg(ranked, judgments, queryId, w) == 0.0 <==>
      forall i :: 0 <= i < |ranked| ==> Grades(ranked, judgments, queryId)[i] == 0
    ensures Ndcg(ranked, judgments, queryId, w) >= 0.0
  {
    DcgSign(Grades(ranked, judgments, queryId), w);
    hide Dcg, IdealGrades, Grades;
    if Dcg(Grades(ranked, judgments, queryId), w) > 0.0 {
      SomethingIdeal(ranked, judgments, queryId, w);
      ShareOf(Dcg(Grades(ranked, judgments, queryId), w), Dcg(IdealGrades(ranked, judgments, queryId), w));
    } else {
      NoShare(Dcg(IdealGrades(ranked, judgments, queryId), w));
    }
  }

  lemma ShareOf(p: real, q: real)
    requires p > 0.0 && q > 0.0
    ensures p / q * q == p && p / q > 0.0
  {
    Factor(p / q, q);
    assert p / q != 0.0 by {
      if p / q == 0.0 {
        NoShare(q);
      }
    }
  }

  lemma NoShare(q: real)
    ensures 0.0 * q == 0.0
  {
  }
}

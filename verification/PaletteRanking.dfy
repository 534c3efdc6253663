/** Choosing palette colours from the clusters (rankAndFilterClusters of src/extraction/brand-palette.ts):
    saturated clusters by size, monochrome ones only as a fallback, near-identical ones once. */
module PaletteRanking {
  import opened BrandPalette
  import opened Positions

  const SATURATION_SPREAD_MIN := 30
  const NEAR_WHITE := 240
  const NEAR_BLACK := 15
  const MAX_OUT_COLORS := 5
  const TOL := 8

  /** A populated cluster with rounded channels. */
  datatype Swatch = Swatch(r: int, g: int, b: int, count: nat)

  /** `Math.round`. */
  function Round(x: real): int {
    (x + 0.5).Floor
  }

  function Max3(r: int, g: int, b: int): int {
    if r >= g && r >= b then r else if g >= b then g else b
  }

  function Min3(r: int, g: int, b: int): int {
    if r <= g && r <= b then r else if g <= b then g else b
  }

  predicate Monochrome(s: Swatch) {
    || (s.r >= NEAR_WHITE && s.g >= NEAR_WHITE && s.b >= NEAR_WHITE)
    || (s.r <= NEAR_BLACK && s.g <= NEAR_BLACK && s.b <= NEAR_BLACK)
    || Max3(s.r, s.g, s.b) - Min3(s.r, s.g, s.b) < SATURATION_SPREAD_MIN
  }

  function Near(a: int, b: int): bool {
    -TOL <= a - b <= TOL
  }

  predicate TooClose(s: Swatch, t: Swatch) {
    Near(s.r, t.r) && Near(s.g, t.g) && Near(s.b, t.b)
  }

  function Populated(clusters: seq<Cluster>): seq<Swatch> {
    if clusters == [] then []
    else
      var last := clusters[|clusters| - 1];
      Populated(clusters[..|clusters| - 1])
      + if last.count > 0 then [Swatch(Round(last.color.r), Round(last.color.g), Round(last.color.b), last.count)] else []
  }

  function Only(swatches: seq<Swatch>, mono: bool): seq<Swatch> {
    if swatches == [] then []
    else
      var last := swatches[|swatches| - 1];
      Only(swatches[..|swatches| - 1], mono) + if Monochrome(last) == mono then [last] else []
  }

  // ---------------------------------------------------------------- what counts as grey, close and populated

  /** Channels are rounded to the nearest integer, halves up. */
  lemma RoundsToNearest(x: real)
    ensures x - 0.5 < Round(x) as real <= x + 0.5
  {
  }

  /** For channels of a byte a colour is monochrome exactly when its channels lie less than 30 apart: near white and
      near black are cases of that. */
  lemma MonochromeExactly(s: Swatch)
    requires 0 <= s.r <= 255 && 0 <= s.g <= 255 && 0 <= s.b <= 255
    ensures Monochrome(s) <==> -30 < s.r - s.g < 30 && -30 < s.g - s.b < 30 && -30 < s.r - s.b < 30
  {
  }

  /** The tolerance is 8 units in every channel, whatever the sizes. */
  lemma ToleranceIsEight(s: Swatch, d: int, e: int, f: int, count: nat)
    ensures TooClose(s, Swatch(s.r + d, s.g + e, s.b + f, count)) <==> -8 <= d <= 8 && -8 <= e <= 8 && -8 <= f <= 8
    ensures forall t: Swatch :: TooClose(s, t) == TooClose(t, s)
  {
  }

  /** The rounded colour and the size of a cluster. */
  ghost predicate Rounds(s: Swatch, c: Cluster) {
    && s.count == c.count
    && c.color.r - 0.5 < s.r as real <= c.color.r + 0.5
    && c.color.g - 0.5 < s.g as real <= c.color.g + 0.5
    && c.color.b - 0.5 < s.b as real <= c.color.b + 0.5
  }

  ghost predicate NonEmptyAt(clusters: seq<Cluster>, at: seq<nat>) {
    && Increasing(at, |clusters|)
    && (forall k :: 0 <= k < |clusters| ==> (k in at <==> clusters[k].count > 0))
  }

  ghost predicate RoundedAt(swatches: seq<Swatch>, clusters: seq<Cluster>, at: seq<nat>) {
    && |swatches| == |at|
    && (forall i :: 0 <= i < |at| ==> at[i] < |clusters| && Rounds(swatches[i], clusters[at[i]]))
  }

  lemma NonEmptyMore(clusters: seq<Cluster>, at: seq<nat>, n: nat)
    requires n + 1 == |clusters| && NonEmptyAt(clusters[..n], at)
    ensures NonEmptyAt(clusters, Extended(at, n, clusters[n].count > 0))
  {
    ExtendedIncreases(at, n, clusters[n].count > 0);
    hide Increasing;
  }

  lemma RoundedMore(swatches: seq<Swatch>, clusters: seq<Cluster>, at: seq<nat>, n: nat, populated: bool)
    requires n + 1 == |clusters| && RoundedAt(swatches, clusters[..n], at)
    ensures var c := clusters[n];
      RoundedAt(swatches + if populated then [Swatch(Round(c.color.r), Round(c.color.g), Round(c.color.b), c.count)] else [],
                clusters, Extended(at, n, populated))
  {
    var c := clusters[n];
    assert Rounds(Swatch(Round(c.color.r), Round(c.color.g), Round(c.color.b), c.count), c);
    hide Rounds, Round;
  }

  /** The clusters with pixels, and no others, are rounded, in order. */
  lemma {:induction false} PopulatedRead(clusters: seq<Cluster>) returns (at: seq<nat>)
    ensures NonEmptyAt(clusters, at) && RoundedAt(Populated(clusters), clusters, at)
  {
    hide NonEmptyAt, RoundedAt, Round;
    if clusters == [] {
      at := [];
      NothingPopulated();
    } else {
      var n := |clusters| - 1;
      at := PopulatedRead(clusters[..n]);
      NonEmptyMore(clusters, at, n);
      RoundedMore(Populated(clusters[..n]), clusters, at, n, clusters[n].count > 0);
      at := Extended(at, n, clusters[n].count > 0);
    }
  }

  lemma NothingPopulated()
    ensures NonEmptyAt([], []) && RoundedAt(Populated([]), [], [])
  {
  }

  ghost predicate KindAt(swatches: seq<Swatch>, mono: bool, at: seq<nat>) {
    && Increasing(at, |swatches|)
    && (forall k :: 0 <= k < |swatches| ==> (k in at <==> (Monochrome(swatches[k]) <==> mono)))
  }

  ghost predicate SwatchesAt(swatches: seq<Swatch>, only: seq<Swatch>, at: seq<nat>) {
    && |only| == |at|
    && (forall i :: 0 <= i < |at| ==> at[i] < |swatches| && only[i] == swatches[at[i]])
  }

  /** The swatches of one kind, and no others, in order. */
  lemma {:induction false} OnlyRead(swatches: seq<Swatch>, mono: bool) returns (at: seq<nat>)
    ensures KindAt(swatches, mono, at) && SwatchesAt(swatches, Only(swatches, mono), at)
  {
    hide Monochrome, KindAt, SwatchesAt;
    if swatches == [] {
      at := [];
      NoKind(mono);
    } else {
      var n := |swatches| - 1;
      at := OnlyRead(swatches[..n], mono);
      KindMore(swatches, mono, at, n);
      SwatchesMore(swatches, Only(swatches[..n], mono), at, n, Monochrome(swatches[n]) == mono);
      at := Extended(at, n, Monochrome(swatches[n]) == mono);
    }
  }

  lemma NoKind(mono: bool)
    ensures KindAt([], mono, []) && SwatchesAt([], Only([], mono), [])
  {
  }

  lemma KindMore(swatches: seq<Swatch>, mono: bool, at: seq<nat>, n: nat)
    requires n + 1 == |swatches| && KindAt(swatches[..n], mono, at)
    ensures KindAt(swatches, mono, Extended(at, n, Monochrome(swatches[n]) == mono))
  {
    hide Monochrome;
    ExtendedIncreases(at, n, Monochrome(swatches[n]) == mono);
    hide Increasing;
  }

  lemma SwatchesMore(swatches: seq<Swatch>, only: seq<Swatch>, at: seq<nat>, n: nat, picked: bool)
    requires n + 1 == |swatches| && SwatchesAt(swatches[..n], only, at)
    ensures SwatchesAt(swatches, only + if picked then [swatches[n]] else [], Extended(at, n, picked))
  {
  }

  // ---------------------------------------------------------------- sorting by size

  function Insert(s: Swatch, sorted: seq<Swatch>): seq<Swatch> {
    if sorted == [] then [s]
    else if s.count <= sorted[|sorted| - 1].count then sorted + [s]
    else Insert(s, sorted[..|sorted| - 1]) + [sorted[|sorted| - 1]]
  }

  /** Stable, largest first. */
  function BySize(swatches: seq<Swatch>): seq<Swatch> {
    if swatches == [] then [] else Insert(swatches[|swatches| - 1], BySize(swatches[..|swatches| - 1]))
  }

  ghost predicate LargestFirst(s: seq<Swatch>) {
    forall i, j :: 0 <= i < j < |s| ==> s[i].count >= s[j].count
  }

  /** The swatches of one size, in order. */
  function OfSize(s: seq<Swatch>, count: nat): seq<Swatch> {
    if s == [] then []
    else OfSize(s[..|s| - 1], count) + if s[|s| - 1].count == count then [s[|s| - 1]] else []
  }

  lemma OfSizeAppend(front: seq<Swatch>, last: Swatch, count: nat)
    ensures OfSize(front + [last], count) == OfSize(front, count) + if last.count == count then [last] else []
  {
    assert (front + [last])[..|front|] == front;
  }

  lemma {:induction false} InsertSorts(s: Swatch, sorted: seq<Swatch>)
    requires LargestFirst(sorted)
    ensures LargestFirst(Insert(s, sorted))
    ensures |Insert(s, sorted)| == |sorted| + 1
    ensures forall k :: 0 <= k <= |sorted| ==>
      Insert(s, sorted)[k].count >= if sorted == [] || s.count <= sorted[|sorted| - 1].count then s.count else sorted[|sorted| - 1].count
  {
    if sorted != [] && s.count > sorted[|sorted| - 1].count {
      var front := sorted[..|sorted| - 1];
      InsertSorts(s, front);
      assert forall k :: 0 <= k <= |front| ==> Insert(s, front)[k].count >= sorted[|sorted| - 1].count;
    }
  }

  lemma InsertUnfold(s: Swatch, front: seq<Swatch>, last: Swatch)
    ensures Insert(s, front + [last]) == if s.count <= last.count then front + [last] + [s] else Insert(s, front) + [last]
    ensures Insert(s, []) == [s]
  {
    assert (front + [last])[..|front|] == front;
  }

  lemma {:induction false} InsertIsStable(s: Swatch, sorted: seq<Swatch>, count: nat)
    ensures OfSize(Insert(s, sorted), count) == OfSize(sorted, count) + if s.count == count then [s] else []
  {
    hide Insert, OfSize;
    if sorted == [] {
      InsertUnfold(s, [], s);
      OfSizeAppend([], s, count);
      assert [s] == [] + [s];
    } else {
      var front, last := sorted[..|sorted| - 1], sorted[|sorted| - 1];
      assert sorted == front + [last];
      InsertUnfold(s, front, last);
      OfSizeAppend(front, last, count);
      if s.count <= last.count {
        OfSizeAppend(sorted, s, count);
      } else {
        InsertIsStable(s, front, count);
        OfSizeAppend(Insert(s, front), last, count);
      }
    }
  }

  /** Sorting puts larger clusters first and keeps clusters of one size in their order, so it loses none. */
  lemma {:induction false} BySizeSortsStably(s: seq<Swatch>, count: nat)
    ensures LargestFirst(BySize(s))
    ensures OfSize(BySize(s), count) == OfSize(s, count)
  {
    if s != [] {
      var front := s[..|s| - 1];
      BySizeSortsStably(front, count);
      InsertSorts(s[|s| - 1], BySize(front));
      InsertIsStable(s[|s| - 1], BySize(front), count);
    }
  }

  // ---------------------------------------------------------------- candidates

  function Take(s: seq<Swatch>, n: nat): seq<Swatch> {
    if n >= |s| then s else s[..n]
  }

  function Saturated(clusters: seq<Cluster>): seq<Swatch> {
    BySize(Only(Populated(clusters), false))
  }

  function Greys(clusters: seq<Cluster>): seq<Swatch> {
    BySize(Only(Populated(clusters), true))
  }

  /** Saturated clusters; monochrome ones follow only when there are fewer than two. */
  function Candidates(clusters: seq<Cluster>): seq<Swatch> {
    var saturated := Saturated(clusters);
    if |saturated| >= 2 then Take(saturated, MAX_OUT_COLORS) else Take(saturated + Greys(clusters), MAX_OUT_COLORS)
  }

  predicate CloseToSome(seen: seq<Swatch>, s: Swatch) {
    exists k :: 0 <= k < |seen| && TooClose(seen[k], s)
  }

  /** Each candidate unless an earlier kept one is close. */
  function Dedupe(candidates: seq<Swatch>): seq<Swatch> {
    if candidates == [] then []
    else
      var n := |candidates| - 1;
      var seen := Dedupe(candidates[..n]);
      if CloseToSome(seen, candidates[n]) then seen else seen + [candidates[n]]
  }

  function Palette(clusters: seq<Cluster>): seq<Swatch> {
    Dedupe(Candidates(clusters))
  }

  method PushUpTo(ordered: seq<Swatch>, more: seq<Swatch>) returns (longer: seq<Swatch>)
    requires |ordered| < MAX_OUT_COLORS
    ensures longer == Take(ordered + more, MAX_OUT_COLORS)
  {
    longer := ordered;
    for k := 0 to |more|
      invariant longer == ordered + more[..k] && |longer| < MAX_OUT_COLORS
    {
      longer := longer + [more[k]];
      if |longer| >= MAX_OUT_COLORS {
        return;
      }
    }
  }

  lemma NoClusters()
    ensures BySize([]) == [] && Dedupe([]) == []
  {
  }

  method RankAndFilterClusters(clusters: seq<Cluster>) returns (out: seq<Swatch>)
    ensures out == Palette(clusters)
  {
    hide BySize, Dedupe, Populated;
    NoClusters();
    var populated := Populated(clusters);
    if |populated| == 0 {
      return [];
    }
    var saturated := BySize(Only(populated, false));
    var monochrome := BySize(Only(populated, true));
    var ordered := PushUpTo([], saturated);
    assert [] + saturated == saturated;
    if |ordered| < 2 {
      ordered := PushUpTo(ordered, monochrome);
    }
    assert ordered == Candidates(clusters);
    out := KeepApart(ordered);
  }

  method KeepApart(ordered: seq<Swatch>) returns (out: seq<Swatch>)
    requires |ordered| <= MAX_OUT_COLORS
    ensures out == Dedupe(ordered)
  {
    out := [];
    for k := 0 to |ordered|
      invariant out == Dedupe(ordered[..k]) && |out| <= k
    {
      assert ordered[..k + 1][..k] == ordered[..k];
      if CloseToSome(out, ordered[k]) {
        continue;
      }
      out := out + [ordered[k]];
      if |out| >= MAX_OUT_COLORS {
        assert ordered[..k + 1] == ordered;
        return;
      }
    }
    assert ordered[..|ordered|] == ordered;
  }

  // ---------------------------------------------------------------- what comes out

  ghost predicate Apart(s: seq<Swatch>) {
    forall i, j :: 0 <= i < j < |s| ==> !TooClose(s[i], s[j])
  }

  /** The kept colours stand at increasing positions, lie pairwise apart, and every candidate is kept or
      close to a kept one before it. */
  ghost predicate Represents(kept: seq<Swatch>, candidates: seq<Swatch>, at: seq<nat>) {
    && |at| == |kept| && Increasing(at, |candidates|)
    && (forall k :: 0 <= k < |at| ==> at[k] < |candidates| && kept[k] == candidates[at[k]])
    && (forall c :: 0 <= c < |candidates| ==>
      c in at || exists k :: 0 <= k < |at| && at[k] < c && TooClose(kept[k], candidates[c]))
  }

  lemma RepresentsDropped(kept: seq<Swatch>, front: seq<Swatch>, at: seq<nat>, last: Swatch)
    requires Represents(kept, front, at) && CloseToSome(kept, last)
    ensures Represents(kept, front + [last], at)
  {
    hide TooClose;
    var longer := front + [last];
    forall c | 0 <= c < |longer|
      ensures c in at || exists k :: 0 <= k < |at| && at[k] < c && TooClose(kept[k], longer[c])
    {
      if c == |front| {
        var k :| 0 <= k < |kept| && TooClose(kept[k], last);
        assert at[k] < c;
      } else {
        assert longer[c] == front[c];
      }
    }
  }

  lemma RepresentsKept(kept: seq<Swatch>, front: seq<Swatch>, at: seq<nat>, last: Swatch)
    requires Represents(kept, front, at)
    ensures Represents(kept + [last], front + [last], at + [|front|])
  {
    hide TooClose;
    var kept', longer, at' := kept + [last], front + [last], at + [|front|];
    forall c | 0 <= c < |longer|
      ensures c in at' || exists k :: 0 <= k < |at'| && at'[k] < c && TooClose(kept'[k], longer[c])
    {
      if c == |front| {
        assert at'[|at|] == c;
      } else if c in at {
        assert c in at';
      } else {
        var k :| 0 <= k < |at| && at[k] < c && TooClose(kept[k], front[c]);
        assert at'[k] == at[k] && kept'[k] == kept[k] && longer[c] == front[c];
      }
    }
  }

  lemma {:induction false} DedupeRepresents(candidates: seq<Swatch>) returns (at: seq<nat>)
    ensures Represents(Dedupe(candidates), candidates, at)
  {
    if candidates == [] {
      at := [];
    } else {
      var n := |candidates| - 1;
      at := DedupeRepresents(candidates[..n]);
      var seen := Dedupe(candidates[..n]);
      assert candidates == candidates[..n] + [candidates[n]];
      hide Represents, CloseToSome;
      if CloseToSome(seen, candidates[n]) {
        RepresentsDropped(seen, candidates[..n], at, candidates[n]);
      } else {
        RepresentsKept(seen, candidates[..n], at, candidates[n]);
        at := at + [n];
      }
    }
  }

  /** No two palette colours are close. */
  lemma {:induction false} DedupeIsApart(candidates: seq<Swatch>)
    ensures Apart(Dedupe(candidates))
  {
    hide TooClose;
    if candidates != [] {
      DedupeIsApart(candidates[..|candidates| - 1]);
    }
  }

  /** Two colours come out exactly when some candidate is not close to the first one. */
  lemma TwoColoursExactly(clusters: seq<Cluster>)
    ensures |Palette(clusters)| >= 2 <==>
      exists c :: 0 < c < |Candidates(clusters)| && !TooClose(Candidates(clusters)[0], Candidates(clusters)[c])
  {
    var candidates, kept := Candidates(clusters), Palette(clusters);
    var at := DedupeRepresents(candidates);
    DedupeIsApart(candidates);
    assert candidates == [] ==> kept == [];
    hide Candidates, Dedupe, TooClose;
    if candidates != [] {
      FirstIsKept(kept, candidates, at);
      if |kept| >= 2 {
        assert at[0] < at[1];
        assert !TooClose(kept[0], kept[1]);
      } else {
        forall c | 0 < c < |candidates|
          ensures TooClose(candidates[0], candidates[c])
        {
          assert c !in at;
        }
      }
    }
  }

  lemma FirstIsKept(kept: seq<Swatch>, candidates: seq<Swatch>, at: seq<nat>)
    requires Represents(kept, candidates, at) && candidates != []
    ensures kept != [] && at[0] == 0 && kept[0] == candidates[0]
  {
    assert 0 in at;
    var k :| 0 <= k < |at| && at[k] == 0;
  }

  /** Some colour comes out exactly when some cluster has pixels; the first one is a largest saturated colour, or a
      largest grey when there is no saturated one. */
  lemma FirstColour(clusters: seq<Cluster>)
    ensures Palette(clusters) != [] <==> Populated(clusters) != []
    ensures Palette(clusters) != [] ==>
      var first := Palette(clusters)[0];
      && first in Populated(clusters)
      && (forall s :: s in Populated(clusters) && Monochrome(s) == Monochrome(first) ==> s.count <= first.count)
      && (Monochrome(first) ==> forall s :: s in Populated(clusters) ==> Monochrome(s))
  {
    hide Populated, Monochrome, Dedupe, BySize, Only;
    var populated := Populated(clusters);
    var saturated, greys, candidates := Saturated(clusters), Greys(clusters), Candidates(clusters);
    OneKindSorted(populated, false);
    OneKindSorted(populated, true);
    assert candidates == [] <==> saturated == [] && greys == [];
    if candidates == [] {
      NoClusters();
    } else {
      var at := DedupeRepresents(candidates);
      FirstIsKept(Dedupe(candidates), candidates, at);
      assert saturated == [] ==> saturated + greys == greys;
      assert candidates[0] == if saturated != [] then saturated[0] else greys[0];
    }
    assert forall s :: s in populated ==> s in saturated || s in greys;
    if populated != [] {
      assert populated[0] in populated;
    }
    assert forall s :: s in saturated || s in greys ==> s in populated;
    if candidates != [] {
      assert candidates[0] in saturated || candidates[0] in greys;
      assert candidates[0] in populated;
    }
  }

  /** What is sorted are the swatches of one kind, the largest first. */
  lemma OneKindSorted(swatches: seq<Swatch>, mono: bool)
    ensures var sorted := BySize(Only(swatches, mono));
      && (forall s :: s in sorted <==> s in swatches && Monochrome(s) == mono)
      && (forall i :: 0 <= i < |sorted| ==> sorted[i].count <= sorted[0].count)
  {
    hide Monochrome, BySize, Only;
    OnlyHas(swatches, mono);
    BySizeSortsStably(Only(swatches, mono), 0);
    forall s
      ensures s in BySize(Only(swatches, mono)) <==> s in Only(swatches, mono)
    {
      BySizeSortsStably(Only(swatches, mono), s.count);
      OfSizeHas(Only(swatches, mono), s);
      OfSizeHas(BySize(Only(swatches, mono)), s);
    }
  }

  lemma {:induction false} OnlyHas(swatches: seq<Swatch>, mono: bool)
    ensures forall s :: s in Only(swatches, mono) <==> s in swatches && Monochrome(s) == mono
  {
    hide Monochrome;
    if swatches != [] {
      OnlyHas(swatches[..|swatches| - 1], mono);
      assert swatches == swatches[..|swatches| - 1] + [swatches[|swatches| - 1]];
    }
  }

  lemma {:induction false} OfSizeHas(swatches: seq<Swatch>, s: Swatch)
    ensures s in OfSize(swatches, s.count) <==> s in swatches
  {
    if swatches != [] {
      OfSizeHas(swatches[..|swatches| - 1], s);
      assert swatches == swatches[..|swatches| - 1] + [swatches[|swatches| - 1]];
    }
  }

  // ---------------------------------------------------------------- colours that are lost

  /** Among the first n of these swatches some is not close to s. */
  ghost predicate SomeApart(s: Swatch, others: seq<Swatch>, n: int) {
    exists k :: 0 <= k < |others| && k < n && !TooClose(s, others[k])
  }

  /** Two colours come out exactly in these cases: two or more saturated clusters, one of them apart from the
      largest; a single saturated cluster and a grey apart from it; or only greys, one apart from the largest.
      Greys play no part beside two saturated clusters, however close those are to each other. */
  lemma TwoColoursFromClusters(clusters: seq<Cluster>)
    ensures |Palette(clusters)| >= 2 <==>
      var saturated, greys := Saturated(clusters), Greys(clusters);
      if |saturated| >= 2 then SomeApart(saturated[0], saturated[1..], 4)
      else if |saturated| == 1 then SomeApart(saturated[0], greys, 4)
      else greys != [] && SomeApart(greys[0], greys[1..], 4)
  {
    TwoColoursExactly(clusters);
    var saturated, greys, candidates := Saturated(clusters), Greys(clusters), Candidates(clusters);
    hide Saturated, Greys, TooClose, Palette;
    if |saturated| >= 2 {
      CandidatesApart(saturated);
    } else if |saturated| == 1 {
      assert saturated == [saturated[0]] && (saturated + greys)[1..] == greys;
      CandidatesApart(saturated + greys);
    } else {
      assert saturated + greys == greys;
      if greys != [] {
        CandidatesApart(greys);
      }
    }
  }

  lemma CandidatesApart(s: seq<Swatch>)
    requires s != []
    ensures var candidates := Take(s, MAX_OUT_COLORS);
      candidates != [] && candidates[0] == s[0]
      && ((exists c :: 0 < c < |candidates| && !TooClose(candidates[0], candidates[c])) <==> SomeApart(s[0], s[1..], MAX_OUT_COLORS - 1))
  {
    hide TooClose;
    var candidates := Take(s, MAX_OUT_COLORS);
    if c :| 0 < c < |candidates| && !TooClose(candidates[0], candidates[c]) {
      assert s[1..][c - 1] == candidates[c];
    }
    if k :| 0 <= k < |s[1..]| && k < MAX_OUT_COLORS - 1 && !TooClose(s[0], s[1..][k]) {
      assert candidates[k + 1] == s[1..][k];
    }
  }

  /** Two populated clusters have clearly different colours. */
  ghost predicate DifferentColours(clusters: seq<Cluster>) {
    var swatches := Populated(clusters);
    exists i, j :: 0 <= i < j < |swatches| && !TooClose(swatches[i], swatches[j])
  }

  const RED := Cluster(Color(200.0, 0.0, 0.0), 3)

  const ALMOST_RED := Cluster(Color(204.0, 0.0, 0.0), 2)

  const WHITE := Cluster(Color(255.0, 255.0, 255.0), 1)

  const RED_SWATCH := Swatch(200, 0, 0, 3)

  const ALMOST_RED_SWATCH := Swatch(204, 0, 0, 2)

  const WHITE_SWATCH := Swatch(255, 255, 255, 1)

  lemma Kinds()
    ensures !Monochrome(RED_SWATCH) && !Monochrome(ALMOST_RED_SWATCH) && Monochrome(WHITE_SWATCH)
    ensures TooClose(RED_SWATCH, ALMOST_RED_SWATCH) && !TooClose(RED_SWATCH, WHITE_SWATCH)
  {
  }

  lemma PopulatedReds()
    ensures Populated([RED, WHITE]) == [RED_SWATCH, WHITE_SWATCH]
    ensures Populated([RED, ALMOST_RED, WHITE]) == [RED_SWATCH, ALMOST_RED_SWATCH, WHITE_SWATCH]
  {
    assert [RED, WHITE][..1] == [RED] && [RED][..0] == [];
    assert [RED, ALMOST_RED, WHITE][..2] == [RED, ALMOST_RED] && [RED, ALMOST_RED][..1] == [RED];
    assert Populated([RED]) == [RED_SWATCH];
    assert Populated([RED, ALMOST_RED]) == [RED_SWATCH] + [ALMOST_RED_SWATCH];
  }

  lemma OnlyOne(s: Swatch, mono: bool)
    ensures Only([s], mono) == if Monochrome(s) == mono then [s] else []
    ensures BySize([s]) == [s] && Dedupe([s]) == [s]
  {
    assert [s][..0] == [];
  }

  lemma OnlyPush(front: seq<Swatch>, last: Swatch, mono: bool)
    ensures Only(front + [last], mono) == Only(front, mono) + if Monochrome(last) == mono then [last] else []
  {
    assert (front + [last])[..|front|] == front;
  }

  lemma RedAndWhite()
    ensures Palette([RED, WHITE]) == [RED_SWATCH, WHITE_SWATCH]
  {
    PopulatedReds();
    Kinds();
    OnlyOne(RED_SWATCH, false);
    OnlyOne(RED_SWATCH, true);
    OnlyOne(WHITE_SWATCH, true);
    OnlyPush([RED_SWATCH], WHITE_SWATCH, false);
    OnlyPush([RED_SWATCH], WHITE_SWATCH, true);
    assert [RED_SWATCH] + [WHITE_SWATCH] == [RED_SWATCH, WHITE_SWATCH];
    hide Populated, Only, Monochrome, TooClose, BySize;
    assert Candidates([RED, WHITE]) == [RED_SWATCH, WHITE_SWATCH];
    assert [RED_SWATCH, WHITE_SWATCH][..1] == [RED_SWATCH];
    assert !CloseToSome([RED_SWATCH], WHITE_SWATCH);
  }

  lemma TwoRedsAndWhite()
    ensures Palette([RED, ALMOST_RED, WHITE]) == [RED_SWATCH]
  {
    PopulatedReds();
    Kinds();
    var reds := [RED_SWATCH, ALMOST_RED_SWATCH];
    OnlyOne(RED_SWATCH, false);
    OnlyPush([RED_SWATCH], ALMOST_RED_SWATCH, false);
    OnlyPush(reds, WHITE_SWATCH, false);
    assert [RED_SWATCH] + [ALMOST_RED_SWATCH] == reds;
    assert reds + [WHITE_SWATCH] == [RED_SWATCH, ALMOST_RED_SWATCH, WHITE_SWATCH];
    assert reds[..1] == [RED_SWATCH];
    hide Populated, Only, Monochrome, TooClose;
    assert BySize(reds) == reds;
    assert reds + [] == reds;
    assert Only(Populated([RED, ALMOST_RED, WHITE]), false) == reds;
    assert Saturated([RED, ALMOST_RED, WHITE]) == reds;
    assert Candidates([RED, ALMOST_RED, WHITE]) == reds;
    assert TooClose([RED_SWATCH][0], ALMOST_RED_SWATCH);
    assert CloseToSome([RED_SWATCH], ALMOST_RED_SWATCH);
  }

  /** Red and white give two colours; with a second, almost equal red beside them only one comes out, and
      the white, which is as different as before, is lost. */
  lemma DistinctColourLost()
    ensures Palette([RED, WHITE]) == [RED_SWATCH, WHITE_SWATCH]
    ensures DifferentColours([RED, ALMOST_RED, WHITE])
    ensures Palette([RED, ALMOST_RED, WHITE]) == [RED_SWATCH]
  {
    hide Palette, TooClose, Populated, Monochrome;
    Kinds();
    PopulatedReds();
    RedAndWhite();
    TwoRedsAndWhite();
    var swatches := Populated([RED, ALMOST_RED, WHITE]);
    assert !TooClose(swatches[0], swatches[2]);
  }
}

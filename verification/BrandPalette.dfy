/** The colour clustering of src/extraction/brand-palette.ts over the reals: seeding, and Lloyd
    iterations that tally pixels into accumulators and move each centroid to its cluster's mean. */
module BrandPalette {
  import opened Positions

  datatype Color = Color(r: real, g: real, b: real)

  /** A running total of one cluster. */
  datatype Tally = Tally(rSum: real, gSum: real, bSum: real, count: nat)

  const ZERO: Tally := Tally(0.0, 0.0, 0.0, 0)
  const MAX_ITERS: nat := 10

  function Square(x: real): real { x * x }

  function SqDist(a: Color, b: Color): real {
    Square(a.r - b.r) + Square(a.g - b.g) + Square(a.b - b.b)
  }

  /** The first index, among the first n, at the least distance. */
  function Nearest(c: Color, cs: seq<Color>, n: nat): (k: nat)
    requires 1 <= n <= |cs|
    ensures k < n
  {
    if n == 1 then 0
    else
      var k := Nearest(c, cs, n - 1);
      if SqDist(c, cs[n - 1]) < SqDist(c, cs[k]) then n - 1 else k
  }

  lemma {:induction false} NearestIsNearest(c: Color, cs: seq<Color>, n: nat, i: nat)
    requires 1 <= n <= |cs| && i < n
    ensures SqDist(c, cs[Nearest(c, cs, n)]) <= SqDist(c, cs[i])
    ensures i < Nearest(c, cs, n) ==> SqDist(c, cs[Nearest(c, cs, n)]) < SqDist(c, cs[i])
  {
    hide SqDist;
    if n > 1 {
      NearestIsNearest(c, cs, n - 1, if i < n - 1 then i else 0);
      NearestIsNearest(c, cs, n - 1, Nearest(c, cs, n - 1));
    }
  }

  function Add(t: Tally, c: Color): Tally {
    Tally(t.rSum + c.r, t.gSum + c.g, t.bSum + c.b, t.count + 1)
  }

  function Assigned(c: Color, cs: seq<Color>): nat
    requires cs != []
  {
    Nearest(c, cs, |cs|)
  }

  /** The total of the first n pixels that are nearest to centroid i. */
  function TallyOf(px: seq<Color>, cs: seq<Color>, i: nat, n: nat): Tally
    requires cs != [] && n <= |px|
  {
    if n == 0 then ZERO
    else
      var t := TallyOf(px, cs, i, n - 1);
      if Assigned(px[n - 1], cs) == i then Add(t, px[n - 1]) else t
  }

  /** The sum over the first n pixels of the squared distance to the nearest centroid. */
  function Cost(px: seq<Color>, cs: seq<Color>, n: nat): real
    requires cs != [] && n <= |px|
  {
    if n == 0 then 0.0 else Cost(px, cs, n - 1) + SqDist(px[n - 1], cs[Assigned(px[n - 1], cs)])
  }

  /** The same with pixels kept in the clusters of `cs` but measured to the centres `to`. */
  ghost function CostTo(px: seq<Color>, cs: seq<Color>, to: seq<Color>, n: nat): real
    requires cs != [] && |to| == |cs| && n <= |px|
  {
    if n == 0 then 0.0 else CostTo(px, cs, to, n - 1) + SqDist(px[n - 1], to[Assigned(px[n - 1], cs)])
  }

  /** What the pixels of cluster i cost when their centre is x. */
  ghost function ClusterCost(px: seq<Color>, cs: seq<Color>, i: nat, x: Color, n: nat): real
    requires cs != [] && n <= |px|
  {
    if n == 0 then 0.0
    else ClusterCost(px, cs, i, x, n - 1) + if Assigned(px[n - 1], cs) == i then SqDist(px[n - 1], x) else 0.0
  }

  // ---------------------------------------------------------------- the mean is best

  lemma SquareGrows(q: real, s: real, count: real, p: real, x: real)
    ensures (q - 2.0 * x * s + count * Square(x)) + Square(p - x)
            == (q + Square(p)) - 2.0 * x * (s + p) + (count + 1.0) * Square(x)
  {
  }

  const ORIGIN: Color := Color(0.0, 0.0, 0.0)

  ghost function Spread(t: Tally, x: Color): real {
    (t.count as real * Square(x.r) - 2.0 * x.r * t.rSum)
    + (t.count as real * Square(x.g) - 2.0 * x.g * t.gSum)
    + (t.count as real * Square(x.b) - 2.0 * x.b * t.bSum)
  }

  lemma SpreadGrows(t: Tally, c: Color, x: Color)
    ensures Spread(Add(t, c), x) + SqDist(c, ORIGIN) == Spread(t, x) + SqDist(c, x)
  {
    var n := t.count as real;
    SquareGrows(0.0, t.rSum, n, c.r, x.r);
    SquareGrows(0.0, t.gSum, n, c.g, x.g);
    SquareGrows(0.0, t.bSum, n, c.b, x.b);
    assert (t.count + 1) as real == n + 1.0;
    hide Square;
  }

  /** The cost of a cluster as a quadratic in its centre. */
  lemma {:induction false} ClusterCostForm(px: seq<Color>, cs: seq<Color>, i: nat, x: Color, n: nat)
    requires cs != [] && n <= |px|
    ensures ClusterCost(px, cs, i, x, n) == ClusterCost(px, cs, i, ORIGIN, n) + Spread(TallyOf(px, cs, i, n), x)
  {
    hide SqDist;
    if n == 0 {
      SpreadOfZero(x);
    } else {
      ClusterCostForm(px, cs, i, x, n - 1);
      SpreadGrows(TallyOf(px, cs, i, n - 1), px[n - 1], x);
      hide Spread, Assigned;
    }
  }

  lemma SpreadOfZero(x: Color)
    ensures Spread(ZERO, x) == 0.0
  {
  }

  function Mean(t: Tally): Color
    requires t.count > 0
  {
    var n := t.count as real;
    Color(t.rSum / n, t.gSum / n, t.bSum / n)
  }

  /** In one channel, n*y^2 - 2*y*s is least at y = s/n. */
  lemma MeanIsBest(n: real, s: real, y: real)
    requires n > 0.0
    ensures n * Square(s / n) - 2.0 * (s / n) * s <= n * Square(y) - 2.0 * y * s
  {
    var m := s / n;
    assert s == n * m;
    var d := y - m;
    assert n * Square(y) - 2.0 * y * s == n * Square(m) - 2.0 * m * s + n * Square(d);
    assert Square(d) >= 0.0;
    assert n * Square(d) >= 0.0;
  }

  lemma SpreadLeast(t: Tally, x: Color)
    requires t.count > 0
    ensures Spread(t, Mean(t)) <= Spread(t, x)
  {
    hide Square;
    MeanIsBest(t.count as real, t.rSum, x.r);
    MeanIsBest(t.count as real, t.gSum, x.g);
    MeanIsBest(t.count as real, t.bSum, x.b);
  }

  lemma MeanLowersClusterCost(px: seq<Color>, cs: seq<Color>, i: nat, x: Color, n: nat)
    requires cs != [] && n <= |px| && TallyOf(px, cs, i, n).count > 0
    ensures ClusterCost(px, cs, i, Mean(TallyOf(px, cs, i, n)), n) <= ClusterCost(px, cs, i, x, n)
  {
    hide Spread, ClusterCost, TallyOf, Mean;
    ClusterCostForm(px, cs, i, x, n);
    ClusterCostForm(px, cs, i, Mean(TallyOf(px, cs, i, n)), n);
    SpreadLeast(TallyOf(px, cs, i, n), x);
  }

  /** Replacing one centre changes the cost by the change of that cluster. */
  lemma {:induction false} ReplaceCentre(px: seq<Color>, cs: seq<Color>, to: seq<Color>, i: nat, x: Color, n: nat)
    requires cs != [] && |to| == |cs| && i < |cs| && n <= |px|
    ensures CostTo(px, cs, to[i := x], n)
            == CostTo(px, cs, to, n) - ClusterCost(px, cs, i, to[i], n) + ClusterCost(px, cs, i, x, n)
  {
    hide SqDist;
    if n > 0 {
      ReplaceCentre(px, cs, to, i, x, n - 1);
    }
  }

  lemma {:induction false} CostToOwn(px: seq<Color>, cs: seq<Color>, n: nat)
    requires cs != [] && n <= |px|
    ensures CostTo(px, cs, cs, n) == Cost(px, cs, n)
  {
    if n > 0 {
      CostToOwn(px, cs, n - 1);
    }
  }

  /** Reassigning every pixel to its nearest new centre does not raise the cost. */
  lemma {:induction false} ReassignLowers(px: seq<Color>, cs: seq<Color>, to: seq<Color>, n: nat)
    requires cs != [] && |to| == |cs| && n <= |px|
    ensures Cost(px, to, n) <= CostTo(px, cs, to, n)
  {
    hide SqDist;
    if n > 0 {
      ReassignLowers(px, cs, to, n - 1);
      NearestIsNearest(px[n - 1], to, |to|, Assigned(px[n - 1], cs));
    }
  }

  // ---------------------------------------------------------------- one iteration

  /** `to` is `cs` after one update: means for non-empty clusters, empty ones unchanged. */
  ghost predicate Updated(px: seq<Color>, cs: seq<Color>, to: seq<Color>, upto: nat)
    requires cs != []
  {
    && |to| == |cs| && upto <= |cs|
    && forall i :: 0 <= i < |cs| ==>
         var t := TallyOf(px, cs, i, |px|);
         to[i] == if i < upto && t.count > 0 then Mean(t) else cs[i]
  }

  /** One Lloyd iteration never raises the cost. */
  lemma {:induction false} UpdateLowers(px: seq<Color>, cs: seq<Color>, to: seq<Color>, upto: nat)
    requires cs != [] && Updated(px, cs, to, upto)
    ensures CostTo(px, cs, to, |px|) <= Cost(px, cs, |px|)
    decreases upto
  {
    hide Cost, CostTo, ClusterCost, Mean;
    if upto == 0 {
      assert to == cs;
      CostToOwn(px, cs, |px|);
    } else {
      var i := upto - 1;
      var before := to[i := cs[i]];
      assert Updated(px, cs, before, i);
      UpdateLowers(px, cs, before, i);
      assert to == before[i := to[i]];
      ReplaceCentre(px, cs, before, i, to[i], |px|);
      if TallyOf(px, cs, i, |px|).count > 0 {
        MeanLowersClusterCost(px, cs, i, cs[i], |px|);
      }
    }
  }

  lemma IterationLowersCost(px: seq<Color>, cs: seq<Color>, to: seq<Color>)
    requires cs != [] && Updated(px, cs, to, |cs|)
    ensures Cost(px, to, |px|) <= Cost(px, cs, |px|)
  {
    UpdateLowers(px, cs, to, |cs|);
    ReassignLowers(px, cs, to, |px|);
  }

  // ---------------------------------------------------------------- ranges and counts

  ghost predicate Channel(x: real) { 0.0 <= x <= 255.0 }

  ghost predicate InRange(c: Color) { Channel(c.r) && Channel(c.g) && Channel(c.b) }

  ghost predicate AllInRange(cs: seq<Color>) {
    forall i :: 0 <= i < |cs| ==> InRange(cs[i])
  }

  ghost predicate SumInRange(t: Tally) {
    var n := t.count as real;
    0.0 <= t.rSum <= 255.0 * n && 0.0 <= t.gSum <= 255.0 * n && 0.0 <= t.bSum <= 255.0 * n
  }

  lemma {:induction false} TallyInRange(px: seq<Color>, cs: seq<Color>, i: nat, n: nat)
    requires cs != [] && n <= |px| && AllInRange(px)
    ensures SumInRange(TallyOf(px, cs, i, n))
  {
    if n > 0 {
      TallyInRange(px, cs, i, n - 1);
      assert InRange(px[n - 1]);
    }
  }

  lemma NegativeProduct(x: real, n: real)
    requires x < 0.0 && n > 0.0
    ensures x * n < 0.0
  {
  }

  lemma QuotientInRange(s: real, n: real)
    requires n > 0.0 && 0.0 <= s <= 255.0 * n
    ensures Channel(s / n)
  {
    var q := s / n;
    assert s == q * n;
    if q < 0.0 {
      NegativeProduct(q, n);
    }
    if q > 255.0 {
      NegativeProduct(255.0 - q, n);
    }
  }

  lemma MeanInRange(t: Tally)
    requires t.count > 0 && SumInRange(t)
    ensures InRange(Mean(t))
  {
    QuotientInRange(t.rSum, t.count as real);
    QuotientInRange(t.gSum, t.count as real);
    QuotientInRange(t.bSum, t.count as real);
    hide Channel;
  }

  /** Means of pixels stay inside the channel range. */
  lemma UpdateInRange(px: seq<Color>, cs: seq<Color>, to: seq<Color>)
    requires cs != [] && AllInRange(px) && AllInRange(cs) && Updated(px, cs, to, |cs|)
    ensures AllInRange(to)
  {
    forall i: nat | i < |to|
      ensures InRange(to[i])
    {
      TallyInRange(px, cs, i, |px|);
      var t := TallyOf(px, cs, i, |px|);
      if t.count > 0 {
        MeanInRange(t);
      }
      hide TallyOf, Mean, InRange, SumInRange;
    }
  }

  /** How many of the first n pixels are nearest to one of the first k centroids. */
  function CountBelow(px: seq<Color>, cs: seq<Color>, k: nat, n: nat): nat
    requires cs != [] && n <= |px|
  {
    if k == 0 then 0 else CountBelow(px, cs, k - 1, n) + TallyOf(px, cs, k - 1, n).count
  }

  lemma {:induction false} OneMorePixel(px: seq<Color>, cs: seq<Color>, k: nat, n: nat)
    requires cs != [] && 0 < n <= |px|
    ensures CountBelow(px, cs, k, n) == CountBelow(px, cs, k, n - 1) + if Assigned(px[n - 1], cs) < k then 1 else 0
  {
    hide Assigned;
    if k > 0 {
      OneMorePixel(px, cs, k - 1, n);
    }
  }

  lemma {:induction false} NoPixels(px: seq<Color>, cs: seq<Color>, k: nat)
    requires cs != []
    ensures CountBelow(px, cs, k, 0) == 0
  {
    if k > 0 {
      NoPixels(px, cs, k - 1);
    }
  }

  /** The cluster counts always total the pixels. */
  lemma {:induction false} CountsTotalPixels(px: seq<Color>, cs: seq<Color>, n: nat)
    requires cs != [] && n <= |px|
    ensures CountBelow(px, cs, |cs|, n) == n
  {
    if n == 0 {
      NoPixels(px, cs, |cs|);
    } else {
      CountsTotalPixels(px, cs, n - 1);
      OneMorePixel(px, cs, |cs|, n);
    }
  }

  // ---------------------------------------------------------------- the program

  /** One byte of raw image data. */
  type Byte = x: int | 0 <= x <= 255

  /** Pixel p of the packed RGB bytes. */
  function PixelAt(bytes: seq<Byte>, p: nat): Color
    requires 3 * p + 2 < |bytes|
  {
    Color(bytes[3 * p] as real, bytes[3 * p + 1] as real, bytes[3 * p + 2] as real)
  }

  function Pixels(bytes: seq<Byte>, n: nat): (px: seq<Color>)
    requires 3 * n <= |bytes|
    ensures |px| == n
    ensures forall p :: 0 <= p < n ==> px[p] == PixelAt(bytes, p)
    ensures AllInRange(px)
  {
    if n == 0 then [] else Pixels(bytes, n - 1) + [PixelAt(bytes, n - 1)]
  }

  /** The channels of the pixels one after the other: red, green, blue. */
  function Channels(px: seq<Color>): seq<real> {
    if px == [] then [] else Channels(px[..|px| - 1]) + [px[|px| - 1].r, px[|px| - 1].g, px[|px| - 1].b]
  }

  /** The pixels hold every byte of the image, once and in its place. */
  lemma {:induction false} PixelsHoldBytes(bytes: seq<Byte>, n: nat)
    requires 3 * n <= |bytes|
    ensures |Channels(Pixels(bytes, n))| == 3 * n
    ensures forall i :: 0 <= i < 3 * n ==> Channels(Pixels(bytes, n))[i] == bytes[i] as real
  {
    hide Pixels, Channels;
    NoChannels();
    if n > 0 {
      PixelsHoldBytes(bytes, n - 1);
      OnePixelMore(bytes, n - 1);
      ThreeMore(bytes, Channels(Pixels(bytes, n - 1)), n - 1);
    } else {
      assert Pixels(bytes, n) == [];
    }
  }

  lemma NoChannels()
    ensures Channels([]) == []
  {
  }

  lemma OnePixelMore(bytes: seq<Byte>, n: nat)
    requires 3 * n + 3 <= |bytes|
    ensures var c := PixelAt(bytes, n); Channels(Pixels(bytes, n + 1)) == Channels(Pixels(bytes, n)) + [c.r, c.g, c.b]
  {
    assert Pixels(bytes, n + 1)[..n] == Pixels(bytes, n);
  }

  lemma ThreeMore(bytes: seq<Byte>, channels: seq<real>, n: nat)
    requires 3 * n + 3 <= |bytes| && |channels| == 3 * n && forall i :: 0 <= i < 3 * n ==> channels[i] == bytes[i] as real
    ensures var c := PixelAt(bytes, n); var more := channels + [c.r, c.g, c.b];
      |more| == 3 * n + 3 && forall i :: 0 <= i < 3 * n + 3 ==> more[i] == bytes[i] as real
  {
  }

  /** The distance adds up over the channels, each alike; so it vanishes between equal colours only. */
  lemma DistanceByChannel(a: Color, b: Color, x: real)
    ensures SqDist(a, b) == SqDist(Color(a.r, 0.0, 0.0), Color(b.r, 0.0, 0.0))
      + SqDist(Color(0.0, a.g, 0.0), Color(0.0, b.g, 0.0)) + SqDist(Color(0.0, 0.0, a.b), Color(0.0, 0.0, b.b))
    ensures SqDist(Color(x, 0.0, 0.0), ORIGIN) == SqDist(Color(0.0, x, 0.0), ORIGIN) == SqDist(Color(0.0, 0.0, x), ORIGIN)
    ensures SqDist(Color(x, 0.0, 0.0), ORIGIN) == x * x
    ensures SqDist(a, b) == SqDist(b, a) >= 0.0 && (SqDist(a, b) == 0.0 <==> a == b)
  {
    SquareLaws(a.r - b.r);
    SquareLaws(a.g - b.g);
    SquareLaws(a.b - b.b);
    SquareLaws(0.0);
    assert x - 0.0 == x && 0.0 - 0.0 == 0.0;
    hide Square;
    assert b.r - a.r == -(a.r - b.r) && b.g - a.g == -(a.g - b.g) && b.b - a.b == -(a.b - b.b);
  }

  lemma SquareLaws(x: real)
    ensures Square(x) == Square(-x) && Square(x) >= 0.0 && (Square(x) == 0.0 <==> x == 0.0)
  {
    NegatedSquare(x);
    PositiveSquare(x);
    PositiveSquare(-x);
    assert Square(0.0) == 0.0;
    hide Square;
  }

  lemma NegatedSquare(x: real)
    ensures Square(x) == Square(-x)
  {
  }

  lemma PositiveSquare(x: real)
    ensures x > 0.0 ==> Square(x) > 0.0
  {
    if x > 0.0 {
      PositiveProduct(Square(x), x, x);
    }
  }

  lemma PositiveProduct(s: real, p: real, q: real)
    requires p > 0.0 && q > 0.0 && s == p * q
    ensures s > 0.0
  {
  }

  // ---------------------------------------------------------------- seeds

  /** Every 4k-th part of the image, at least every pixel. */
  ghost predicate IsStride(totalPx: nat, k: nat, stride: nat)
    requires k >= 1
  {
    stride >= 1 && (stride == 1 || 4 * k * stride <= totalPx) && 4 * k * (stride + 1) > totalPx
  }

  /** The strided pixels whose colour no earlier strided pixel has. */
  ghost function NewColours(bytes: seq<Byte>, stride: nat): set<nat>
    requires stride >= 1
  {
    set p | 0 <= p < |bytes| / 3 && p % stride == 0
      && forall q :: 0 <= q < p && q % stride == 0 ==> PixelAt(bytes, q) != PixelAt(bytes, p)
  }

  /** The first seeds are the first k new colours along the stride, in order; random pixels fill up the rest. */
  ghost predicate Seeded(bytes: seq<Byte>, k: nat, random: nat -> nat, seeds: seq<Color>, stride: nat, at: seq<nat>)
    requires stride >= 1 && forall i :: random(i) < |bytes| / 3
  {
    && |seeds| == k && |at| <= k
    && FirstOf(at, NewColours(bytes, stride), k, |bytes| / 3)
    && (forall i :: 0 <= i < |at| ==> at[i] < |bytes| / 3 && seeds[i] == PixelAt(bytes, at[i]))
    && (forall i :: |at| <= i < k ==> seeds[i] == PixelAt(bytes, random(i)))
  }

  ghost predicate SeededFrom(bytes: seq<Byte>, k: nat, random: nat -> nat, seeds: seq<Color>)
    requires k >= 1 && forall i :: random(i) < |bytes| / 3
  {
    exists stride: nat, at ::
      stride >= 1 && IsStride(|bytes| / 3, k, stride) && Seeded(bytes, k, random, seeds, stride, at)
  }

  lemma NextOnStride(i: nat, stride: nat)
    requires stride >= 1 && i % stride == 0
    ensures (i + stride) % stride == 0
    ensures forall q :: i < q < i + stride ==> q % stride != 0
  {
    var m := i / stride;
    assert i == stride * m;
    forall q | i < q < i + stride
      ensures q % stride != 0
    {
      if q % stride == 0 {
        Between(q / stride, m, stride);
      }
    }
    assert i + stride == stride * (m + 1);
    MultipleHasNoRest(m + 1, stride);
  }

  lemma Between(d: nat, m: nat, stride: nat)
    requires stride >= 1
    ensures !(stride * m < stride * d < stride * m + stride)
  {
    if d <= m {
      MultiplesGrow(stride, d, m);
    } else {
      MultiplesGrow(stride, m + 1, d);
      assert stride * (m + 1) == stride * m + stride;
    }
  }

  lemma MultiplesGrow(stride: nat, d: nat, m: nat)
    requires d <= m
    ensures stride * d <= stride * m
  {
  }

  lemma MultipleHasNoRest(m: nat, stride: nat)
    requires stride >= 1
    ensures stride * m % stride == 0
  {
    var r, d := stride * m % stride, stride * m / stride;
    assert stride * m == stride * d + r;
    if r > 0 {
      Between(m, d, stride);
    }
  }

  ghost predicate AllPixels(cs: seq<Color>, px: seq<Color>) {
    forall i :: 0 <= i < |cs| ==> cs[i] in px
  }

  ghost predicate DistinctUpTo(cs: seq<Color>, n: nat) {
    n <= |cs| && forall i, j :: 0 <= i < j < n ==> cs[i] != cs[j]
  }

  /** The positions taken so far are those of the new colours below i. */
  ghost predicate SeedsSoFar(bytes: seq<Byte>, stride: nat, seeds: seq<Color>, at: seq<nat>, i: nat)
    requires stride >= 1
  {
    && Increasing(at, |bytes| / 3) && |at| == |seeds|
    && (forall p :: p in at <==> p in NewColours(bytes, stride) && p < i)
    && (forall j :: 0 <= j < |at| ==> at[j] < |bytes| / 3 && seeds[j] == PixelAt(bytes, at[j]))
  }

  lemma NoSeeds(bytes: seq<Byte>, stride: nat)
    requires stride >= 1
    ensures SeedsSoFar(bytes, stride, [], [], 0)
  {
  }

  /** A strided pixel has a new colour exactly when no seed has that colour. */
  lemma NewExactly(bytes: seq<Byte>, stride: nat, seeds: seq<Color>, at: seq<nat>, i: nat)
    requires stride >= 1 && i < |bytes| / 3 && i % stride == 0 && SeedsSoFar(bytes, stride, seeds, at, i)
    ensures i in NewColours(bytes, stride) <==> PixelAt(bytes, i) !in seeds
  {
    if PixelAt(bytes, i) in seeds {
      var j :| 0 <= j < |seeds| && seeds[j] == PixelAt(bytes, i);
      assert at[j] in at;
    } else {
      forall q | 0 <= q < i && q % stride == 0
        ensures PixelAt(bytes, q) != PixelAt(bytes, i)
      {
        var first := FirstOfColour(bytes, stride, q);
        assert first in at;
      }
    }
  }

  lemma {:induction false} FirstOfColour(bytes: seq<Byte>, stride: nat, q: nat) returns (first: nat)
    requires stride >= 1 && q < |bytes| / 3 && q % stride == 0
    ensures first <= q && first in NewColours(bytes, stride) && PixelAt(bytes, first) == PixelAt(bytes, q)
  {
    if q in NewColours(bytes, stride) {
      first := q;
    } else {
      var earlier :| 0 <= earlier < q && earlier % stride == 0 && PixelAt(bytes, earlier) == PixelAt(bytes, q);
      first := FirstOfColour(bytes, stride, earlier);
    }
  }

  lemma SeedTaken(bytes: seq<Byte>, stride: nat, seeds: seq<Color>, at: seq<nat>, i: nat, taken: bool)
    requires stride >= 1 && i < |bytes| / 3 && i % stride == 0 && SeedsSoFar(bytes, stride, seeds, at, i)
    requires taken <==> i in NewColours(bytes, stride)
    ensures SeedsSoFar(bytes, stride, seeds + if taken then [PixelAt(bytes, i)] else [], Extended(at, i, taken), i + stride)
  {
    NextOnStride(i, stride);
    forall p | p in NewColours(bytes, stride) && i < p
      ensures p >= i + stride
    {
    }
    TakenBelow(bytes, stride, at, i);
    ExtendedIncreases(at, i, taken);
    hide Increasing, NewColours;
    WithinImage(at, i, taken, |bytes| / 3);
  }

  lemma TakenBelow(bytes: seq<Byte>, stride: nat, at: seq<nat>, i: nat)
    requires stride >= 1 && Increasing(at, |bytes| / 3) && forall p :: p in at ==> p < i
    ensures Increasing(at, i)
  {
    forall j | 0 <= j < |at|
      ensures at[j] < i
    {
      assert at[j] in at;
    }
  }

  lemma WithinImage(at: seq<nat>, i: nat, taken: bool, size: nat)
    requires i < size && Increasing(Extended(at, i, taken), i + 1)
    ensures Increasing(Extended(at, i, taken), size)
  {
  }

  lemma SeedsComplete(bytes: seq<Byte>, stride: nat, seeds: seq<Color>, at: seq<nat>, i: nat, k: nat)
    requires stride >= 1 && SeedsSoFar(bytes, stride, seeds, at, i) && |seeds| <= k
    requires i < |bytes| / 3 ==> |seeds| == k
    ensures FirstOf(at, NewColours(bytes, stride), k, |bytes| / 3)
  {
    forall j | 0 <= j < |at|
      ensures at[j] in NewColours(bytes, stride)
    {
      assert at[j] in at;
    }
    forall p | p in NewColours(bytes, stride) && p < ReadUpTo(at, k, |bytes| / 3)
      ensures p in at
    {
      if |at| == k && at != [] {
        assert at[|at| - 1] in at;
      }
    }
  }

  function StrideOf(totalPx: nat, k: nat): nat
    requires k >= 1
  {
    if totalPx / (k * 4) > 1 then totalPx / (k * 4) else 1
  }

  lemma StrideIs(totalPx: nat, k: nat)
    requires k >= 1
    ensures IsStride(totalPx, k, StrideOf(totalPx, k))
  {
    var q, r := totalPx / (k * 4), totalPx % (k * 4);
    assert totalPx == (k * 4) * q + r && 0 <= r < k * 4;
    assert 4 * k * (q + 1) == (k * 4) * q + k * 4;
    if q == 0 {
      assert 4 * k * 2 == k * 8;
    }
  }

  /** Evenly strided distinct colours, padded by random pixels when the image has too few; `random`
      stands for the draws, already reduced to a pixel index. */
  method PickSeeds(bytes: seq<Byte>, k: nat, random: nat -> nat) returns (seeds: seq<Color>)
    requires |bytes| > 0 && |bytes| % 3 == 0 && k >= 1
    requires forall i :: random(i) < |bytes| / 3
    ensures SeededFrom(bytes, k, random, seeds)
    ensures |seeds| == k && AllPixels(seeds, Pixels(bytes, |bytes| / 3))
  {
    hide NewColours, SeedsSoFar, FirstOf, IsStride, StrideOf, AllPixels, Pixels;
    var totalPx := |bytes| / 3;
    seeds := [];
    ghost var at: seq<nat> := [];
    var seen: set<Color> := {};
    var stride := StrideOf(totalPx, k);
    StrideIs(totalPx, k);
    AtLeastOne(totalPx, k);
    NoSeeds(bytes, stride);
    var i := 0;
    while i < totalPx && |seeds| < k
      invariant 0 <= i && i % stride == 0 && |seeds| <= k
      invariant forall c :: c in seen <==> c in seeds
      invariant SeedsSoFar(bytes, stride, seeds, at, i)
      decreases totalPx - i
    {
      var c := PixelAt(bytes, i);
      NewExactly(bytes, stride, seeds, at, i);
      SeedTaken(bytes, stride, seeds, at, i, c !in seen);
      NextOnStride(i, stride);
      at := Extended(at, i, c !in seen);
      i := i + stride;
      if c in seen {
        assert seeds + [] == seeds;
        continue;
      }
      seen := seen + {c};
      seeds := seeds + [c];
    }
    SeedsComplete(bytes, stride, seeds, at, i, k);
    SeedsRead(bytes, stride, seeds, at, i);
    while |seeds| < k
      invariant |at| <= |seeds| <= k
      invariant forall j :: 0 <= j < |at| ==> at[j] < totalPx && seeds[j] == PixelAt(bytes, at[j])
      invariant forall j :: |at| <= j < |seeds| ==> seeds[j] == PixelAt(bytes, random(j))
    {
      var idx := random(|seeds|);
      seeds := seeds + [PixelAt(bytes, idx)];
    }
    assert Seeded(bytes, k, random, seeds, stride, at);
    SeedsArePixels(bytes, k, random, seeds, stride, at);
  }

  lemma AtLeastOne(totalPx: nat, k: nat)
    requires k >= 1
    ensures StrideOf(totalPx, k) >= 1
  {
  }

  lemma SeedsRead(bytes: seq<Byte>, stride: nat, seeds: seq<Color>, at: seq<nat>, i: nat)
    requires stride >= 1 && SeedsSoFar(bytes, stride, seeds, at, i)
    ensures |at| == |seeds| && forall j :: 0 <= j < |at| ==> at[j] < |bytes| / 3 && seeds[j] == PixelAt(bytes, at[j])
  {
  }

  lemma FirstPixelIsNew(bytes: seq<Byte>, stride: nat, at: seq<nat>, k: nat)
    requires |bytes| >= 3 && k >= 1 && stride >= 1 && FirstOf(at, NewColours(bytes, stride), k, |bytes| / 3)
    ensures at != [] && at[0] == 0
  {
    assert 0 in NewColours(bytes, stride);
    hide NewColours;
    assert 0 in at;
    var first :| 0 <= first < |at| && at[first] == 0;
    assert first == 0;
  }

  lemma StridedDiffer(bytes: seq<Byte>, stride: nat, at: seq<nat>, k: nat, i: nat, j: nat)
    requires stride >= 1 && FirstOf(at, NewColours(bytes, stride), k, |bytes| / 3) && i < j < |at|
    ensures PixelAt(bytes, at[i]) != PixelAt(bytes, at[j])
  {
    assert at[i] in NewColours(bytes, stride) && at[j] in NewColours(bytes, stride);
  }

  /** So the seeds are pixels of the image, the strided ones pairwise different, the first of them pixel 0. */
  lemma SeedsArePixels(bytes: seq<Byte>, k: nat, random: nat -> nat, seeds: seq<Color>, stride: nat, at: seq<nat>)
    requires |bytes| > 0 && |bytes| % 3 == 0 && k >= 1 && stride >= 1 && forall i :: random(i) < |bytes| / 3
    requires Seeded(bytes, k, random, seeds, stride, at)
    ensures AllPixels(seeds, Pixels(bytes, |bytes| / 3)) && DistinctUpTo(seeds, |at|)
    ensures at != [] && seeds[0] == PixelAt(bytes, 0)
  {
    hide NewColours, FirstOf;
    var px := Pixels(bytes, |bytes| / 3);
    hide Pixels;
    FirstPixelIsNew(bytes, stride, at, k);
    forall i | 0 <= i < k
      ensures seeds[i] in px
    {
      assert px[if i < |at| then at[i] else random(i)] == seeds[i];
    }
    forall i, j | 0 <= i < j < |at|
      ensures seeds[i] != seeds[j]
    {
      StridedDiffer(bytes, stride, at, k, i, j);
    }
  }

  /** The inner scan: strictly smaller distances win, so the first nearest centroid is kept. */
  method FindNearest(c: Color, centroids: array<Color>) returns (bestIdx: nat)
    requires centroids.Length > 0
    ensures bestIdx == Assigned(c, centroids[..])
  {
    hide SqDist;
    bestIdx := 0;
    var bestDist := SqDist(c, centroids[0]);
    for i := 1 to centroids.Length
      invariant bestIdx == Nearest(c, centroids[..], i)
      invariant bestDist == SqDist(c, centroids[bestIdx])
    {
      var d := SqDist(c, centroids[i]);
      if d < bestDist {
        bestDist := d;
        bestIdx := i;
      }
    }
  }

  /** Accumulators hold the tallies of the first n pixels. */
  ghost predicate Tallied(acc: seq<Tally>, px: seq<Color>, cs: seq<Color>, n: nat) {
    && cs != [] && |acc| == |cs| && n <= |px|
    && forall i: nat :: i < |acc| ==> acc[i] == TallyOf(px, cs, i, n)
  }

  lemma TallyOne(acc: seq<Tally>, px: seq<Color>, cs: seq<Color>, n: nat)
    requires Tallied(acc, px, cs, n) && n < |px|
    ensures var k := Assigned(px[n], cs);
      k < |acc| && Tallied(acc[k := Add(acc[k], px[n])], px, cs, n + 1)
  {
    hide Assigned;
    var k := Assigned(px[n], cs);
    AssignedInRange(px[n], cs);
    forall i: nat | i < |acc|
      ensures TallyOf(px, cs, i, n + 1) == if i == k then Add(TallyOf(px, cs, i, n), px[n]) else TallyOf(px, cs, i, n)
    {
    }
  }

  lemma AssignedInRange(c: Color, cs: seq<Color>)
    requires cs != []
    ensures Assigned(c, cs) < |cs|
  {
  }

  method AssignPixels(bytes: seq<Byte>, centroids: array<Color>, acc: array<Tally>)
    requires |bytes| % 3 == 0
    requires centroids.Length > 0 && acc.Length == centroids.Length && acc as object != centroids as object
    modifies acc
    ensures Tallied(acc[..], Pixels(bytes, |bytes| / 3), centroids[..], |bytes| / 3)
  {
    var totalPx := |bytes| / 3;
    ghost var px, cs := Pixels(bytes, totalPx), centroids[..];
    for i := 0 to acc.Length
      invariant forall j :: 0 <= j < i ==> acc[j] == ZERO
      invariant centroids[..] == cs
    {
      acc[i] := ZERO;
    }
    assert Tallied(acc[..], px, cs, 0);
    hide Tallied, Assigned, Add;
    for p := 0 to totalPx
      invariant Tallied(acc[..], px, cs, p)
      invariant centroids[..] == cs
    {
      var c := PixelAt(bytes, p);
      assert px[p] == c;
      var bestIdx := FindNearest(c, centroids);
      TallyOne(acc[..], px, cs, p);
      ghost var before := acc[..];
      acc[bestIdx] := Add(acc[bestIdx], c);
      assert acc[..] == before[bestIdx := Add(before[bestIdx], c)];
    }
  }

  function Abs(x: real): real { if x < 0.0 then -x else x }

  /** Some channel shifted by more than one unit. */
  predicate Moved(a: Color, b: Color) {
    Abs(a.r - b.r) > 1.0 || Abs(a.g - b.g) > 1.0 || Abs(a.b - b.b) > 1.0
  }

  /** No channel is off by more than one unit, either way. */
  ghost predicate Still(a: Color, b: Color) {
    && b.r - 1.0 <= a.r <= b.r + 1.0 && b.g - 1.0 <= a.g <= b.g + 1.0 && b.b - 1.0 <= a.b <= b.b + 1.0
  }

  lemma StillExactly(a: Color, b: Color)
    ensures Still(a, b) <==> !Moved(a, b)
  {
  }

  method UpdateCentroids(centroids: array<Color>, acc: array<Tally>, ghost px: seq<Color>) returns (moved: bool)
    requires centroids.Length > 0 && acc.Length == centroids.Length && acc as object != centroids as object
    requires Tallied(acc[..], px, centroids[..], |px|)
    modifies centroids
    ensures Updated(px, old(centroids[..]), centroids[..], centroids.Length)
    ensures moved <==> exists i :: 0 <= i < centroids.Length && Moved(centroids[i], old(centroids[i]))
  {
    ghost var cs := centroids[..];
    moved := false;
    hide TallyOf, Mean, Moved;
    for i := 0 to centroids.Length
      invariant Updated(px, cs, centroids[..], i)
      invariant acc[..] == old(acc[..])
      invariant moved <==> exists j :: 0 <= j < i && Moved(centroids[j], cs[j])
    {
      assert acc[..][i] == TallyOf(px, cs, i, |px|);
      assert centroids[..][i] == cs[i];
      NotMoved(cs[i]);
      if acc[i].count > 0 {
        var next := Mean(acc[i]);
        if Moved(next, centroids[i]) {
          moved := true;
        }
        centroids[i] := next;
      }
    }
  }

  lemma NotMoved(c: Color)
    ensures !Moved(c, c)
  {
  }

  datatype Cluster = Cluster(color: Color, count: nat)

  /** The result is one update of some centroids that cost no more than the seeds, with the tallies of
      that update as counts. */
  ghost predicate Clustering(px: seq<Color>, seeds: seq<Color>, previous: seq<Color>, result: seq<Cluster>) {
    && seeds != [] && |previous| == |seeds| == |result|
    && Cost(px, previous, |px|) <= Cost(px, seeds, |px|)
    && AllInRange(previous)
    && Updated(px, previous, ColorsOf(result), |previous|)
    && forall i: nat :: i < |result| ==> result[i].count == TallyOf(px, previous, i, |px|).count
  }

  function ColorsOf(cs: seq<Cluster>): (colors: seq<Color>)
    ensures |colors| == |cs| && forall i :: 0 <= i < |cs| ==> colors[i] == cs[i].color
  {
    if cs == [] then [] else [cs[0].color] + ColorsOf(cs[1..])
  }

  function CountSum(cs: seq<Cluster>, n: nat): nat
    requires n <= |cs|
  {
    if n == 0 then 0 else CountSum(cs, n - 1) + cs[n - 1].count
  }

  lemma {:induction false} CountSumIs(px: seq<Color>, previous: seq<Color>, result: seq<Cluster>, n: nat)
    requires previous != [] && |result| == |previous| && n <= |result|
    requires forall i: nat :: i < |result| ==> result[i].count == TallyOf(px, previous, i, |px|).count
    ensures CountSum(result, n) == CountBelow(px, previous, n, |px|)
  {
    if n > 0 {
      CountSumIs(px, previous, result, n - 1);
    }
  }

  /** What a clustering guarantees: never worse than the seeds, every pixel counted once, channels in range. */
  lemma ClusteringIsGood(px: seq<Color>, seeds: seq<Color>, previous: seq<Color>, result: seq<Cluster>)
    requires AllInRange(px) && Clustering(px, seeds, previous, result)
    ensures Cost(px, ColorsOf(result), |px|) <= Cost(px, seeds, |px|)
    ensures CountSum(result, |result|) == |px|
    ensures AllInRange(ColorsOf(result))
  {
    hide Cost, Updated, TallyOf, AllInRange;
    IterationLowersCost(px, previous, ColorsOf(result));
    CountSumIs(px, previous, result, |result|);
    CountsTotalPixels(px, previous, |px|);
    UpdateInRange(px, previous, ColorsOf(result));
  }

  /** The centroids never cost more than the seeds and stay in range. */
  ghost predicate Improved(px: seq<Color>, seeds: seq<Color>, cs: seq<Color>) {
    && seeds != [] && |cs| == |seeds|
    && Cost(px, cs, |px|) <= Cost(px, seeds, |px|)
    && AllInRange(cs)
  }

  /** The centroids are one update of `previous`, whose tallies are in the accumulators. */
  ghost predicate Stepped(px: seq<Color>, seeds: seq<Color>, previous: seq<Color>, cs: seq<Color>, acc: seq<Tally>) {
    Improved(px, seeds, previous) && Updated(px, previous, cs, |previous|) && Tallied(acc, px, previous, |px|)
  }

  method Iterate(bytes: seq<Byte>, centroids: array<Color>, acc: array<Tally>, ghost px: seq<Color>, ghost seeds: seq<Color>)
    returns (moved: bool, ghost previous: seq<Color>)
    requires |bytes| % 3 == 0 && px == Pixels(bytes, |bytes| / 3)
    requires acc.Length == centroids.Length && acc as object != centroids as object
    requires Improved(px, seeds, centroids[..])
    modifies centroids, acc
    ensures Stepped(px, seeds, previous, centroids[..], acc[..]) && Improved(px, seeds, centroids[..])
    ensures moved <==> exists i :: 0 <= i < |previous| == centroids.Length && Moved(centroids[i], previous[i])
  {
    hide Cost, TallyOf, Tallied, Updated, AllInRange, Mean, Moved;
    AssignPixels(bytes, centroids, acc);
    previous := centroids[..];
    moved := UpdateCentroids(centroids, acc, px);
    IterationLowersCost(px, previous, centroids[..]);
    UpdateInRange(px, previous, centroids[..]);
    SameLength(px, previous, centroids[..]);
  }

  lemma SameLength(px: seq<Color>, cs: seq<Color>, to: seq<Color>)
    requires cs != [] && Updated(px, cs, to, |cs|)
    ensures |to| == |cs|
  {
  }

  /** Iterates until nothing moves by more than a unit, at most MAX_ITERS times and at least once. */
  method Refine(bytes: seq<Byte>, centroids: array<Color>, acc: array<Tally>, ghost px: seq<Color>, ghost seeds: seq<Color>)
    returns (ghost previous: seq<Color>, iterations: nat)
    requires |bytes| % 3 == 0 && px == Pixels(bytes, |bytes| / 3)
    requires acc.Length == centroids.Length && acc as object != centroids as object
    requires Improved(px, seeds, centroids[..])
    modifies centroids, acc
    ensures Stepped(px, seeds, previous, centroids[..], acc[..]) && Improved(px, seeds, centroids[..])
    ensures iterations < MAX_ITERS ==>
              |previous| == centroids.Length && forall i :: 0 <= i < centroids.Length ==> !Moved(centroids[i], previous[i])
  {
    hide Stepped, Improved, Moved, Pixels;
    previous := seeds;
    var iter := 0;
    var moved := true;
    while iter < MAX_ITERS && moved
      invariant 0 <= iter <= MAX_ITERS
      invariant iter == 0 ==> moved
      invariant Improved(px, seeds, centroids[..])
      invariant iter > 0 ==> Stepped(px, seeds, previous, centroids[..], acc[..])
      invariant !moved ==> |previous| == centroids.Length && forall i :: 0 <= i < centroids.Length ==> !Moved(centroids[i], previous[i])
    {
      moved, previous := Iterate(bytes, centroids, acc, px, seeds);
      SteppedLength(px, seeds, previous, centroids[..], acc[..]);
      iter := iter + 1;
    }
    iterations := iter;
  }

  method KMeans(bytes: seq<Byte>, k: nat, random: nat -> nat)
    returns (result: seq<Cluster>, ghost seeds: seq<Color>, ghost previous: seq<Color>, ghost iterations: nat)
    requires |bytes| % 3 == 0 && k >= 1
    requires |bytes| > 0 ==> forall i :: random(i) < |bytes| / 3
    ensures |bytes| == 0 ==> result == []
    ensures |bytes| > 0 ==>
              var px := Pixels(bytes, |bytes| / 3);
              && |result| == k && AllPixels(seeds, px) && Clustering(px, seeds, previous, result)
              && Cost(px, ColorsOf(result), |px|) <= Cost(px, seeds, |px|)
              && CountSum(result, k) == |px|
              && AllInRange(ColorsOf(result))
    // it stops after MAX_ITERS updates, or earlier at one that moved no channel by more than one unit
    ensures |bytes| > 0 && iterations < MAX_ITERS ==>
              |previous| == k == |result| && forall i :: 0 <= i < k ==> Still(result[i].color, previous[i])
    ensures |bytes| > 0 ==> SeededFrom(bytes, k, random, seeds)
  {
    hide SeededFrom, AllPixels, Still;
    seeds, previous, iterations := [], [], 0;
    var totalPx := |bytes| / 3;
    if totalPx == 0 {
      return [], [], [], 0;
    }
    ghost var px := Pixels(bytes, totalPx);
    var picked := PickSeeds(bytes, k, random);
    seeds := picked;
    PixelsInRange(picked, px);
    var centroids := new Color[k](i requires 0 <= i < k => picked[i]);
    var acc := new Tally[k](_ => ZERO);
    assert centroids[..] == picked;
    hide Stepped, Improved, Moved, Cost, AllInRange, Updated, TallyOf, Clustering, CountSum, Pixels;
    StartImproved(px, picked);
    previous, iterations := Refine(bytes, centroids, acc, px, picked);
    SteppedTallied(px, seeds, previous, centroids[..], acc[..]);
    result := ToClusters(centroids[..], acc[..], px, previous);
    assert ColorsOf(result) == centroids[..];
    Finish(px, seeds, previous, result, acc[..]);
    forall i | 0 <= i < k && iterations < MAX_ITERS
      ensures Still(result[i].color, previous[i])
    {
      StillExactly(result[i].color, previous[i]);
    }
  }

  lemma StartImproved(px: seq<Color>, seeds: seq<Color>)
    requires seeds != [] && AllInRange(seeds)
    ensures Improved(px, seeds, seeds)
  {
  }

  lemma SteppedLength(px: seq<Color>, seeds: seq<Color>, previous: seq<Color>, cs: seq<Color>, acc: seq<Tally>)
    requires Stepped(px, seeds, previous, cs, acc)
    ensures |previous| == |cs|
  {
  }

  lemma SteppedTallied(px: seq<Color>, seeds: seq<Color>, previous: seq<Color>, cs: seq<Color>, acc: seq<Tally>)
    requires Stepped(px, seeds, previous, cs, acc)
    ensures Tallied(acc, px, previous, |px|)
  {
  }

  lemma Finish(px: seq<Color>, seeds: seq<Color>, previous: seq<Color>, result: seq<Cluster>, acc: seq<Tally>)
    requires AllInRange(px) && Stepped(px, seeds, previous, ColorsOf(result), acc)
    requires forall i: nat :: i < |result| ==> result[i].count == TallyOf(px, previous, i, |px|).count
    ensures Clustering(px, seeds, previous, result)
    ensures Cost(px, ColorsOf(result), |px|) <= Cost(px, seeds, |px|)
    ensures CountSum(result, |result|) == |px|
    ensures AllInRange(ColorsOf(result))
  {
    hide Cost, TallyOf, AllInRange, Tallied;
    SteppedLength(px, seeds, previous, ColorsOf(result), acc);
    ClusteringIsGood(px, seeds, previous, result);
  }

  lemma PixelsInRange(cs: seq<Color>, px: seq<Color>)
    requires AllPixels(cs, px) && AllInRange(px)
    ensures AllInRange(cs)
  {
  }

  method ToClusters(centroids: seq<Color>, acc: seq<Tally>, ghost px: seq<Color>, ghost previous: seq<Color>) returns (result: seq<Cluster>)
    requires |acc| == |centroids| && Tallied(acc, px, previous, |px|)
    ensures |result| == |centroids|
    ensures forall i :: 0 <= i < |result| ==> result[i] == Cluster(centroids[i], acc[i].count)
    ensures forall i: nat :: i < |result| ==> result[i].count == TallyOf(px, previous, i, |px|).count
  {
    hide TallyOf;
    result := [];
    for i := 0 to |centroids|
      invariant |result| == i
      invariant forall j :: 0 <= j < i ==> result[j] == Cluster(centroids[j], acc[j].count)
    {
      result := result + [Cluster(centroids[i], acc[i].count)];
    }
  }
}

/** The greedy cuts of material/quantizer/wu.go: how good a cut is, what a set of boxes keeps from one cut
    to the next, and the colours read from it. Scores are exact quotients. */
module WuCuts {
  import opened Wrappers
  import opened Rounding
  import opened WuMoments
  import opened WuBoxes
  import opened WuHistogram

  datatype Box = Box(span: Region, vol: int)

  function Boxed(x: Region): Box {
    Box(x, CellCount(x))
  }

  datatype Rgb = Rgb(red: int, green: int, blue: int)

  /** A half's share of a cut's score. */
  function Energy(r: int, g: int, b: int, w: int): real
    requires w != 0
  {
    (r * r + g * g + b * b) as real / w as real
  }

  function Populated(pixels: seq<Pixel>, x: Region): bool {
    Total(pixels, Weight, x) != 0
  }

  function EnergyIn(pixels: seq<Pixel>, x: Region): real
    requires Populated(pixels, x)
  {
    Energy(Total(pixels, Red, x), Total(pixels, Green, x), Total(pixels, Blue, x), Total(pixels, Weight, x))
  }

  /** The squared distance of a region's pixels to their mean. */
  function VarianceIn(pixels: seq<Pixel>, x: Region): real
    requires Populated(pixels, x)
  {
    Total(pixels, Square, x) as real - EnergyIn(pixels, x)
  }

  /** What a cut scores; a cut that leaves a half without pixels is none. */
  function Score(pixels: seq<Pixel>, x: Region, dir: Direction, at: int): Option<real> {
    if Populated(pixels, Lower(x, dir, at)) && Populated(pixels, Upper(x, dir, at)) then
      Some(EnergyIn(pixels, Lower(x, dir, at)) + EnergyIn(pixels, Upper(x, dir, at)))
    else
      None
  }

  predicate AtMost(score: Option<real>, bound: real) {
    score.Some? ==> score.value <= bound
  }

  predicate Below(score: Option<real>, bound: real) {
    score.Some? ==> score.value < bound
  }

  /** at is the first of the best cuts along dir, or -1 when no cut scores above zero. */
  ghost predicate BestAlong(pixels: seq<Pixel>, x: Region, dir: Direction, last: int, at: int, maximum: real) {
    && (forall i | First(x, dir) < i < last :: AtMost(Score(pixels, x, dir, i), maximum))
    && if at < 0 then maximum == 0.0
       else && First(x, dir) < at < last && maximum > 0.0 && Score(pixels, x, dir, at) == Some(maximum)
            && forall i | First(x, dir) < i < at :: Below(Score(pixels, x, dir, i), maximum)
  }

  ghost predicate NoBetter(pixels: seq<Pixel>, x: Region, bound: real) {
    forall dir, i | First(x, dir) < i < Last(x, dir) :: AtMost(Score(pixels, x, dir, i), bound)
  }

  ghost predicate Uncuttable(pixels: seq<Pixel>, x: Region) {
    NoBetter(pixels, x, 0.0)
  }

  ghost predicate GoodCut(pixels: seq<Pixel>, x: Region, dir: Direction, at: int) {
    && First(x, dir) < at < Last(x, dir)
    && Score(pixels, x, dir, at).Some? && Score(pixels, x, dir, at).value > 0.0
    && NoBetter(pixels, x, Score(pixels, x, dir, at).value)
  }

  predicate Precedes(a: Direction, b: Direction) {
    (a.RedWise? && !b.RedWise?) || (a.GreenWise? && b.BlueWise?)
  }

  /** Of all the cuts that no other beats, the first: red before green before blue, and low before high. */
  ghost predicate FirstBestCut(pixels: seq<Pixel>, x: Region, dir: Direction, at: int) {
    && GoodCut(pixels, x, dir, at)
    && forall other, i | First(x, other) < i < Last(x, other) && (Precedes(other, dir) || (other == dir && i < at)) ::
         Below(Score(pixels, x, other, i), Score(pixels, x, dir, at).value)
  }

  /** The best score is the least squared error: of all cuts, in all three directions, that leave pixels on
      both sides, the chosen one makes the two variances add up to the least. */
  lemma GoodCutsLeaveLeastError(pixels: seq<Pixel>, x: Region, dir: Direction, at: int, other: Direction, i: int)
    requires GoodCut(pixels, x, dir, at)
    requires First(x, other) < i < Last(x, other)
    requires Populated(pixels, Lower(x, other, i)) && Populated(pixels, Upper(x, other, i))
    ensures VarianceIn(pixels, Lower(x, dir, at)) + VarianceIn(pixels, Upper(x, dir, at))
         <= VarianceIn(pixels, Lower(x, other, i)) + VarianceIn(pixels, Upper(x, other, i))
  {
    TotalSplits(pixels, Square, x, dir, at);
    TotalSplits(pixels, Square, x, other, i);
    assert AtMost(Score(pixels, x, other, i), Score(pixels, x, dir, at).value);
  }

  // ---------------------------------------------------------------- variance is never negative

  lemma ProductsKeepOrder(a: int, b: int, w: int)
    requires w > 0 && w * a <= w * b
    ensures a <= b
  {
  }

  lemma SquareIsNotNegative(x: int)
    ensures x * x >= 0
  {
  }

  lemma Binomial(t: int, p: int)
    ensures (t - p) * (t - p) == t * t - 2 * (t * p) + p * p
  {
  }

  lemma ProductInside(w: int, t: int, v: int)
    ensures t * (w * v) == w * (t * v)
  {
  }

  lemma SquareInside(w: int, v: int)
    ensures (w * v) * (w * v) == w * (w * (v * v))
  {
    ProductInside(w, w * v, v);
    ProductInside(w, v, v);
  }

  /** One channel's share: twice the product is at most the sum of the squares. */
  lemma SquaredDifference(w: int, t: int, v: int)
    ensures 2 * (w * (t * v)) <= t * t + w * (w * (v * v))
  {
    var p := w * v;
    SquareIsNotNegative(t - p);
    Binomial(t, p);
    ProductInside(w, t, v);
    SquareInside(w, v);
  }

  /** Adding one value to each sum keeps the inequality. */
  lemma OneMore(s: int, w: int, r: int, g: int, b: int, x: int, y: int, z: int)
    requires w > 0 && r * r + g * g + b * b <= w * s
    ensures 2 * (r * x + g * y + b * z) <= s + w * (x * x + y * y + z * z)
  {
    SquaredDifference(w, r, x);
    SquaredDifference(w, g, y);
    SquaredDifference(w, b, z);
    var q := x * x + y * y + z * z;
    assert w * (w * q) == w * (w * (x * x)) + w * (w * (y * y)) + w * (w * (z * z));
    var p := r * x + g * y + b * z;
    assert w * (2 * p) == 2 * (w * (r * x)) + 2 * (w * (g * y)) + 2 * (w * (b * z));
    assert w * (s + w * q) == w * s + w * (w * q);
    ProductsKeepOrder(2 * p, s + w * q, w);
  }

  lemma SquareOfSum(t: int, v: int)
    ensures (t + v) * (t + v) == t * t + 2 * (t * v) + v * v
  {
  }

  lemma ProductOfSums(w: int, s: int, q: int)
    ensures (w + 1) * (s + q) == w * s + s + w * q + q
  {
  }

  lemma {:induction false} SumsOfSquares(pixels: seq<Pixel>, x: Region)
    ensures var w, s := Total(pixels, Weight, x), Total(pixels, Square, x);
            var r, g, b := Total(pixels, Red, x), Total(pixels, Green, x), Total(pixels, Blue, x);
            && r * r + g * g + b * b <= w * s
            && w >= 0
            && (w == 0 ==> r == 0 && g == 0 && b == 0 && s == 0)
  {
    if pixels != [] {
      var rest, p := pixels[..|pixels| - 1], pixels[|pixels| - 1];
      SumsOfSquares(rest, x);
      if Inside(p, x) {
        var w, s := Total(rest, Weight, x), Total(rest, Square, x);
        var r, g, b := Total(rest, Red, x), Total(rest, Green, x), Total(rest, Blue, x);
        var i, j, k := p.red as int, p.green as int, p.blue as int;
        if w > 0 { OneMore(s, w, r, g, b, i, j, k); }
        SquareOfSum(r, i);
        SquareOfSum(g, j);
        SquareOfSum(b, k);
        ProductOfSums(w, s, Worth(Square, p));
      }
    }
  }

  lemma QuotientAtMost(n: int, w: int, s: int)
    requires w > 0 && n <= w * s
    ensures n as real / w as real <= s as real
  {
    assert n as real <= (w * s) as real == w as real * s as real;
  }

  lemma VarianceIsNotNegative(pixels: seq<Pixel>, x: Region)
    requires Populated(pixels, x)
    ensures VarianceIn(pixels, x) >= 0.0
  {
    SumsOfSquares(pixels, x);
    var r, g, b := Total(pixels, Red, x), Total(pixels, Green, x), Total(pixels, Blue, x);
    QuotientAtMost(r * r + g * g + b * b, Total(pixels, Weight, x), Total(pixels, Square, x));
  }

  function Squared(x: real): real {
    x * x
  }

  /** What the opaque pixels of a region miss a colour by, squared and added up. */
  function SquaredError(pixels: seq<Pixel>, x: Region, r: real, g: real, b: real): real {
    if pixels == [] then 0.0
    else
      var p := pixels[|pixels| - 1];
      var i, j, k := p.red as int, p.green as int, p.blue as int;
      SquaredError(pixels[..|pixels| - 1], x, r, g, b)
      + if p.alpha == 255 && 8 * x.r0 <= i < 8 * x.r1 && 8 * x.g0 <= j < 8 * x.g1 && 8 * x.b0 <= k < 8 * x.b1
        then Squared(i as real - r) + Squared(j as real - g) + Squared(k as real - b) else 0.0
  }

  lemma SquaredDifferenceExpands(i: int, r: real)
    ensures Squared(i as real - r) == (i * i) as real - 2.0 * (r * i as real) + Squared(r)
  {
    assert (i * i) as real == i as real * i as real;
  }

  lemma OneMoreProduct(r: real, t: int, i: int)
    ensures r * (t + i) as real == r * t as real + r * i as real
  {
  }

  function Expanded(w: int, tr: int, tg: int, tb: int, s: int, r: real, g: real, b: real): real {
    s as real - 2.0 * (r * tr as real + g * tg as real + b * tb as real)
    + (Squared(r) + Squared(g) + Squared(b)) * w as real
  }

  lemma SumUp(s: real, i: real, j: real, k: real, n: real, s': real, i': real, j': real, k': real, n': real)
    ensures (s + s') - 2.0 * ((i + i') + (j + j') + (k + k')) + (n + n') ==
            (s - 2.0 * (i + j + k) + n) + (s' - 2.0 * (i' + j' + k') + n')
  {
  }

  lemma OneMoreNorm(n: real, w: int)
    ensures n * (w + 1) as real == n * w as real + n
  {
  }

  lemma PixelExpands(p: Pixel, r: real, g: real, b: real)
    ensures var i, j, k := p.red as int, p.green as int, p.blue as int;
            Squared(i as real - r) + Squared(j as real - g) + Squared(k as real - b) ==
            Worth(Square, p) as real - 2.0 * (r * i as real + g * j as real + b * k as real)
            + (Squared(r) + Squared(g) + Squared(b))
  {
    SquaredDifferenceExpands(p.red as int, r);
    SquaredDifferenceExpands(p.green as int, g);
    SquaredDifferenceExpands(p.blue as int, b);
  }

  /** One pixel more on the right-hand side of ErrorExpands. */
  lemma OneMoreExpands(p: Pixel, w: int, tr: int, tg: int, tb: int, s: int, r: real, g: real, b: real)
    ensures var i, j, k := p.red as int, p.green as int, p.blue as int;
            Expanded(w + 1, tr + i, tg + j, tb + k, s + Worth(Square, p), r, g, b) ==
            Expanded(w, tr, tg, tb, s, r, g, b)
            + (Squared(i as real - r) + Squared(j as real - g) + Squared(k as real - b))
  {
    var i, j, k, n := p.red as int, p.green as int, p.blue as int, Squared(r) + Squared(g) + Squared(b);
    PixelExpands(p, r, g, b);
    OneMoreProduct(r, tr, i);
    OneMoreProduct(g, tg, j);
    OneMoreProduct(b, tb, k);
    OneMoreNorm(n, w);
    SumUp(s as real, r * tr as real, g * tg as real, b * tb as real, n * w as real,
          Worth(Square, p) as real, r * i as real, g * j as real, b * k as real, n);
  }

  function ExpandedIn(pixels: seq<Pixel>, x: Region, r: real, g: real, b: real): real {
    Expanded(Total(pixels, Weight, x), Total(pixels, Red, x), Total(pixels, Green, x), Total(pixels, Blue, x),
             Total(pixels, Square, x), r, g, b)
  }

  lemma {:induction false} ErrorExpands(pixels: seq<Pixel>, x: Region, r: real, g: real, b: real)
    ensures SquaredError(pixels, x, r, g, b) == ExpandedIn(pixels, x, r, g, b)
  {
    if pixels != [] {
      var rest, p := pixels[..|pixels| - 1], pixels[|pixels| - 1];
      ErrorExpands(rest, x, r, g, b);
      OneMoreExpands(p, Total(rest, Weight, x), Total(rest, Red, x), Total(rest, Green, x), Total(rest, Blue, x),
                     Total(rest, Square, x), r, g, b);
    }
  }

  lemma MeanShare(t: int, w: int)
    requires w != 0
    ensures var m := t as real / w as real;
            m * t as real == (t * t) as real / w as real && Squared(m) * w as real == (t * t) as real / w as real
  {
    var m := t as real / w as real;
    assert m * w as real == t as real;
    assert (t * t) as real == t as real * t as real;
    assert Squared(m) * w as real == m * (m * w as real);
  }

  lemma SharesAddUp(r: int, g: int, b: int, w: int)
    requires w != 0
    ensures Energy(r, g, b, w) ==
            (r * r) as real / w as real + (g * g) as real / w as real + (b * b) as real / w as real
  {
  }

  lemma NormAddsUp(i: real, j: real, k: real, w: real)
    ensures (i + j + k) * w == i * w + j * w + k * w
  {
  }

  lemma Cancel(s: real, i: real, j: real, k: real)
    ensures s - 2.0 * (i + j + k) + (i + j + k) == s - (i + j + k)
  {
  }

  lemma ExpandedAtMean(w: int, r: int, g: int, b: int, s: int)
    requires w != 0
    ensures Expanded(w, r, g, b, s, r as real / w as real, g as real / w as real, b as real / w as real) ==
            s as real - Energy(r, g, b, w)
  {
    var i, j, k := r as real / w as real, g as real / w as real, b as real / w as real;
    MeanShare(r, w);
    MeanShare(g, w);
    MeanShare(b, w);
    SharesAddUp(r, g, b, w);
    NormAddsUp(Squared(i), Squared(j), Squared(k), w as real);
    Cancel(s as real, i * r as real, j * g as real, k * b as real);
  }

  /** The variance of a box is what its opaque pixels miss their mean by. */
  lemma VarianceIsSquaredError(pixels: seq<Pixel>, x: Region)
    requires Populated(pixels, x)
    ensures var w := Total(pixels, Weight, x) as real;
            VarianceIn(pixels, x) ==
            SquaredError(pixels, x, Total(pixels, Red, x) as real / w, Total(pixels, Green, x) as real / w,
                         Total(pixels, Blue, x) as real / w)
  {
    var w, s := Total(pixels, Weight, x), Total(pixels, Square, x);
    var r, g, b := Total(pixels, Red, x), Total(pixels, Green, x), Total(pixels, Blue, x);
    ErrorExpands(pixels, x, r as real / w as real, g as real / w as real, b as real / w as real);
    ExpandedAtMean(w, r, g, b, s);
  }

  // ---------------------------------------------------------------- what a set of boxes keeps

  /** How many boxes cover a cell. */
  function Cover(boxes: seq<Box>, r: int, g: int, b: int): nat {
    if boxes == [] then 0
    else Cover(boxes[..|boxes| - 1], r, g, b) + if Covers(boxes[|boxes| - 1].span, r, g, b) then 1 else 0
  }

  /** What the pixels of all the boxes add up to. */
  function Grand(pixels: seq<Pixel>, c: Channel, boxes: seq<Box>): int {
    if boxes == [] then 0
    else Grand(pixels, c, boxes[..|boxes| - 1]) + Total(pixels, c, boxes[|boxes| - 1].span)
  }

  lemma {:induction false} CoverReplaced(boxes: seq<Box>, j: nat, box: Box, r: int, g: int, b: int)
    requires j < |boxes|
    ensures Cover(boxes[j := box], r, g, b)
         == Cover(boxes, r, g, b) - (if Covers(boxes[j].span, r, g, b) then 1 else 0)
            + if Covers(box.span, r, g, b) then 1 else 0
  {
    var last := |boxes| - 1;
    if j == last {
      assert boxes[j := box][..last] == boxes[..last];
    } else {
      CoverReplaced(boxes[..last], j, box, r, g, b);
      assert boxes[j := box][..last] == boxes[..last][j := box];
    }
  }

  lemma {:induction false} GrandReplaced(pixels: seq<Pixel>, c: Channel, boxes: seq<Box>, j: nat, box: Box)
    requires j < |boxes|
    ensures Grand(pixels, c, boxes[j := box])
         == Grand(pixels, c, boxes) - Total(pixels, c, boxes[j].span) + Total(pixels, c, box.span)
  {
    var last := |boxes| - 1;
    if j == last {
      assert boxes[j := box][..last] == boxes[..last];
    } else {
      GrandReplaced(pixels, c, boxes[..last], j, box);
      assert boxes[j := box][..last] == boxes[..last][j := box];
    }
  }

  /** Every cell of the cube lies in exactly one box, and no box reaches outside the cube. */
  ghost predicate Partition(boxes: seq<Box>) {
    forall r, g, b :: Cover(boxes, r, g, b) == if Covers(WHOLE, r, g, b) then 1 else 0
  }

  ghost predicate Conserves(pixels: seq<Pixel>, boxes: seq<Box>) {
    forall c :: Grand(pixels, c, boxes) == Total(pixels, c, WHOLE)
  }

  /** What holds of the boxes after any number of cuts. */
  ghost predicate Grown(pixels: seq<Pixel>, boxes: seq<Box>) {
    && |boxes| > 0
    && Partition(boxes)
    && Conserves(pixels, boxes)
    && (forall j | 0 <= j < |boxes| :: OnCube(boxes[j].span))
    && (|boxes| == 1 ==> boxes[0].span == WHOLE)
    && (|boxes| > 1 ==> forall j | 0 <= j < |boxes| ::
          Total(pixels, Weight, boxes[j].span) > 0 && boxes[j].vol == CellCount(boxes[j].span))
  }

  function AfterCut(boxes: seq<Box>, j: nat, dir: Direction, at: int): seq<Box>
    requires j < |boxes|
  {
    boxes[j := Boxed(Lower(boxes[j].span, dir, at))] + [Boxed(Upper(boxes[j].span, dir, at))]
  }

  lemma OneBox(pixels: seq<Pixel>, box: Box)
    requires box.span == WHOLE
    ensures Grown(pixels, [box])
  {
    forall r, g, b ensures Cover([box], r, g, b) == if Covers(WHOLE, r, g, b) then 1 else 0 {
      assert [box][..0] == [];
      assert Cover([], r, g, b) == 0;
    }
    forall c ensures Grand(pixels, c, [box]) == Total(pixels, c, WHOLE) {
      assert [box][..0] == [];
      assert Grand(pixels, c, []) == 0;
    }
  }

  lemma CutKeepsPartition(boxes: seq<Box>, j: nat, dir: Direction, at: int)
    requires j < |boxes| && Partition(boxes)
    requires First(boxes[j].span, dir) <= at <= Last(boxes[j].span, dir)
    ensures Partition(AfterCut(boxes, j, dir, at))
  {
    var x := boxes[j].span;
    var after := AfterCut(boxes, j, dir, at);
    var lower := Boxed(Lower(x, dir, at));
    forall r, g, b ensures Cover(after, r, g, b) == if Covers(WHOLE, r, g, b) then 1 else 0 {
      CoverReplaced(boxes, j, lower, r, g, b);
      HalvesPartition(x, dir, at, r, g, b);
      assert after[..|after| - 1] == boxes[j := lower];
    }
  }

  lemma CutConserves(pixels: seq<Pixel>, boxes: seq<Box>, j: nat, dir: Direction, at: int)
    requires j < |boxes| && Conserves(pixels, boxes)
    requires First(boxes[j].span, dir) <= at <= Last(boxes[j].span, dir)
    ensures Conserves(pixels, AfterCut(boxes, j, dir, at))
  {
    var x := boxes[j].span;
    var after := AfterCut(boxes, j, dir, at);
    var lower := Boxed(Lower(x, dir, at));
    forall c ensures Grand(pixels, c, after) == Total(pixels, c, WHOLE) {
      GrandReplaced(pixels, c, boxes, j, lower);
      TotalSplits(pixels, c, x, dir, at);
      assert after[..|after| - 1] == boxes[j := lower];
    }
  }

  /** A cut that leaves pixels on both sides keeps everything. */
  lemma CutKeepsGrown(pixels: seq<Pixel>, boxes: seq<Box>, j: nat, dir: Direction, at: int)
    requires j < |boxes| && Grown(pixels, boxes)
    requires First(boxes[j].span, dir) < at < Last(boxes[j].span, dir)
    requires Score(pixels, boxes[j].span, dir, at).Some?
    ensures Grown(pixels, AfterCut(boxes, j, dir, at))
  {
    CutKeepsPartition(boxes, j, dir, at);
    CutConserves(pixels, boxes, j, dir, at);
    WeightIsNatural(pixels, Lower(boxes[j].span, dir, at));
    WeightIsNatural(pixels, Upper(boxes[j].span, dir, at));
  }

  // ---------------------------------------------------------------- colours

  /** One channel of a box's mean, cut to a byte. */
  function MeanByte(sum: int, weight: int): int
    requires weight > 0
  {
    Rounded(sum as real / weight as real) % 256
  }

  function Mean(pixels: seq<Pixel>, x: Region): Rgb
    requires Total(pixels, Weight, x) > 0
  {
    var w := Total(pixels, Weight, x);
    Rgb(MeanByte(Total(pixels, Red, x), w), MeanByte(Total(pixels, Green, x), w), MeanByte(Total(pixels, Blue, x), w))
  }

  /** The colours of the boxes that hold pixels. */
  function Means(pixels: seq<Pixel>, boxes: seq<Box>): seq<Rgb> {
    if boxes == [] then []
    else Means(pixels, boxes[..|boxes| - 1])
         + if Total(pixels, Weight, boxes[|boxes| - 1].span) > 0 then [Mean(pixels, boxes[|boxes| - 1].span)] else []
  }

  lemma QuotientBetween(sum: int, w: int, lo: int, hi: int)
    requires w > 0 && lo * w <= sum <= hi * w
    ensures lo as real <= sum as real / w as real <= hi as real
  {
    assert (lo * w) as real == lo as real * w as real;
    assert (hi * w) as real == hi as real * w as real;
    assert lo as real * w as real <= sum as real <= hi as real * w as real;
  }

  /** Rounding and the cut to a byte do not leave a byte-sized range. */
  lemma MeanByteBetween(sum: int, w: int, lo: int, hi: int)
    requires w > 0 && 0 <= lo && hi < 256 && lo * w <= sum <= hi * w
    ensures lo <= MeanByte(sum, w) <= hi
    ensures MeanByte(sum, w) == Rounded(sum as real / w as real)
  {
    QuotientBetween(sum, w, lo, hi);
    RoundedBetween(sum as real / w as real, lo, hi);
  }

  predicate InRange(color: Rgb, x: Region) {
    && 8 * x.r0 <= color.red < 8 * x.r1
    && 8 * x.g0 <= color.green < 8 * x.g1
    && 8 * x.b0 <= color.blue < 8 * x.b1
  }

  /** A box's colour lies among the colours of its own cells. */
  lemma MeanInRange(pixels: seq<Pixel>, x: Region)
    requires OnCube(x) && Total(pixels, Weight, x) > 0
    ensures InRange(Mean(pixels, x), x)
  {
    MeansStayInside(pixels, x);
    var w := Total(pixels, Weight, x);
    MeanByteBetween(Total(pixels, Red, x), w, 8 * x.r0, 8 * x.r1 - 1);
    MeanByteBetween(Total(pixels, Green, x), w, 8 * x.g0, 8 * x.g1 - 1);
    MeanByteBetween(Total(pixels, Blue, x), w, 8 * x.b0, 8 * x.b1 - 1);
  }

  /** Of all the values a channel can have this one is nearest to the mean; a half goes up. */
  predicate Nearest(channel: int, sum: int, weight: int)
    requires weight > 0
  {
    channel as real - 0.5 <= sum as real / weight as real < channel as real + 0.5
  }

  lemma QuotientIsNatural(sum: int, w: int)
    requires w > 0 && sum >= 0
    ensures sum as real / w as real >= 0.0
  {
  }

  lemma RoundedQuotient(sum: int, w: int)
    requires w > 0 && sum >= 0
    ensures Nearest(Rounded(sum as real / w as real), sum, w)
  {
    QuotientIsNatural(sum, w);
    RoundedIsNearest(sum as real / w as real);
  }

  lemma {:induction false} SumsAreNatural(pixels: seq<Pixel>, x: Region)
    ensures Total(pixels, Red, x) >= 0 && Total(pixels, Green, x) >= 0 && Total(pixels, Blue, x) >= 0
  {
    if pixels != [] { SumsAreNatural(pixels[..|pixels| - 1], x); }
  }

  /** A box's colour is the nearest to the mean of its pixels, channel by channel. */
  lemma MeanIsNearest(pixels: seq<Pixel>, x: Region)
    requires OnCube(x) && Total(pixels, Weight, x) > 0
    ensures var w, color := Total(pixels, Weight, x), Mean(pixels, x);
            && Nearest(color.red, Total(pixels, Red, x), w)
            && Nearest(color.green, Total(pixels, Green, x), w)
            && Nearest(color.blue, Total(pixels, Blue, x), w)
  {
    MeansStayInside(pixels, x);
    var w := Total(pixels, Weight, x);
    MeanByteBetween(Total(pixels, Red, x), w, 8 * x.r0, 8 * x.r1 - 1);
    MeanByteBetween(Total(pixels, Green, x), w, 8 * x.g0, 8 * x.g1 - 1);
    MeanByteBetween(Total(pixels, Blue, x), w, 8 * x.b0, 8 * x.b1 - 1);
    SumsAreNatural(pixels, x);
    RoundedQuotient(Total(pixels, Red, x), w);
    RoundedQuotient(Total(pixels, Green, x), w);
    RoundedQuotient(Total(pixels, Blue, x), w);
  }

  lemma {:induction false} CoverCounts(boxes: seq<Box>, j: nat, r: int, g: int, b: int)
    requires j < |boxes| && Covers(boxes[j].span, r, g, b)
    ensures Cover(boxes, r, g, b) >= 1
  {
    if j < |boxes| - 1 { CoverCounts(boxes[..|boxes| - 1], j, r, g, b); }
  }

  lemma {:induction false} CoveredTwice(boxes: seq<Box>, i: nat, j: nat, r: int, g: int, b: int)
    requires i < j < |boxes| && Covers(boxes[i].span, r, g, b) && Covers(boxes[j].span, r, g, b)
    ensures Cover(boxes, r, g, b) >= 2
  {
    var rest := boxes[..|boxes| - 1];
    if j < |rest| {
      CoveredTwice(rest, i, j, r, g, b);
    } else {
      CoverCounts(rest, i, r, g, b);
    }
  }

  /** Two regions with a colour in both share a cell. */
  lemma SharedColorSharesCell(x: Region, y: Region, color: Rgb)
    requires InRange(color, x) && InRange(color, y)
    ensures Covers(x, color.red / 8 + 1, color.green / 8 + 1, color.blue / 8 + 1)
    ensures Covers(y, color.red / 8 + 1, color.green / 8 + 1, color.blue / 8 + 1)
  {
  }

  ghost predicate Distinct(colors: seq<Rgb>) {
    forall i, j | 0 <= i < j < |colors| :: colors[i] != colors[j]
  }

  lemma {:induction false} MeansOfFull(pixels: seq<Pixel>, boxes: seq<Box>)
    requires forall j | 0 <= j < |boxes| :: Total(pixels, Weight, boxes[j].span) > 0
    ensures |Means(pixels, boxes)| == |boxes|
    ensures forall j | 0 <= j < |boxes| :: Means(pixels, boxes)[j] == Mean(pixels, boxes[j].span)
  {
    if boxes != [] { MeansOfFull(pixels, boxes[..|boxes| - 1]); }
  }

  /** The boxes of a partition that all hold pixels give one colour each, all different, each in its own
      box's range. */
  lemma ColorsAreDistinct(pixels: seq<Pixel>, boxes: seq<Box>)
    requires Grown(pixels, boxes) && forall j | 0 <= j < |boxes| :: Total(pixels, Weight, boxes[j].span) > 0
    ensures |Means(pixels, boxes)| == |boxes| && Distinct(Means(pixels, boxes))
    ensures forall j | 0 <= j < |boxes| :: InRange(Means(pixels, boxes)[j], boxes[j].span)
  {
    var colors := Means(pixels, boxes);
    MeansOfFull(pixels, boxes);
    forall j | 0 <= j < |boxes| ensures InRange(colors[j], boxes[j].span) {
      MeanInRange(pixels, boxes[j].span);
    }
    forall i, j | 0 <= i < j < |colors| ensures colors[i] != colors[j] {
      if colors[i] == colors[j] {
        var c := colors[i];
        SharedColorSharesCell(boxes[i].span, boxes[j].span, c);
        assert Cover(boxes, c.red / 8 + 1, c.green / 8 + 1, c.blue / 8 + 1) <= 1;
        CoveredTwice(boxes, i, j, c.red / 8 + 1, c.green / 8 + 1, c.blue / 8 + 1);
      }
    }
  }
}

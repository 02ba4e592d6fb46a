/** The quantizer of material/quantizer/wu.go, step by step as it runs. */
module WuQuantizer {
  import opened Wrappers
  import opened WuMoments
  import opened WuBoxes
  import opened WuHistogram
  import opened WuCuts

  /** The five tables once they are summed. */
  datatype Moments = Moments(weights: Table, reds: Table, greens: Table, blues: Table, squares: Table)

  predicate Answers(m: Moments, pixels: seq<Pixel>, x: Region)
    requires OnCube(x)
  {
    && Volume(x, m.weights) == Total(pixels, Weight, x)
    && Volume(x, m.reds) == Total(pixels, Red, x)
    && Volume(x, m.greens) == Total(pixels, Green, x)
    && Volume(x, m.blues) == Total(pixels, Blue, x)
    && Volume(x, m.squares) == Total(pixels, Square, x)
  }

  /** For every box, the tables answer what the pixels in it add up to. */
  ghost predicate Describes(m: Moments, pixels: seq<Pixel>) {
    forall x {:trigger Answers(m, pixels, x)} | OnCube(x) :: Answers(m, pixels, x)
  }

  function CellIndex(p: Pixel): (i: nat)
    ensures i < TOTAL_SIZE
  {
    IndexInRange(CellOf(p.red), CellOf(p.green), CellOf(p.blue));
    Index(CellOf(p.red), CellOf(p.green), CellOf(p.blue))
  }

  lemma EmptyHistogram(h: Table, c: Channel)
    requires forall i | 0 <= i < TOTAL_SIZE :: h[i] == 0
    ensures IsHistogram(h, [], c)
  {
  }

  ghost predicate AreHistograms(m: Moments, pixels: seq<Pixel>) {
    && IsHistogram(m.weights, pixels, Weight)
    && IsHistogram(m.reds, pixels, Red)
    && IsHistogram(m.greens, pixels, Green)
    && IsHistogram(m.blues, pixels, Blue)
    && IsHistogram(m.squares, pixels, Square)
  }

  lemma SkipPixels(m: Moments, pixels: seq<Pixel>, p: Pixel)
    requires AreHistograms(m, pixels) && !Opaque(p)
    ensures AreHistograms(m, pixels + [p])
  {
  }

  lemma CountPixel(h: Table, pixels: seq<Pixel>, p: Pixel, c: Channel)
    requires IsHistogram(h, pixels, c) && Opaque(p)
    ensures IsHistogram(h[CellIndex(p) := h[CellIndex(p)] + Worth(c, p)], pixels + [p], c)
  {
  }

  lemma TablesDescribe(m: Moments, h: Moments, pixels: seq<Pixel>)
    requires IsHistogram(h.weights, pixels, Weight) && Summed(m.weights, h.weights)
    requires IsHistogram(h.reds, pixels, Red) && Summed(m.reds, h.reds)
    requires IsHistogram(h.greens, pixels, Green) && Summed(m.greens, h.greens)
    requires IsHistogram(h.blues, pixels, Blue) && Summed(m.blues, h.blues)
    requires IsHistogram(h.squares, pixels, Square) && Summed(m.squares, h.squares)
    ensures Describes(m, pixels)
  {
    forall x | OnCube(x) ensures Answers(m, pixels, x) {
      VolumeIsTotal(m.weights, h.weights, pixels, Weight, x);
      VolumeIsTotal(m.reds, h.reds, pixels, Red, x);
      VolumeIsTotal(m.greens, h.greens, pixels, Green, x);
      VolumeIsTotal(m.blues, h.blues, pixels, Blue, x);
      VolumeIsTotal(m.squares, h.squares, pixels, Square, x);
    }
  }

  // ---------------------------------------------------------------- reading the tables

  function Variance(m: Moments, x: Region): real
    requires OnCube(x) && Volume(x, m.weights) != 0
  {
    Volume(x, m.squares) as real
    - Energy(Volume(x, m.reds), Volume(x, m.greens), Volume(x, m.blues), Volume(x, m.weights))
  }

  function BoxVariance(m: Moments, box: Box): real
    requires OnCube(box.span) && Volume(box.span, m.weights) != 0
  {
    if box.vol <= 1 then 0.0 else Variance(m, box.span)
  }

  function HalvesScore(r: int, g: int, b: int, w: int, r': int, g': int, b': int, w': int): Option<real> {
    if w == 0 || w' == 0 then None else Some(Energy(r, g, b, w) + Energy(r', g', b', w'))
  }

  lemma ScoreOfTotals(pixels: seq<Pixel>, x: Region, dir: Direction, i: int,
                      r: int, g: int, b: int, w: int, r': int, g': int, b': int, w': int)
    requires r == Total(pixels, Red, Lower(x, dir, i)) && r' == Total(pixels, Red, Upper(x, dir, i))
    requires g == Total(pixels, Green, Lower(x, dir, i)) && g' == Total(pixels, Green, Upper(x, dir, i))
    requires b == Total(pixels, Blue, Lower(x, dir, i)) && b' == Total(pixels, Blue, Upper(x, dir, i))
    requires w == Total(pixels, Weight, Lower(x, dir, i)) && w' == Total(pixels, Weight, Upper(x, dir, i))
    ensures Score(pixels, x, dir, i) == HalvesScore(r, g, b, w, r', g', b', w')
  {
  }

  lemma CutTotals(m: Moments, pixels: seq<Pixel>, x: Region, dir: Direction, i: int)
    requires Describes(m, pixels) && OnCube(x) && First(x, dir) <= i <= Last(x, dir)
    ensures Bottom(x, dir, m.weights) + Top(x, dir, i, m.weights) == Total(pixels, Weight, Lower(x, dir, i))
    ensures Bottom(x, dir, m.reds) + Top(x, dir, i, m.reds) == Total(pixels, Red, Lower(x, dir, i))
    ensures Bottom(x, dir, m.greens) + Top(x, dir, i, m.greens) == Total(pixels, Green, Lower(x, dir, i))
    ensures Bottom(x, dir, m.blues) + Top(x, dir, i, m.blues) == Total(pixels, Blue, Lower(x, dir, i))
    ensures Volume(x, m.weights) - Total(pixels, Weight, Lower(x, dir, i)) == Total(pixels, Weight, Upper(x, dir, i))
    ensures Volume(x, m.reds) - Total(pixels, Red, Lower(x, dir, i)) == Total(pixels, Red, Upper(x, dir, i))
    ensures Volume(x, m.greens) - Total(pixels, Green, Lower(x, dir, i)) == Total(pixels, Green, Upper(x, dir, i))
    ensures Volume(x, m.blues) - Total(pixels, Blue, Lower(x, dir, i)) == Total(pixels, Blue, Upper(x, dir, i))
  {
    CutVolumes(x, dir, i, m.weights);
    CutVolumes(x, dir, i, m.reds);
    CutVolumes(x, dir, i, m.greens);
    CutVolumes(x, dir, i, m.blues);
    assert Answers(m, pixels, Lower(x, dir, i)) && Answers(m, pixels, Upper(x, dir, i));
  }

  /** The tables' score of a cut is the pixels'. */
  lemma TablesScore(m: Moments, pixels: seq<Pixel>, x: Region, dir: Direction, i: int, r: int, g: int, b: int, w: int)
    requires Describes(m, pixels) && OnCube(x) && First(x, dir) < i < Last(x, dir)
    requires r == Bottom(x, dir, m.reds) + Top(x, dir, i, m.reds)
    requires g == Bottom(x, dir, m.greens) + Top(x, dir, i, m.greens)
    requires b == Bottom(x, dir, m.blues) + Top(x, dir, i, m.blues)
    requires w == Bottom(x, dir, m.weights) + Top(x, dir, i, m.weights)
    ensures Score(pixels, x, dir, i) ==
            HalvesScore(r, g, b, w, Volume(x, m.reds) - r, Volume(x, m.greens) - g,
                        Volume(x, m.blues) - b, Volume(x, m.weights) - w)
  {
    CutTotals(m, pixels, x, dir, i);
    ScoreOfTotals(pixels, x, dir, i, r, g, b, w, Volume(x, m.reds) - r, Volume(x, m.greens) - g,
                  Volume(x, m.blues) - b, Volume(x, m.weights) - w);
  }

  /** The body of the loop of maximize, once the lower half is known. */
  method ScoreHalves(lowerR: int, lowerG: int, lowerB: int, lowerW: int,
                     wholeR: int, wholeG: int, wholeB: int, wholeW: int)
    returns (score: Option<real>)
    ensures score == HalvesScore(lowerR, lowerG, lowerB, lowerW,
                                 wholeR - lowerR, wholeG - lowerG, wholeB - lowerB, wholeW - lowerW)
  {
    var halfR, halfG, halfB, halfW := lowerR, lowerG, lowerB, lowerW;
    if halfW == 0 { return None; }
    var temp := Energy(halfR, halfG, halfB, halfW);
    halfR := wholeR - halfR;
    halfG := wholeG - halfG;
    halfB := wholeB - halfB;
    halfW := wholeW - halfW;
    if halfW == 0 { return None; }
    temp := temp + Energy(halfR, halfG, halfB, halfW);
    return Some(temp);
  }

  /** The score of one cut, from the part of the lower half that does not move and the whole. */
  method ScoreCut(m: Moments, ghost pixels: seq<Pixel>, x: Region, dir: Direction, i: int,
                  bottomR: int, bottomG: int, bottomB: int, bottomW: int,
                  wholeR: int, wholeG: int, wholeB: int, wholeW: int)
    returns (score: Option<real>)
    requires Describes(m, pixels) && OnCube(x) && First(x, dir) < i < Last(x, dir)
    requires bottomR == Bottom(x, dir, m.reds) && bottomG == Bottom(x, dir, m.greens)
    requires bottomB == Bottom(x, dir, m.blues) && bottomW == Bottom(x, dir, m.weights)
    requires wholeR == Volume(x, m.reds) && wholeG == Volume(x, m.greens)
    requires wholeB == Volume(x, m.blues) && wholeW == Volume(x, m.weights)
    ensures score == Score(pixels, x, dir, i)
  {
    var halfR := bottomR + Top(x, dir, i, m.reds);
    var halfG := bottomG + Top(x, dir, i, m.greens);
    var halfB := bottomB + Top(x, dir, i, m.blues);
    var halfW := bottomW + Top(x, dir, i, m.weights);
    TablesScore(m, pixels, x, dir, i, halfR, halfG, halfB, halfW);
    score := ScoreHalves(halfR, halfG, halfB, halfW, wholeR, wholeG, wholeB, wholeW);
  }

  /** What one more position does to the best cut so far. */
  lemma BestGrows(pixels: seq<Pixel>, x: Region, dir: Direction, i: int, at: int, maximum: real)
    requires 0 <= First(x, dir) < i && BestAlong(pixels, x, dir, i, at, maximum) && maximum >= 0.0
    ensures match Score(pixels, x, dir, i)
            case None => BestAlong(pixels, x, dir, i + 1, at, maximum)
            case Some(score) =>
              if score > maximum then BestAlong(pixels, x, dir, i + 1, i, score)
              else BestAlong(pixels, x, dir, i + 1, at, maximum)
  {
  }

  /** The first position along a direction whose cut scores best, if any scores above zero. */
  method Maximize(m: Moments, ghost pixels: seq<Pixel>, x: Region, dir: Direction, first: int, last: int,
                  wholeR: int, wholeG: int, wholeB: int, wholeW: int)
    returns (at: int, maximum: real)
    requires Describes(m, pixels) && OnCube(x) && first == First(x, dir) + 1 && last == Last(x, dir)
    requires wholeR == Volume(x, m.reds) && wholeG == Volume(x, m.greens)
    requires wholeB == Volume(x, m.blues) && wholeW == Volume(x, m.weights)
    ensures BestAlong(pixels, x, dir, last, at, maximum)
  {
    var bottomR := Bottom(x, dir, m.reds);
    var bottomG := Bottom(x, dir, m.greens);
    var bottomB := Bottom(x, dir, m.blues);
    var bottomW := Bottom(x, dir, m.weights);
    at, maximum := -1, 0.0;
    var i := first;
    while i < last
      invariant first <= i && (i <= last || i == first)
      invariant BestAlong(pixels, x, dir, i, at, maximum) && maximum >= 0.0
    {
      var temp := ScoreCut(m, pixels, x, dir, i, bottomR, bottomG, bottomB, bottomW, wholeR, wholeG, wholeB, wholeW);
      BestGrows(pixels, x, dir, i, at, maximum);
      if temp.Some? && temp.value > maximum {
        at, maximum := i, temp.value;
      }
      i := i + 1;
    }
  }

  lemma BestOfThree(pixels: seq<Pixel>, x: Region, atR: int, maxR: real, atG: int, maxG: real, atB: int, maxB: real,
                    bound: real)
    requires BestAlong(pixels, x, RedWise, x.r1, atR, maxR)
    requires BestAlong(pixels, x, GreenWise, x.g1, atG, maxG)
    requires BestAlong(pixels, x, BlueWise, x.b1, atB, maxB)
    requires maxR <= bound && maxG <= bound && maxB <= bound
    ensures NoBetter(pixels, x, bound)
  {
  }

  lemma FirstOfThree(pixels: seq<Pixel>, x: Region, atR: int, maxR: real, atG: int, maxG: real, atB: int, maxB: real)
    requires BestAlong(pixels, x, RedWise, x.r1, atR, maxR)
    requires BestAlong(pixels, x, GreenWise, x.g1, atG, maxG)
    requires BestAlong(pixels, x, BlueWise, x.b1, atB, maxB)
    ensures maxR >= maxG && maxR >= maxB && atR >= 0 ==> FirstBestCut(pixels, x, RedWise, atR)
    ensures maxG > maxR && maxG >= maxB ==> FirstBestCut(pixels, x, GreenWise, atG)
    ensures maxB > maxR && maxB > maxG ==> FirstBestCut(pixels, x, BlueWise, atB)
  {
  }

  /** The switch of cut picks the first of the cuts that no other beats, and gives up only when none scores above
      zero. */
  method ChooseCut(m: Moments, ghost pixels: seq<Pixel>, x: Region)
    returns (found: bool, dir: Direction, at: int)
    requires Describes(m, pixels) && OnCube(x)
    ensures found ==> FirstBestCut(pixels, x, dir, at)
    ensures !found ==> Uncuttable(pixels, x)
  {
    var wholeR := Volume(x, m.reds);
    var wholeG := Volume(x, m.greens);
    var wholeB := Volume(x, m.blues);
    var wholeW := Volume(x, m.weights);
    var atR, maxR := Maximize(m, pixels, x, RedWise, x.r0 + 1, x.r1, wholeR, wholeG, wholeB, wholeW);
    var atG, maxG := Maximize(m, pixels, x, GreenWise, x.g0 + 1, x.g1, wholeR, wholeG, wholeB, wholeW);
    var atB, maxB := Maximize(m, pixels, x, BlueWise, x.b0 + 1, x.b1, wholeR, wholeG, wholeB, wholeW);
    FirstOfThree(pixels, x, atR, maxR, atG, maxG, atB, maxB);
    if maxR >= maxG && maxR >= maxB {
      BestOfThree(pixels, x, atR, maxR, atG, maxG, atB, maxB, maxR);
      found, dir, at := atR >= 0, RedWise, atR;
    } else if maxG >= maxR && maxG >= maxB {
      BestOfThree(pixels, x, atR, maxR, atG, maxG, atB, maxB, maxG);
      found, dir, at := true, GreenWise, atG;
    } else {
      BestOfThree(pixels, x, atR, maxR, atG, maxG, atB, maxB, maxB);
      found, dir, at := true, BlueWise, atB;
    }
  }

  // ---------------------------------------------------------------- which boxes are done

  /** How many variances are above zero: what a cut that fails makes smaller. */
  function Positives(s: seq<real>): nat {
    if s == [] then 0 else Positives(s[..|s| - 1]) + if s[|s| - 1] > 0.0 then 1 else 0
  }

  lemma {:induction false} OneLessPositive(s: seq<real>, j: nat)
    requires j < |s| && s[j] > 0.0
    ensures Positives(s[j := 0.0]) == Positives(s) - 1
  {
    var last := |s| - 1;
    if j == last {
      assert s[j := 0.0][..last] == s[..last];
    } else {
      OneLessPositive(s[..last], j);
      assert s[j := 0.0][..last] == s[..last][j := 0.0];
    }
  }

  /** The boxes at one time, and those of them whose last cut failed. */
  datatype Stage = Stage(boxes: seq<Box>, spent: set<nat>)

  /** What cutting a box is worth: its variance, but nothing for one cell or when no cut of it scores. */
  function Worthwhile(pixels: seq<Pixel>, stage: Stage, j: nat): real
    requires j < |stage.boxes|
  {
    var x := stage.boxes[j].span;
    if CellCount(x) <= 1 || j in stage.spent || !Populated(pixels, x) then 0.0 else VarianceIn(pixels, x)
  }

  /** A box the loop would not cut again: one cell, no variance, or no cut that scores. */
  ghost predicate Settled(pixels: seq<Pixel>, x: Region) {
    || CellCount(x) <= 1
    || Uncuttable(pixels, x)
    || (Populated(pixels, x) && VarianceIn(pixels, x) == 0.0)
  }

  /** The box to be cut next: the first of those worth most, or the only one. */
  ghost predicate Due(pixels: seq<Pixel>, stage: Stage, next: nat) {
    && next < |stage.boxes|
    && (|stage.boxes| > 1 ==>
          && Worthwhile(pixels, stage, next) > 0.0
          && (forall j | 0 <= j < |stage.boxes| :: Worthwhile(pixels, stage, j) <= Worthwhile(pixels, stage, next))
          && (forall j | 0 <= j < next :: Worthwhile(pixels, stage, j) < Worthwhile(pixels, stage, next)))
  }

  ghost predicate GreedyAt(pixels: seq<Pixel>, was: Stage, now: Stage, next: nat)
    requires next < |was.boxes|
  {
    var x := was.boxes[next].span;
    || (exists dir, at :: FirstBestCut(pixels, x, dir, at)
                          && now == Stage(AfterCut(was.boxes, next, dir, at), was.spent - {next}))
    || (Uncuttable(pixels, x) && now == Stage(was.boxes, was.spent + {next}))
  }

  /** One turn of the loop: the box that is due is cut by the first of its best cuts, or found to have none. */
  ghost predicate GreedyTurn(pixels: seq<Pixel>, was: Stage, now: Stage) {
    exists next :: Due(pixels, was, next) && GreedyAt(pixels, was, now, next)
  }

  ghost predicate StartsWhole(stage: Stage) {
    stage == Stage([Box(WHOLE, 0)], {})
  }

  /** The greedy algorithm, turn by turn, from one box over the whole cube. */
  ghost predicate GreedyRun(pixels: seq<Pixel>, stages: seq<Stage>) {
    && stages != [] && StartsWhole(stages[0])
    && forall t | 0 <= t < |stages| - 1 :: GreedyTurn(pixels, stages[t], stages[t + 1])
  }

  /** It stops when there are enough boxes, or when no box is worth cutting; a single box is tried first. */
  ghost predicate Finished(pixels: seq<Pixel>, stage: Stage, maxColors: int) {
    || |stage.boxes| == maxColors
    || (|stage.boxes| < maxColors
        && (|stage.boxes| == 1 ==> Uncuttable(pixels, stage.boxes[0].span))
        && forall j | 0 <= j < |stage.boxes| ::
             Worthwhile(pixels, stage, j) <= 0.0 && Settled(pixels, stage.boxes[j].span))
  }

  ghost predicate Spent(pixels: seq<Pixel>, stage: Stage) {
    forall j | j in stage.spent :: j < |stage.boxes| && Uncuttable(pixels, stage.boxes[j].span)
  }

  /** The variances recorded for the boxes. */
  ghost predicate Records(pixels: seq<Pixel>, stage: Stage, variances: seq<real>) {
    |variances| == |stage.boxes| && forall j | 0 <= j < |variances| :: variances[j] == Worthwhile(pixels, stage, j)
  }

  /** Before the first turn nothing is recorded. */
  ghost predicate Kept(pixels: seq<Pixel>, stage: Stage, variances: seq<real>) {
    if |stage.boxes| > 1 || stage.spent != {} then Records(pixels, stage, variances) else variances == [0.0]
  }

  lemma CutIsKept(pixels: seq<Pixel>, was: Stage, variances: seq<real>, j: nat, dir: Direction, at: int, v: real,
                  w: real)
    requires j < |was.boxes| && Kept(pixels, was, variances) && |variances| == |was.boxes| && Spent(pixels, was)
    requires |was.boxes| == 1 ==> j == 0
    requires var now := Stage(AfterCut(was.boxes, j, dir, at), was.spent - {j});
             v == Worthwhile(pixels, now, j) && w == Worthwhile(pixels, now, |was.boxes|)
    ensures var now := Stage(AfterCut(was.boxes, j, dir, at), was.spent - {j});
            Records(pixels, now, variances[j := v] + [w]) && Spent(pixels, now)
  {
    var now := Stage(AfterCut(was.boxes, j, dir, at), was.spent - {j});
    forall k | 0 <= k < |now.boxes| ensures (variances[j := v] + [w])[k] == Worthwhile(pixels, now, k) {
      if k != j && k < |was.boxes| {
        assert now.boxes[k] == was.boxes[k];
        assert Worthwhile(pixels, now, k) == Worthwhile(pixels, was, k);
      }
    }
  }

  lemma FailureIsKept(pixels: seq<Pixel>, was: Stage, variances: seq<real>, j: nat)
    requires j < |was.boxes| && Kept(pixels, was, variances) && |variances| == |was.boxes| && Spent(pixels, was)
    requires Uncuttable(pixels, was.boxes[j].span)
    ensures var now := Stage(was.boxes, was.spent + {j});
            Records(pixels, now, variances[j := 0.0]) && Spent(pixels, now)
  {
    var now := Stage(was.boxes, was.spent + {j});
    forall k | 0 <= k < |now.boxes| ensures variances[j := 0.0][k] == Worthwhile(pixels, now, k) {
      if k != j { assert Worthwhile(pixels, now, k) == Worthwhile(pixels, was, k); }
    }
  }

  lemma NothingWorthwhile(pixels: seq<Pixel>, stage: Stage)
    requires Grown(pixels, stage.boxes) && Spent(pixels, stage)
    requires forall j | 0 <= j < |stage.boxes| :: Worthwhile(pixels, stage, j) <= 0.0
    requires |stage.boxes| > 1 || stage.spent == {0}
    ensures forall j | 0 <= j < |stage.boxes| :: Settled(pixels, stage.boxes[j].span)
  {
    forall j | 0 <= j < |stage.boxes| ensures Settled(pixels, stage.boxes[j].span) {
      assert Worthwhile(pixels, stage, j) <= 0.0;
      if Populated(pixels, stage.boxes[j].span) { VarianceIsNotNegative(pixels, stage.boxes[j].span); }
    }
  }

  /** The variance that is recorded after a cut is what the box is worth. */
  lemma VarianceIsWorth(m: Moments, pixels: seq<Pixel>, stage: Stage, j: nat)
    requires Describes(m, pixels) && j < |stage.boxes| && j !in stage.spent && OnCube(stage.boxes[j].span)
    requires stage.boxes[j].vol == CellCount(stage.boxes[j].span) && Populated(pixels, stage.boxes[j].span)
    ensures Volume(stage.boxes[j].span, m.weights) == Total(pixels, Weight, stage.boxes[j].span)
    ensures BoxVariance(m, stage.boxes[j]) == Worthwhile(pixels, stage, j)
  {
    assert Answers(m, pixels, stage.boxes[j].span);
  }

  /** A cut with its two variances recorded. */
  lemma CutIsRecorded(m: Moments, pixels: seq<Pixel>, was: Stage, variances: seq<real>, j: nat, dir: Direction, at: int,
                      lower: Box, upper: Box)
    requires Describes(m, pixels) && j < |was.boxes| == |variances| && Grown(pixels, was.boxes)
    requires Kept(pixels, was, variances) && Spent(pixels, was) && FirstBestCut(pixels, was.boxes[j].span, dir, at)
    requires lower == Boxed(Lower(was.boxes[j].span, dir, at)) && upper == Boxed(Upper(was.boxes[j].span, dir, at))
    ensures OnCube(lower.span) && Volume(lower.span, m.weights) != 0
    ensures OnCube(upper.span) && Volume(upper.span, m.weights) != 0
    ensures var now := Stage(was.boxes[j := lower] + [upper], was.spent - {j});
            && Grown(pixels, now.boxes) && Spent(pixels, now) && GreedyAt(pixels, was, now, j)
            && Records(pixels, now, variances[j := BoxVariance(m, lower)] + [BoxVariance(m, upper)])
  {
    CutKeepsGrown(pixels, was.boxes, j, dir, at);
    var now := Stage(AfterCut(was.boxes, j, dir, at), was.spent - {j});
    var n := |was.boxes|;
    assert now.boxes[j] == lower && now.boxes[n] == upper;
    assert n !in now.spent;
    VarianceIsWorth(m, pixels, now, j);
    VarianceIsWorth(m, pixels, now, n);
    CutIsKept(pixels, was, variances, j, dir, at, BoxVariance(m, lower), BoxVariance(m, upper));
  }

  method LargestVariance(variances: array<real>, n: nat) returns (next: nat, temp: real)
    requires 0 < n <= variances.Length
    ensures next < n && temp == variances[next]
    ensures forall j | 0 <= j < n :: variances[j] <= temp
    ensures forall j | 0 <= j < next :: variances[j] < temp
  {
    next, temp := 0, variances[0];
    for j := 1 to n
      invariant next < j && temp == variances[next]
      invariant forall k | 0 <= k < j :: variances[k] <= temp
      invariant forall k | 0 <= k < next :: variances[k] < temp
    {
      if variances[j] > temp { next, temp := j, variances[j]; }
    }
  }

  /** Splits one box into two, or reports that no cut scores above zero and leaves both alone. */
  method Cut(m: Moments, ghost pixels: seq<Pixel>, cubes: array<Box>, one: nat, two: nat)
    returns (ok: bool, ghost dir: Direction, ghost at: int)
    requires Describes(m, pixels)
    requires one < cubes.Length && two < cubes.Length && one != two && OnCube(cubes[one].span)
    modifies cubes
    ensures ok ==> FirstBestCut(pixels, old(cubes[one].span), dir, at)
    ensures ok ==> cubes[..] == old(cubes[..])[one := Boxed(Lower(old(cubes[one].span), dir, at))]
                                              [two := Boxed(Upper(old(cubes[one].span), dir, at))]
    ensures ok ==> cubes[one] == Boxed(Lower(old(cubes[one].span), dir, at))
    ensures ok ==> cubes[two] == Boxed(Upper(old(cubes[one].span), dir, at))
    ensures !ok ==> Uncuttable(pixels, cubes[one].span) && cubes[..] == old(cubes[..])
  {
    var x := cubes[one].span;
    var d, i;
    ok, d, i := ChooseCut(m, pixels, x);
    dir, at := d, i;
    if !ok { return; }
    match d {
      case RedWise =>
        cubes[two] := Box(Region(i, x.r1, x.g0, x.g1, x.b0, x.b1), cubes[two].vol);
        cubes[one] := Box(x.(r1 := i), cubes[one].vol);
      case GreenWise =>
        cubes[two] := Box(Region(x.r0, x.r1, i, x.g1, x.b0, x.b1), cubes[two].vol);
        cubes[one] := Box(x.(g1 := i), cubes[one].vol);
      case BlueWise =>
        cubes[two] := Box(Region(x.r0, x.r1, x.g0, x.g1, i, x.b1), cubes[two].vol);
        cubes[one] := Box(x.(b1 := i), cubes[one].vol);
    }
    cubes[one] := cubes[one].(vol := CellCount(cubes[one].span));
    cubes[two] := cubes[two].(vol := CellCount(cubes[two].span));
  }

  lemma Replaced<T>(s: seq<T>, i: nat, j: nat, x: T, y: T)
    requires j < i < |s|
    ensures s[j := x][i := y][..i + 1] == s[..i][j := x] + [y]
  {
  }

  /** What the loop knows of its boxes between two turns. */
  ghost predicate Standing(pixels: seq<Pixel>, stage: Stage, variances: seq<real>) {
    Grown(pixels, stage.boxes) && Spent(pixels, stage) && Kept(pixels, stage, variances)
  }

  lemma TurnIsGreedy(pixels: seq<Pixel>, was: Stage, now: Stage, next: nat)
    requires Due(pixels, was, next) && GreedyAt(pixels, was, now, next)
    ensures GreedyTurn(pixels, was, now)
  {
  }

  /** One turn of the box loop up to the search for the next box. */
  method TryCut(m: Moments, ghost pixels: seq<Pixel>, cubes: array<Box>, variances: array<real>, next: nat, i: nat,
                ghost was: Stage)
    returns (ok: bool, ghost now: Stage)
    requires Describes(m, pixels)
    requires next < i < cubes.Length == variances.Length && was.boxes == cubes[..i]
    requires Standing(pixels, was, variances[..i])
    modifies cubes, variances
    ensures Grown(pixels, now.boxes) && Spent(pixels, now) && GreedyAt(pixels, was, now, next)
    ensures ok ==> now.boxes == cubes[..i + 1] && |now.boxes| == i + 1 && Records(pixels, now, variances[..i + 1])
    ensures !ok ==> now == Stage(was.boxes, was.spent + {next})
    ensures !ok ==> cubes[..] == old(cubes[..]) && variances[..] == old(variances[..])[next := 0.0]
                    && Records(pixels, now, variances[..i])
  {
    ghost var all, recorded := cubes[..], variances[..i];
    assert was.boxes[next] == cubes[next];
    ghost var dir, at;
    ok, dir, at := Cut(m, pixels, cubes, next, i);
    if ok {
      var lower, upper := cubes[next], cubes[i];
      CutIsRecorded(m, pixels, was, recorded, next, dir, at, lower, upper);
      now := Stage(was.boxes[next := lower] + [upper], was.spent - {next});
      Replaced(all, i, next, lower, upper);
      assert cubes[..i + 1] == cubes[..][..i + 1];
      Replaced(variances[..], i, next, BoxVariance(m, lower), BoxVariance(m, upper));
      variances[next] := BoxVariance(m, lower);
      variances[i] := BoxVariance(m, upper);
      assert variances[..i + 1] == variances[..][..i + 1];
    } else {
      variances[next] := 0.0;
      now := Stage(was.boxes, was.spent + {next});
      assert variances[..i] == recorded[next := 0.0];
      FailureIsKept(pixels, was, recorded, next);
    }
  }

  lemma LargestIsDue(pixels: seq<Pixel>, stage: Stage, variances: seq<real>, largest: nat)
    requires Records(pixels, stage, variances) && largest < |variances|
    requires forall j | 0 <= j < |variances| :: variances[j] <= variances[largest]
    requires forall j | 0 <= j < largest :: variances[j] < variances[largest]
    ensures variances[largest] > 0.0 ==> Due(pixels, stage, largest)
    ensures variances[largest] <= 0.0 ==> forall j | 0 <= j < |stage.boxes| :: Worthwhile(pixels, stage, j) <= 0.0
  {
  }

  /** The body of the box loop: a cut, and the search for the next box to cut. last is the index of the last
      box, one less than where the loop stood when the cut fails. */
  method Turn(m: Moments, ghost pixels: seq<Pixel>, cubes: array<Box>, variances: array<real>, next: nat, i: nat,
              ghost was: Stage)
    returns (last: nat, largest: nat, temp: real, ghost now: Stage)
    requires Describes(m, pixels)
    requires 0 < i < cubes.Length == variances.Length && was.boxes == cubes[..i]
    requires Standing(pixels, was, variances[..i]) && Due(pixels, was, next)
    modifies cubes, variances
    ensures (last == i || last == i - 1) && now.boxes == cubes[..last + 1] && |now.boxes| == last + 1
    ensures GreedyTurn(pixels, was, now) && Grown(pixels, now.boxes) && Spent(pixels, now)
    ensures Records(pixels, now, variances[..last + 1]) && (last == 0 ==> now.spent == was.spent + {0})
    ensures largest <= last && temp == Worthwhile(pixels, now, largest)
    ensures if temp > 0.0 then Due(pixels, now, largest)
            else forall j | 0 <= j <= last :: Worthwhile(pixels, now, j) <= 0.0
    ensures last < i ==> temp <= 0.0 || Positives(variances[..]) < old(Positives(variances[..]))
  {
    last := i;
    ghost var before := variances[..];
    var ok;
    ok, now := TryCut(m, pixels, cubes, variances, next, i, was);
    TurnIsGreedy(pixels, was, now, next);
    if !ok {
      last := i - 1;
      if before[next] > 0.0 { OneLessPositive(before, next); }
    }
    largest, temp := LargestVariance(variances, last + 1);
    assert variances[..last + 1][largest] == temp;
    LargestIsDue(pixels, now, variances[..last + 1], largest);
  }

  lemma RunGoesOn(pixels: seq<Pixel>, stages: seq<Stage>, now: Stage)
    requires GreedyRun(pixels, stages) && GreedyTurn(pixels, stages[|stages| - 1], now)
    ensures GreedyRun(pixels, stages + [now])
  {
    var more := stages + [now];
    forall t | 0 <= t < |more| - 1 ensures GreedyTurn(pixels, more[t], more[t + 1]) {
      if t < |stages| - 1 { assert GreedyTurn(pixels, stages[t], stages[t + 1]); }
    }
  }

  lemma RunStarts(pixels: seq<Pixel>)
    ensures GreedyRun(pixels, [Stage([Box(WHOLE, 0)], {})]) && Standing(pixels, Stage([Box(WHOLE, 0)], {}), [0.0])
    ensures Due(pixels, Stage([Box(WHOLE, 0)], {}), 0)
  {
    OneBox(pixels, Box(WHOLE, 0));
  }

  /** The box loop. It ends although a cut that fails takes its index back: such a cut makes one variance
      fewer positive, and one that succeeds leaves one box fewer to fill. What it goes through is a run of the greedy
      algorithm, to its end. */
  method FillBoxes(m: Moments, ghost pixels: seq<Pixel>, cubes: array<Box>)
    returns (count: nat, ghost stages: seq<Stage>)
    requires Describes(m, pixels) && cubes.Length > 0 && cubes[0] == Box(WHOLE, 0)
    modifies cubes
    ensures 0 < count <= cubes.Length && Grown(pixels, cubes[..count])
    ensures GreedyRun(pixels, stages) && stages[|stages| - 1].boxes == cubes[..count]
    ensures Finished(pixels, stages[|stages| - 1], cubes.Length)
  {
    var maxColors := cubes.Length;
    var variances := new real[maxColors](_ => 0.0);
    assert cubes[..1] == [Box(WHOLE, 0)] && variances[..1] == [0.0];
    RunStarts(pixels);
    ghost var stage := Stage([Box(WHOLE, 0)], {});
    stages := [stage];
    count := maxColors;
    var next := 0;
    var i := 1;
    while i < maxColors
      invariant 1 <= i <= maxColors == count && 0 <= next < i && fresh(variances) && variances.Length == maxColors
      invariant stage.boxes == cubes[..i] && Standing(pixels, stage, variances[..i])
      invariant i < maxColors ==> Due(pixels, stage, next)
      invariant GreedyRun(pixels, stages) && stages[|stages| - 1] == stage
      decreases maxColors - i, Positives(variances[..])
    {
      var temp;
      ghost var now;
      i, next, temp, now := Turn(m, pixels, cubes, variances, next, i, stage);
      i := i + 1;
      RunGoesOn(pixels, stages, now);
      stages := stages + [now];
      if temp <= 0.0 {
        NothingWorthwhile(pixels, now);
        return i, stages;
      }
      stage := now;
    }
  }

  class QuantizerWu {
    var weights: array<int>
    var momentsR: array<int>
    var momentsG: array<int>
    var momentsB: array<int>
    var moments: array<int>
    var cubes: array<Box>

    constructor ()
      ensures fresh(weights) && fresh(momentsR) && fresh(momentsG) && fresh(momentsB) && fresh(moments)
      ensures fresh(cubes)
    {
      weights, momentsR, momentsG, momentsB, moments := new int[0], new int[0], new int[0], new int[0], new int[0];
      cubes := new Box[0];
    }

    /** The five tables have their size and are five. */
    predicate Sized()
      reads this
    {
      && weights.Length == TOTAL_SIZE && momentsR.Length == TOTAL_SIZE && momentsG.Length == TOTAL_SIZE
      && momentsB.Length == TOTAL_SIZE && moments.Length == TOTAL_SIZE
      && weights != momentsR && weights != momentsG && weights != momentsB && weights != moments
      && momentsR != momentsG && momentsR != momentsB && momentsR != moments
      && momentsG != momentsB && momentsG != moments && momentsB != moments
    }

    function Tables(): Moments
      requires Sized()
      reads this, weights, momentsR, momentsG, momentsB, moments
    {
      Moments(weights[..], momentsR[..], momentsG[..], momentsB[..], moments[..])
    }

    ghost predicate Histograms(pixels: seq<Pixel>)
      requires Sized()
      reads this, weights, momentsR, momentsG, momentsB, moments
    {
      AreHistograms(Tables(), pixels)
    }

    method MakeTables()
      modifies this
      ensures Sized() && Histograms([]) && cubes == old(cubes)
      ensures fresh(weights) && fresh(momentsR) && fresh(momentsG) && fresh(momentsB) && fresh(moments)
    {
      weights := new int[TOTAL_SIZE](_ => 0);
      momentsR := new int[TOTAL_SIZE](_ => 0);
      momentsG := new int[TOTAL_SIZE](_ => 0);
      momentsB := new int[TOTAL_SIZE](_ => 0);
      moments := new int[TOTAL_SIZE](_ => 0);
      EmptyHistogram(weights[..], Weight);
      EmptyHistogram(momentsR[..], Red);
      EmptyHistogram(momentsG[..], Green);
      EmptyHistogram(momentsB[..], Blue);
      EmptyHistogram(moments[..], Square);
    }

    method ConstructHistogram(pixels: seq<Pixel>)
      modifies this
      ensures Sized() && Histograms(pixels) && cubes == old(cubes)
      ensures fresh(weights) && fresh(momentsR) && fresh(momentsG) && fresh(momentsB) && fresh(moments)
    {
      MakeTables();
      assert pixels[..0] == [];
      for n := 0 to |pixels|
        invariant Sized() && Histograms(pixels[..n]) && cubes == old(cubes)
        invariant fresh(weights) && fresh(momentsR) && fresh(momentsG) && fresh(momentsB) && fresh(moments)
      {
        var pixel := pixels[n];
        assert pixels[..n + 1] == pixels[..n] + [pixel];
        if pixel.alpha < 0xFF {
          SkipPixels(Tables(), pixels[..n], pixel);
          continue;
        }
        AddPixel(pixels[..n], pixel);
      }
      assert pixels[..|pixels|] == pixels;
    }

    /** The body of the histogram loop. */
    method AddPixel(ghost before: seq<Pixel>, pixel: Pixel)
      requires Sized() && Histograms(before) && Opaque(pixel)
      modifies weights, momentsR, momentsG, momentsB, moments
      ensures Histograms(before + [pixel])
    {
      var red, green, blue := pixel.red as int, pixel.green as int, pixel.blue as int;
      var index := Index(red / 8 + 1, green / 8 + 1, blue / 8 + 1);
      assert index == CellIndex(pixel);
      CountPixel(weights[..], before, pixel, Weight);
      CountPixel(momentsR[..], before, pixel, Red);
      CountPixel(momentsG[..], before, pixel, Green);
      CountPixel(momentsB[..], before, pixel, Blue);
      CountPixel(moments[..], before, pixel, Square);
      ghost var was := Tables();
      weights[index] := weights[index] + 1;
      momentsR[index] := momentsR[index] + red;
      momentsG[index] := momentsG[index] + green;
      momentsB[index] := momentsB[index] + blue;
      moments[index] := moments[index] + (red * red + green * green + blue * blue);
      assert weights[..] == was.weights[index := was.weights[index] + 1];
      assert momentsR[..] == was.reds[index := was.reds[index] + red];
      assert momentsG[..] == was.greens[index := was.greens[index] + green];
      assert momentsB[..] == was.blues[index := was.blues[index] + blue];
      assert moments[..] == was.squares[index := was.squares[index] + Worth(Square, pixel)];
    }

    method SumMoments(ghost pixels: seq<Pixel>)
      requires Sized() && Histograms(pixels)
      modifies weights, momentsR, momentsG, momentsB, moments
      ensures Describes(Tables(), pixels)
    {
      ghost var h := Tables();
      HistogramBorder(h.weights, pixels, Weight);
      HistogramBorder(h.reds, pixels, Red);
      HistogramBorder(h.greens, pixels, Green);
      HistogramBorder(h.blues, pixels, Blue);
      HistogramBorder(h.squares, pixels, Square);
      ComputeMoments(weights);
      ComputeMoments(momentsR);
      ComputeMoments(momentsG);
      ComputeMoments(momentsB);
      ComputeMoments(moments);
      TablesDescribe(Tables(), h, pixels);
    }

    method CreateBoxes(ghost pixels: seq<Pixel>, maxColors: int) returns (count: nat, ghost stages: seq<Stage>)
      requires Sized() && Describes(Tables(), pixels) && maxColors > 0
      modifies this`cubes
      ensures fresh(cubes) && 0 < count <= maxColors && cubes.Length == maxColors
      ensures Grown(pixels, cubes[..count])
      ensures GreedyRun(pixels, stages) && stages[|stages| - 1].boxes == cubes[..count]
      ensures Finished(pixels, stages[|stages| - 1], maxColors)
    {
      var m := Tables();
      cubes := new Box[maxColors](_ => Box(Region(0, 0, 0, 0, 0, 0), 0));
      cubes[0] := Box(WHOLE, 0);
      count, stages := FillBoxes(m, pixels, cubes);
    }

    /** One colour for every box that holds pixels, in the order of the boxes. */
    method CreateResult(ghost pixels: seq<Pixel>, count: nat) returns (colors: seq<Rgb>)
      requires Sized() && Describes(Tables(), pixels) && count <= cubes.Length
      requires forall j | 0 <= j < count :: OnCube(cubes[j].span)
      ensures colors == Means(pixels, cubes[..count])
    {
      var m := Tables();
      colors := [];
      for i := 0 to count
        invariant colors == Means(pixels, cubes[..i])
      {
        var cube := cubes[i];
        assert cubes[..i + 1][..i] == cubes[..i];
        assert Answers(m, pixels, cube.span);
        var weight := Volume(cube.span, m.weights);
        if weight <= 0 { continue; }
        var r := MeanByte(Volume(cube.span, m.reds), weight);
        var g := MeanByte(Volume(cube.span, m.greens), weight);
        var b := MeanByte(Volume(cube.span, m.blues), weight);
        colors := colors + [Rgb(r, g, b)];
      }
    }
  }

  /** What a quantization returns, told by the run of the greedy algorithm it went through. */
  ghost predicate Palette(pixels: seq<Pixel>, maxColors: int, stages: seq<Stage>, colors: seq<Rgb>) {
    && GreedyRun(pixels, stages) && Finished(pixels, stages[|stages| - 1], maxColors)
    && var boxes := stages[|stages| - 1].boxes;
      && 0 < |boxes| <= maxColors && Grown(pixels, boxes)
      && |colors| == |boxes| && Distinct(colors)
      && forall j | 0 <= j < |boxes| ::
           && Total(pixels, Weight, boxes[j].span) > 0
           && colors[j] == Mean(pixels, boxes[j].span)
           && InRange(colors[j], boxes[j].span)
  }

  // ---------------------------------------------------------------- the run is determined

  lemma OneCutOnly(pixels: seq<Pixel>, x: Region, dir: Direction, at: int, other: Direction, i: int)
    requires FirstBestCut(pixels, x, dir, at) && FirstBestCut(pixels, x, other, i)
    ensures dir == other && at == i
  {
    assert AtMost(Score(pixels, x, other, i), Score(pixels, x, dir, at).value);
    assert AtMost(Score(pixels, x, dir, at), Score(pixels, x, other, i).value);
  }

  lemma OneBoxDue(pixels: seq<Pixel>, stage: Stage, i: nat, j: nat)
    requires Due(pixels, stage, i) && Due(pixels, stage, j)
    ensures i == j
  {
  }

  lemma CuttableIsNot(pixels: seq<Pixel>, x: Region, dir: Direction, at: int)
    requires FirstBestCut(pixels, x, dir, at)
    ensures !Uncuttable(pixels, x)
  {
  }

  lemma OneWayOn(pixels: seq<Pixel>, was: Stage, now: Stage, also: Stage, next: nat)
    requires next < |was.boxes| && GreedyAt(pixels, was, now, next) && GreedyAt(pixels, was, also, next)
    ensures now == also
  {
    var x := was.boxes[next].span;
    if dir, at :| FirstBestCut(pixels, x, dir, at)
                  && now == Stage(AfterCut(was.boxes, next, dir, at), was.spent - {next}) {
      CuttableIsNot(pixels, x, dir, at);
      var other, i :| FirstBestCut(pixels, x, other, i)
                      && also == Stage(AfterCut(was.boxes, next, other, i), was.spent - {next});
      OneCutOnly(pixels, x, dir, at, other, i);
    } else if other, i :| FirstBestCut(pixels, x, other, i)
                          && also == Stage(AfterCut(was.boxes, next, other, i), was.spent - {next}) {
      CuttableIsNot(pixels, x, other, i);
    }
  }

  lemma OneTurnOnly(pixels: seq<Pixel>, was: Stage, now: Stage, also: Stage)
    requires GreedyTurn(pixels, was, now) && GreedyTurn(pixels, was, also)
    ensures now == also
  {
    var i :| Due(pixels, was, i) && GreedyAt(pixels, was, now, i);
    var j :| Due(pixels, was, j) && GreedyAt(pixels, was, also, j);
    OneBoxDue(pixels, was, i, j);
    OneWayOn(pixels, was, now, also, i);
  }

  lemma {:induction false} RunsAgree(pixels: seq<Pixel>, a: seq<Stage>, b: seq<Stage>, t: nat)
    requires GreedyRun(pixels, a) && GreedyRun(pixels, b) && t < |a| && t < |b|
    ensures a[t] == b[t]
  {
    if t > 0 {
      RunsAgree(pixels, a, b, t - 1);
      assert GreedyTurn(pixels, a[t - 1], a[t - 1 + 1]) && GreedyTurn(pixels, b[t - 1], b[t - 1 + 1]);
      OneTurnOnly(pixels, a[t - 1], a[t], b[t]);
    }
  }

  lemma {:induction false} BoxesOnlyGrow(pixels: seq<Pixel>, stages: seq<Stage>, t: nat, u: nat)
    requires GreedyRun(pixels, stages) && t <= u < |stages|
    ensures |stages[t].boxes| <= |stages[u].boxes|
    decreases u
  {
    if t < u {
      BoxesOnlyGrow(pixels, stages, t, u - 1);
      assert GreedyTurn(pixels, stages[u - 1], stages[u - 1 + 1]);
    }
  }

  /** A turn that adds no box leaves the boxes as they are. */
  lemma SameNumberSameBoxes(pixels: seq<Pixel>, was: Stage, now: Stage)
    requires GreedyTurn(pixels, was, now)
    ensures |now.boxes| == |was.boxes| || |now.boxes| == |was.boxes| + 1
    ensures |now.boxes| == |was.boxes| ==> now.boxes == was.boxes
    ensures |was.boxes| > 1 ==> exists j | 0 <= j < |was.boxes| :: Worthwhile(pixels, was, j) > 0.0
  {
    var i :| Due(pixels, was, i) && GreedyAt(pixels, was, now, i);
  }

  lemma OneUncuttableStays(pixels: seq<Pixel>, was: Stage, now: Stage)
    requires GreedyTurn(pixels, was, now) && |was.boxes| == 1 && Uncuttable(pixels, was.boxes[0].span)
    ensures now.boxes == was.boxes
  {
    var i :| Due(pixels, was, i) && GreedyAt(pixels, was, now, i);
  }

  /** After the run is finished no turn changes the boxes. */
  lemma {:induction false} FinishedIsFinal(pixels: seq<Pixel>, stages: seq<Stage>, maxColors: int, t: nat, u: nat)
    requires GreedyRun(pixels, stages) && t <= u < |stages| && Finished(pixels, stages[t], maxColors)
    requires |stages[|stages| - 1].boxes| <= maxColors
    ensures stages[u].boxes == stages[t].boxes
    decreases u
  {
    if t < u {
      FinishedIsFinal(pixels, stages, maxColors, t, u - 1);
      assert GreedyTurn(pixels, stages[u - 1], stages[u - 1 + 1]);
      assert GreedyTurn(pixels, stages[t], stages[t + 1]);
      SameNumberSameBoxes(pixels, stages[t], stages[t + 1]);
      if |stages[t].boxes| == maxColors {
        SameNumberSameBoxes(pixels, stages[u - 1], stages[u]);
        BoxesOnlyGrow(pixels, stages, u, |stages| - 1);
      } else if |stages[t].boxes| == 1 {
        OneUncuttableStays(pixels, stages[u - 1], stages[u]);
      }
    }
  }

  lemma FinalBoxesAgree(pixels: seq<Pixel>, maxColors: int, a: seq<Stage>, b: seq<Stage>)
    requires GreedyRun(pixels, a) && Finished(pixels, a[|a| - 1], maxColors)
    requires GreedyRun(pixels, b) && Finished(pixels, b[|b| - 1], maxColors) && |a| <= |b|
    ensures a[|a| - 1].boxes == b[|b| - 1].boxes
  {
    RunsAgree(pixels, a, b, |a| - 1);
    FinishedIsFinal(pixels, b, maxColors, |a| - 1, |b| - 1);
  }

  /** The pixels and the number of colours alone decide which colours come out, and in which order. */
  lemma PaletteIsDetermined(pixels: seq<Pixel>, maxColors: int, a: seq<Stage>, colorsA: seq<Rgb>, b: seq<Stage>,
                            colorsB: seq<Rgb>)
    requires Palette(pixels, maxColors, a, colorsA) && Palette(pixels, maxColors, b, colorsB)
    ensures colorsA == colorsB
  {
    if |a| <= |b| { FinalBoxesAgree(pixels, maxColors, a, b); } else { FinalBoxesAgree(pixels, maxColors, b, a); }
  }

  lemma {:induction false} GrandIsNatural(pixels: seq<Pixel>, boxes: seq<Box>)
    ensures Grand(pixels, Weight, boxes) >= 0
  {
    if boxes != [] {
      GrandIsNatural(pixels, boxes[..|boxes| - 1]);
      WeightIsNatural(pixels, boxes[|boxes| - 1].span);
    }
  }

  /** A partition into boxes that all hold pixels has pixels to hold. */
  lemma SomeBoxWeighs(pixels: seq<Pixel>, boxes: seq<Box>)
    requires Grown(pixels, boxes) && |boxes| > 1
    ensures Total(pixels, Weight, WHOLE) > 0
  {
    GrandIsNatural(pixels, boxes[..|boxes| - 1]);
    assert Grand(pixels, Weight, boxes) == Total(pixels, Weight, WHOLE);
  }

  /** Without an opaque pixel there is no colour; with one, every box gives its own. */
  lemma ResultIsPalette(pixels: seq<Pixel>, maxColors: int, stages: seq<Stage>, boxes: seq<Box>)
    requires 0 < |boxes| <= maxColors && Grown(pixels, boxes)
    requires GreedyRun(pixels, stages) && stages[|stages| - 1].boxes == boxes
    requires Finished(pixels, stages[|stages| - 1], maxColors)
    ensures if exists p :: p in pixels && Opaque(p)
            then Palette(pixels, maxColors, stages, Means(pixels, boxes))
            else Means(pixels, boxes) == []
  {
    OpaqueWeighs(pixels);
    WeightIsNatural(pixels, WHOLE);
    if exists p :: p in pixels && Opaque(p) {
      ColorsAreDistinct(pixels, boxes);
      MeansOfFull(pixels, boxes);
    } else {
      if |boxes| > 1 { SomeBoxWeighs(pixels, boxes); }
      assert Means(pixels, boxes[..0]) == [];
    }
  }

  method QuantizeWu(pixels: seq<Pixel>, maxColors: int) returns (colors: seq<Rgb>, ghost stages: seq<Stage>)
    ensures maxColors <= 0 ==> colors == []
    ensures (forall p | p in pixels :: p.alpha != 255) ==> colors == []
    ensures maxColors > 0 && (exists p :: p in pixels && p.alpha == 255) ==> Palette(pixels, maxColors, stages, colors)
  {
    assert forall p: Pixel :: Opaque(p) <==> p.alpha == 255;
    if maxColors <= 0 { return [], []; }
    var q := new QuantizerWu();
    q.ConstructHistogram(pixels);
    q.SumMoments(pixels);
    var count;
    count, stages := q.CreateBoxes(pixels, maxColors);
    ResultIsPalette(pixels, maxColors, stages, q.cubes[..count]);
    colors := q.CreateResult(pixels, count);
  }
}

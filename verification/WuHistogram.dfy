/** The histogram of material/quantizer/wu.go and what its tables say about the pixels. */
module WuHistogram {
  import opened WuMoments
  import opened WuBoxes

  newtype Byte = x: int | 0 <= x < 256

  datatype Pixel = Pixel(alpha: Byte, red: Byte, green: Byte, blue: Byte)

  /** What each of the five tables adds up. */
  datatype Channel = Weight | Red | Green | Blue | Square

  function Worth(c: Channel, p: Pixel): int {
    match c
    case Weight => 1
    case Red => p.red as int
    case Green => p.green as int
    case Blue => p.blue as int
    case Square => p.red as int * p.red as int + p.green as int * p.green as int + p.blue as int * p.blue as int
  }

  /** The cell of a channel value: its upper five bits, counted from one. */
  function CellOf(v: Byte): (cell: nat)
    ensures 1 <= cell < SIDE_LENGTH && 8 * (cell - 1) <= v as int < 8 * cell
  {
    v as int / 8 + 1
  }

  predicate Opaque(p: Pixel) {
    p.alpha == 255
  }

  predicate Inside(p: Pixel, x: Region) {
    Opaque(p) && Covers(x, CellOf(p.red), CellOf(p.green), CellOf(p.blue))
  }

  /** What the opaque pixels of a region add up to. */
  function Total(pixels: seq<Pixel>, c: Channel, x: Region): int {
    if pixels == [] then 0
    else Total(pixels[..|pixels| - 1], c, x)
         + if Inside(pixels[|pixels| - 1], x) then Worth(c, pixels[|pixels| - 1]) else 0
  }

  /** The region that holds one cell. */
  function Cell(r: int, g: int, b: int): Region {
    Region(r - 1, r, g - 1, g, b - 1, b)
  }

  ghost predicate IsHistogram(h: Table, pixels: seq<Pixel>, c: Channel) {
    forall r, g, b :: OnGrid(r, g, b) ==> At(h, r, g, b) == Total(pixels, c, Cell(r, g, b))
  }

  // ---------------------------------------------------------------- sums over regions

  lemma {:induction false} TotalSplits(pixels: seq<Pixel>, c: Channel, x: Region, dir: Direction, at: int)
    requires First(x, dir) <= at <= Last(x, dir)
    ensures Total(pixels, c, x) == Total(pixels, c, Lower(x, dir, at)) + Total(pixels, c, Upper(x, dir, at))
  {
    if pixels != [] {
      TotalSplits(pixels[..|pixels| - 1], c, x, dir, at);
      var p := pixels[|pixels| - 1];
      HalvesPartition(x, dir, at, CellOf(p.red), CellOf(p.green), CellOf(p.blue));
    }
  }

  lemma {:induction false} TotalOfNothing(pixels: seq<Pixel>, c: Channel, x: Region)
    requires x.r1 <= x.r0 || x.g1 <= x.g0 || x.b1 <= x.b0 || x.r1 <= 0 || x.g1 <= 0 || x.b1 <= 0
    ensures Total(pixels, c, x) == 0
  {
    if pixels != [] { TotalOfNothing(pixels[..|pixels| - 1], c, x); }
  }

  lemma HistogramBorder(h: Table, pixels: seq<Pixel>, c: Channel)
    requires IsHistogram(h, pixels, c)
    ensures BorderEmpty(h)
  {
    forall r, g, b | OnGrid(r, g, b) && (r == 0 || g == 0 || b == 0) ensures At(h, r, g, b) == 0 {
      TotalOfNothing(pixels, c, Cell(r, g, b));
    }
  }

  lemma {:induction false} LineTotal(h: Table, pixels: seq<Pixel>, c: Channel, r: nat, g: nat, b: nat)
    requires IsHistogram(h, pixels, c) && OnGrid(r, g, b)
    ensures Line(h, r, g, b) == Total(pixels, c, Region(r - 1, r, g - 1, g, 0, b))
  {
    var x := Region(r - 1, r, g - 1, g, 0, b);
    if b == 0 {
      TotalOfNothing(pixels, c, x);
    } else {
      LineTotal(h, pixels, c, r, g, b - 1);
      TotalSplits(pixels, c, x, BlueWise, b - 1);
    }
  }

  lemma {:induction false} AreaTotal(h: Table, pixels: seq<Pixel>, c: Channel, r: nat, g: nat, b: nat)
    requires IsHistogram(h, pixels, c) && OnGrid(r, g, b)
    ensures Area(h, r, g, b) == Total(pixels, c, Region(r - 1, r, 0, g, 0, b))
  {
    var x := Region(r - 1, r, 0, g, 0, b);
    if g == 0 {
      TotalOfNothing(pixels, c, x);
    } else {
      AreaTotal(h, pixels, c, r, g - 1, b);
      LineTotal(h, pixels, c, r, g, b);
      TotalSplits(pixels, c, x, GreenWise, g - 1);
    }
  }

  lemma {:induction false} CubeTotal(h: Table, pixels: seq<Pixel>, c: Channel, r: nat, g: nat, b: nat)
    requires IsHistogram(h, pixels, c) && OnGrid(r, g, b)
    ensures Cube(h, r, g, b) == Total(pixels, c, Region(0, r, 0, g, 0, b))
  {
    var x := Region(0, r, 0, g, 0, b);
    if r == 0 {
      TotalOfNothing(pixels, c, x);
    } else {
      CubeTotal(h, pixels, c, r - 1, g, b);
      AreaTotal(h, pixels, c, r, g, b);
      TotalSplits(pixels, c, x, RedWise, r - 1);
    }
  }

  lemma CornersTotal(pixels: seq<Pixel>, c: Channel, x: Region)
    requires OnCube(x)
    ensures Total(pixels, c, x)
         == Total(pixels, c, Region(0, x.r1, 0, x.g1, 0, x.b1)) - Total(pixels, c, Region(0, x.r1, 0, x.g1, 0, x.b0))
            - Total(pixels, c, Region(0, x.r1, 0, x.g0, 0, x.b1)) + Total(pixels, c, Region(0, x.r1, 0, x.g0, 0, x.b0))
            - Total(pixels, c, Region(0, x.r0, 0, x.g1, 0, x.b1)) + Total(pixels, c, Region(0, x.r0, 0, x.g1, 0, x.b0))
            + Total(pixels, c, Region(0, x.r0, 0, x.g0, 0, x.b1)) - Total(pixels, c, Region(0, x.r0, 0, x.g0, 0, x.b0))
  {
    TotalSplits(pixels, c, Region(0, x.r1, x.g0, x.g1, x.b0, x.b1), RedWise, x.r0);
    forall r | r == x.r0 || r == x.r1
      ensures Total(pixels, c, Region(0, r, x.g0, x.g1, x.b0, x.b1))
           == Total(pixels, c, Region(0, r, 0, x.g1, x.b0, x.b1)) - Total(pixels, c, Region(0, r, 0, x.g0, x.b0, x.b1))
    {
      TotalSplits(pixels, c, Region(0, r, 0, x.g1, x.b0, x.b1), GreenWise, x.g0);
    }
    forall r, g | (r == x.r0 || r == x.r1) && (g == x.g0 || g == x.g1)
      ensures Total(pixels, c, Region(0, r, 0, g, x.b0, x.b1))
           == Total(pixels, c, Region(0, r, 0, g, 0, x.b1)) - Total(pixels, c, Region(0, r, 0, g, 0, x.b0))
    {
      TotalSplits(pixels, c, Region(0, r, 0, g, 0, x.b1), BlueWise, x.b0);
    }
  }

  ghost predicate IsSummed(t: Table, pixels: seq<Pixel>, c: Channel) {
    forall r, g, b {:trigger At(t, r, g, b)} | OnGrid(r, g, b) ::
      At(t, r, g, b) == Total(pixels, c, Region(0, r, 0, g, 0, b))
  }

  lemma TableIsSummed(t: Table, h: Table, pixels: seq<Pixel>, c: Channel)
    requires IsHistogram(h, pixels, c) && Summed(t, h)
    ensures IsSummed(t, pixels, c)
  {
    forall r, g, b | OnGrid(r, g, b) ensures At(t, r, g, b) == Total(pixels, c, Region(0, r, 0, g, 0, b)) {
      CubeTotal(h, pixels, c, r, g, b);
    }
  }

  lemma VolumeIsCorners(t: Table, pixels: seq<Pixel>, c: Channel, x: Region)
    requires IsSummed(t, pixels, c) && OnCube(x)
    ensures Volume(x, t)
         == Total(pixels, c, Region(0, x.r1, 0, x.g1, 0, x.b1)) - Total(pixels, c, Region(0, x.r1, 0, x.g1, 0, x.b0))
            - Total(pixels, c, Region(0, x.r1, 0, x.g0, 0, x.b1)) + Total(pixels, c, Region(0, x.r1, 0, x.g0, 0, x.b0))
            - Total(pixels, c, Region(0, x.r0, 0, x.g1, 0, x.b1)) + Total(pixels, c, Region(0, x.r0, 0, x.g1, 0, x.b0))
            + Total(pixels, c, Region(0, x.r0, 0, x.g0, 0, x.b1)) - Total(pixels, c, Region(0, x.r0, 0, x.g0, 0, x.b0))
  {
  }

  /** A summed table over the pixels' histogram answers, for every box, what the pixels in it add up to. */
  lemma VolumeIsTotal(t: Table, h: Table, pixels: seq<Pixel>, c: Channel, x: Region)
    requires IsHistogram(h, pixels, c) && Summed(t, h) && OnCube(x)
    ensures Volume(x, t) == Total(pixels, c, x)
  {
    TableIsSummed(t, h, pixels, c);
    VolumeIsCorners(t, pixels, c, x);
    CornersTotal(pixels, c, x);
  }

  // ---------------------------------------------------------------- what a region's pixels can add up to

  lemma {:induction false} WeightIsNatural(pixels: seq<Pixel>, x: Region)
    ensures Total(pixels, Weight, x) >= 0
  {
    if pixels != [] { WeightIsNatural(pixels[..|pixels| - 1], x); }
  }

  lemma Distributes(k: int, w: int)
    ensures k * (w + 1) == k * w + k
  {
  }

  /** The average of a region's pixels lies among the values its cells stand for. */
  lemma {:induction false} MeansStayInside(pixels: seq<Pixel>, x: Region)
    ensures var w := Total(pixels, Weight, x);
            && w >= 0
            && 8 * x.r0 * w <= Total(pixels, Red, x) <= (8 * x.r1 - 1) * w
            && 8 * x.g0 * w <= Total(pixels, Green, x) <= (8 * x.g1 - 1) * w
            && 8 * x.b0 * w <= Total(pixels, Blue, x) <= (8 * x.b1 - 1) * w
  {
    if pixels != [] {
      var rest := pixels[..|pixels| - 1];
      MeansStayInside(rest, x);
      var w := Total(rest, Weight, x);
      if Inside(pixels[|pixels| - 1], x) {
        Distributes(8 * x.r0, w);
        Distributes(8 * x.g0, w);
        Distributes(8 * x.b0, w);
        Distributes(8 * x.r1 - 1, w);
        Distributes(8 * x.g1 - 1, w);
        Distributes(8 * x.b1 - 1, w);
      }
    }
  }

  lemma {:induction false} OpaqueWeighs(pixels: seq<Pixel>)
    ensures Total(pixels, Weight, WHOLE) > 0 <==> exists p :: p in pixels && Opaque(p)
  {
    WeightIsNatural(pixels, WHOLE);
    if pixels != [] {
      var rest, p := pixels[..|pixels| - 1], pixels[|pixels| - 1];
      assert pixels == rest + [p];
      OpaqueWeighs(rest);
      WeightIsNatural(rest, WHOLE);
      if Opaque(p) { assert p in pixels && Inside(p, WHOLE); }
    }
  }
}

/** Box queries of material/quantizer/wu.go: inclusion-exclusion on the summed tables. */
module WuBoxes {
  import opened WuMoments

  datatype Direction = RedWise | GreenWise | BlueWise

  /** The cells (r, g, b) with r0 < r <= r1, g0 < g <= g1 and b0 < b <= b1. */
  datatype Region = Region(r0: int, r1: int, g0: int, g1: int, b0: int, b1: int)

  const WHOLE := Region(0, SIDE_LENGTH - 1, 0, SIDE_LENGTH - 1, 0, SIDE_LENGTH - 1)

  predicate OnCube(x: Region) {
    0 <= x.r0 <= x.r1 < SIDE_LENGTH && 0 <= x.g0 <= x.g1 < SIDE_LENGTH && 0 <= x.b0 <= x.b1 < SIDE_LENGTH
  }

  predicate Covers(x: Region, r: int, g: int, b: int) {
    x.r0 < r <= x.r1 && x.g0 < g <= x.g1 && x.b0 < b <= x.b1
  }

  function First(x: Region, dir: Direction): int {
    match dir
    case RedWise => x.r0
    case GreenWise => x.g0
    case BlueWise => x.b0
  }

  function Last(x: Region, dir: Direction): int {
    match dir
    case RedWise => x.r1
    case GreenWise => x.g1
    case BlueWise => x.b1
  }

  /** The two halves of a region cut at a position. */
  function Lower(x: Region, dir: Direction, at: int): Region {
    match dir
    case RedWise => x.(r1 := at)
    case GreenWise => x.(g1 := at)
    case BlueWise => x.(b1 := at)
  }

  function Upper(x: Region, dir: Direction, at: int): Region {
    match dir
    case RedWise => x.(r0 := at)
    case GreenWise => x.(g0 := at)
    case BlueWise => x.(b0 := at)
  }

  function CellCount(x: Region): int {
    (x.r1 - x.r0) * (x.g1 - x.g0) * (x.b1 - x.b0)
  }

  function Volume(x: Region, t: Table): int
    requires OnCube(x)
  {
    At(t, x.r1, x.g1, x.b1) - At(t, x.r1, x.g1, x.b0) - At(t, x.r1, x.g0, x.b1) + At(t, x.r1, x.g0, x.b0)
    - At(t, x.r0, x.g1, x.b1) + At(t, x.r0, x.g1, x.b0) + At(t, x.r0, x.g0, x.b1) - At(t, x.r0, x.g0, x.b0)
  }

  function Bottom(x: Region, dir: Direction, t: Table): int
    requires OnCube(x)
  {
    match dir
    case RedWise =>
      -At(t, x.r0, x.g1, x.b1) + At(t, x.r0, x.g1, x.b0) + At(t, x.r0, x.g0, x.b1) - At(t, x.r0, x.g0, x.b0)
    case GreenWise =>
      -At(t, x.r1, x.g0, x.b1) + At(t, x.r1, x.g0, x.b0) + At(t, x.r0, x.g0, x.b1) - At(t, x.r0, x.g0, x.b0)
    case BlueWise =>
      -At(t, x.r1, x.g1, x.b0) + At(t, x.r1, x.g0, x.b0) + At(t, x.r0, x.g1, x.b0) - At(t, x.r0, x.g0, x.b0)
  }

  function Top(x: Region, dir: Direction, at: int, t: Table): int
    requires OnCube(x) && 0 <= at < SIDE_LENGTH
  {
    match dir
    case RedWise =>
      At(t, at, x.g1, x.b1) - At(t, at, x.g1, x.b0) - At(t, at, x.g0, x.b1) + At(t, at, x.g0, x.b0)
    case GreenWise =>
      At(t, x.r1, at, x.b1) - At(t, x.r1, at, x.b0) - At(t, x.r0, at, x.b1) + At(t, x.r0, at, x.b0)
    case BlueWise =>
      At(t, x.r1, x.g1, at) - At(t, x.r1, x.g0, at) - At(t, x.r0, x.g1, at) + At(t, x.r0, x.g0, at)
  }

  /** The part the loop of maximize keeps and the part it adds make the volume of the lower half, and the
      rest of the whole is the upper half. */
  lemma CutVolumes(x: Region, dir: Direction, at: int, t: Table)
    requires OnCube(x) && First(x, dir) <= at <= Last(x, dir)
    ensures OnCube(Lower(x, dir, at)) && OnCube(Upper(x, dir, at))
    ensures Bottom(x, dir, t) + Top(x, dir, at, t) == Volume(Lower(x, dir, at), t)
    ensures Volume(x, t) - (Bottom(x, dir, t) + Top(x, dir, at, t)) == Volume(Upper(x, dir, at), t)
  {
  }

  /** Every cell of a region lies in exactly one of its halves. */
  lemma HalvesPartition(x: Region, dir: Direction, at: int, r: int, g: int, b: int)
    requires First(x, dir) <= at <= Last(x, dir)
    ensures Covers(x, r, g, b) <==> Covers(Lower(x, dir, at), r, g, b) || Covers(Upper(x, dir, at), r, g, b)
    ensures !(Covers(Lower(x, dir, at), r, g, b) && Covers(Upper(x, dir, at), r, g, b))
  {
  }

  // ---------------------------------------------------------------- the direct sum over a box

  function LineOver(h: Table, r: nat, g: nat, b0: nat, b1: nat): int
    requires OnGrid(r, g, b1)
    decreases b1
  {
    if b1 <= b0 then 0 else LineOver(h, r, g, b0, b1 - 1) + At(h, r, g, b1)
  }

  function AreaOver(h: Table, r: nat, g0: nat, g1: nat, b0: nat, b1: nat): int
    requires OnGrid(r, g1, b1)
    decreases g1
  {
    if g1 <= g0 then 0 else AreaOver(h, r, g0, g1 - 1, b0, b1) + LineOver(h, r, g1, b0, b1)
  }

  /** The sum of h over the cells of a region, taken cell by cell. */
  function DirectSum(h: Table, x: Region): int
    requires OnCube(x)
    decreases x.r1
  {
    if x.r1 <= x.r0 then 0
    else DirectSum(h, x.(r1 := x.r1 - 1)) + AreaOver(h, x.r1, x.g0, x.g1, x.b0, x.b1)
  }

  lemma {:induction false} LineDifference(h: Table, r: nat, g: nat, b0: nat, b1: nat)
    requires OnGrid(r, g, b1) && b0 <= b1
    ensures LineOver(h, r, g, b0, b1) == Line(h, r, g, b1) - Line(h, r, g, b0)
    decreases b1
  {
    if b0 < b1 { LineDifference(h, r, g, b0, b1 - 1); }
  }

  lemma {:induction false} AreaDifference(h: Table, r: nat, g0: nat, g1: nat, b0: nat, b1: nat)
    requires OnGrid(r, g1, b1) && g0 <= g1 && b0 <= b1
    ensures AreaOver(h, r, g0, g1, b0, b1)
         == Area(h, r, g1, b1) - Area(h, r, g1, b0) - Area(h, r, g0, b1) + Area(h, r, g0, b0)
    decreases g1
  {
    if g0 < g1 {
      AreaDifference(h, r, g0, g1 - 1, b0, b1);
      LineDifference(h, r, g1, b0, b1);
    }
  }

  function Corners(h: Table, x: Region): int
    requires OnCube(x)
  {
    Cube(h, x.r1, x.g1, x.b1) - Cube(h, x.r1, x.g1, x.b0) - Cube(h, x.r1, x.g0, x.b1) + Cube(h, x.r1, x.g0, x.b0)
    - Cube(h, x.r0, x.g1, x.b1) + Cube(h, x.r0, x.g1, x.b0) + Cube(h, x.r0, x.g0, x.b1) - Cube(h, x.r0, x.g0, x.b0)
  }

  lemma {:induction false} CornersAreDirect(h: Table, x: Region)
    requires OnCube(x)
    ensures Corners(h, x) == DirectSum(h, x)
    decreases x.r1
  {
    if x.r0 < x.r1 {
      CornersAreDirect(h, x.(r1 := x.r1 - 1));
      AreaDifference(h, x.r1, x.g0, x.g1, x.b0, x.b1);
    }
  }

  /** Eight lookups in a summed table give the sum of the histogram over any box. */
  lemma VolumeIsDirectSum(h: Table, t: Table, x: Region)
    requires Summed(t, h) && OnCube(x)
    ensures Volume(x, t) == DirectSum(h, x)
  {
    CornersAreDirect(h, x);
  }
}

/** The moment tables of material/quantizer/wu.go: prefix sums over a 33 x 33 x 33 grid, built in place,
    and the box queries answered from them. */
module WuMoments {
  const SIDE_LENGTH := 33
  const TOTAL_SIZE := 35937

  /** The flat index of a grid cell. */
  function Index(r: nat, g: nat, b: nat): nat {
    r * 1024 + r * 64 + r + (g * 32) + g + b
  }

  predicate OnGrid(r: int, g: int, b: int) {
    0 <= r < SIDE_LENGTH && 0 <= g < SIDE_LENGTH && 0 <= b < SIDE_LENGTH
  }

  lemma IndexInRange(r: nat, g: nat, b: nat)
    requires OnGrid(r, g, b)
    ensures Index(r, g, b) < TOTAL_SIZE
  {
  }

  /** No two cells of the grid share an index. */
  lemma IndexInjective(r: nat, g: nat, b: nat, i: nat, j: nat, k: nat)
    requires OnGrid(r, g, b) && OnGrid(i, j, k) && Index(r, g, b) == Index(i, j, k)
    ensures r == i && g == j && b == k
  {
  }

  /** A table of the right size. */
  type Table = s: seq<int> | |s| == TOTAL_SIZE witness seq(TOTAL_SIZE, i => 0)

  function At(t: Table, r: nat, g: nat, b: nat): int
    requires OnGrid(r, g, b)
  {
    IndexInRange(r, g, b);
    t[Index(r, g, b)]
  }

  /** A histogram leaves the cells with a zero coordinate empty. */
  ghost predicate BorderEmpty(h: Table) {
    forall r, g, b :: OnGrid(r, g, b) && (r == 0 || g == 0 || b == 0) ==> At(h, r, g, b) == 0
  }

  // ---------------------------------------------------------------- direct sums

  /** The sum of h over the cells (r, g, 1..b). */
  function Line(h: Table, r: nat, g: nat, b: nat): int
    requires OnGrid(r, g, b)
  {
    if b == 0 then 0 else Line(h, r, g, b - 1) + At(h, r, g, b)
  }

  /** The sum of h over the cells (r, 1..g, 1..b). */
  function Area(h: Table, r: nat, g: nat, b: nat): int
    requires OnGrid(r, g, b)
  {
    if g == 0 then 0 else Area(h, r, g - 1, b) + Line(h, r, g, b)
  }

  /** The sum of h over the cells (1..r, 1..g, 1..b). */
  function Cube(h: Table, r: nat, g: nat, b: nat): int
    requires OnGrid(r, g, b)
  {
    if r == 0 then 0 else Cube(h, r - 1, g, b) + Area(h, r, g, b)
  }

  lemma {:induction false} AreaBorder(h: Table, r: nat, g: nat)
    requires OnGrid(r, g, 0)
    ensures Area(h, r, g, 0) == 0
  {
    if g > 0 { AreaBorder(h, r, g - 1); }
  }

  lemma {:induction false} CubeBorder(h: Table, r: nat, g: nat, b: nat)
    requires OnGrid(r, g, b) && (r == 0 || g == 0 || b == 0)
    ensures Cube(h, r, g, b) == 0
  {
    if r > 0 {
      CubeBorder(h, r - 1, g, b);
      if b == 0 { AreaBorder(h, r, g); }
    }
  }

  // ---------------------------------------------------------------- building the sums in place

  predicate Before(i: int, j: int, k: int, r: int, g: int, b: int) {
    i < r || (i == r && (j < g || (j == g && k < b)))
  }

  /** The table holds sums in the cells that come before (r, g, b), and still the histogram elsewhere. */
  ghost predicate SummedBefore(t: Table, h: Table, r: int, g: int, b: int) {
    forall i, j, k :: OnGrid(i, j, k) ==>
                        At(t, i, j, k) == if Before(i, j, k, r, g, b) then Cube(h, i, j, k) else At(h, i, j, k)
  }

  ghost predicate Summed(t: Table, h: Table) {
    forall i, j, k :: OnGrid(i, j, k) ==> At(t, i, j, k) == Cube(h, i, j, k)
  }

  /** On the border the histogram and its sums agree, so a row starts where the previous one ends. */
  lemma NextRow(t: Table, h: Table, r: nat, g: nat)
    requires BorderEmpty(h) && SummedBefore(t, h, r, g, SIDE_LENGTH)
    ensures SummedBefore(t, h, r, g + 1, 1)
  {
    forall i, j, k | OnGrid(i, j, k)
      ensures At(t, i, j, k) == if Before(i, j, k, r, g + 1, 1) then Cube(h, i, j, k) else At(h, i, j, k)
    {
      if k == 0 { CubeBorder(h, i, j, k); }
    }
  }

  lemma NextPlane(t: Table, h: Table, r: nat)
    requires BorderEmpty(h) && SummedBefore(t, h, r, SIDE_LENGTH, 1)
    ensures SummedBefore(t, h, r + 1, 1, 1)
  {
    forall i, j, k | OnGrid(i, j, k)
      ensures At(t, i, j, k) == if Before(i, j, k, r + 1, 1, 1) then Cube(h, i, j, k) else At(h, i, j, k)
    {
      if j == 0 || k == 0 { CubeBorder(h, i, j, k); }
    }
  }

  lemma FirstPlane(h: Table)
    requires BorderEmpty(h)
    ensures SummedBefore(h, h, 1, 1, 1)
  {
    forall i, j, k | OnGrid(i, j, k)
      ensures At(h, i, j, k) == if Before(i, j, k, 1, 1, 1) then Cube(h, i, j, k) else At(h, i, j, k)
    {
      if i == 0 || j == 0 || k == 0 { CubeBorder(h, i, j, k); }
    }
  }

  lemma OneCell(t: Table, h: Table, r: nat, g: nat, b: nat)
    requires OnGrid(r, g, b) && SummedBefore(t, h, r, g, b)
    ensures SummedBefore(t[Index(r, g, b) := Cube(h, r, g, b)], h, r, g, b + 1)
  {
  }

  /** The innermost loop. */
  method SumRow(moment: array<int>, ghost h: Table, r: nat, g: nat, above: seq<int>) returns (area: seq<int>)
    requires moment.Length == TOTAL_SIZE && 1 <= r < SIDE_LENGTH && 1 <= g < SIDE_LENGTH
    requires SummedBefore(moment[..], h, r, g, 1)
    requires |above| == SIDE_LENGTH && forall k :: 1 <= k < SIDE_LENGTH ==> above[k] == Area(h, r, g - 1, k)
    modifies moment
    ensures SummedBefore(moment[..], h, r, g, SIDE_LENGTH)
    ensures |area| == SIDE_LENGTH && forall k :: 1 <= k < SIDE_LENGTH ==> area[k] == Area(h, r, g, k)
  {
    area := above;
    var line := 0;
    for b := 1 to SIDE_LENGTH
      invariant SummedBefore(moment[..], h, r, g, b)
      invariant line == Line(h, r, g, b - 1)
      invariant |area| == SIDE_LENGTH
      invariant forall k :: 1 <= k < SIDE_LENGTH ==> area[k] == Area(h, r, if k < b then g else g - 1, k)
    {
      IndexInRange(r, g, b);
      IndexInRange(r - 1, g, b);
      var index := Index(r, g, b);
      assert At(moment[..], r, g, b) == At(h, r, g, b);
      assert At(moment[..], r - 1, g, b) == Cube(h, r - 1, g, b);
      line := line + moment[index];
      area := area[b := area[b] + line];
      OneCell(moment[..], h, r, g, b);
      ghost var was := moment[..];
      moment[index] := moment[Index(r - 1, g, b)] + area[b];
      assert moment[..] == was[index := Cube(h, r, g, b)];
    }
  }

  /** computeMoments for one of the five tables; the source runs the five in the same three loops, which
      share nothing. */
  method ComputeMoments(moment: array<int>)
    requires moment.Length == TOTAL_SIZE && BorderEmpty(moment[..])
    modifies moment
    ensures Summed(moment[..], old(moment[..]))
  {
    ghost var h: Table := moment[..];
    FirstPlane(h);
    for r := 1 to SIDE_LENGTH
      invariant SummedBefore(moment[..], h, r, 1, 1)
    {
      var area := seq(SIDE_LENGTH, i => 0);
      for g := 1 to SIDE_LENGTH
        invariant SummedBefore(moment[..], h, r, g, 1)
        invariant |area| == SIDE_LENGTH && forall k :: 1 <= k < SIDE_LENGTH ==> area[k] == Area(h, r, g - 1, k)
      {
        area := SumRow(moment, h, r, g, area);
        NextRow(moment[..], h, r, g);
      }
      NextPlane(moment[..], h, r);
    }
  }
}

/** Rounded-corner masks of backdrop_blur_renderer.cc: a scanline builder that sorts the pixels
    of a box by how many of their 4x4 samples lie inside the rounded rectangle.  Distances
    are in eighths of a pixel, so all tests are exact integer comparisons. */
module RoundedCorners {

  const SAMPLES: nat := 4
  const LEVELS: int := SAMPLES * SAMPLES

  datatype Box = Box(x: int, y: int, width: int, height: int)

  datatype Point = Point(x: int, y: int)

  /** Corner radii in the order top left, top right, bottom right, bottom left. */
  datatype Radii = Radii(topLeft: int, topRight: int, bottomRight: int, bottomLeft: int)

  // ----- counting samples

  /** A set of points of the plane. */
  type Shape = (int, int) -> bool

  function Bit(b: bool): int {
    if b then 1 else 0
  }

  /** The `n`th sample position of pixel `x` along an axis. */
  function At(x: int, n: int): int {
    8 * x + 2 * n + 1
  }

  ghost function RowTally(p: Shape, x: int, y: int, n: nat): int
    decreases n, x, y
  {
    if n == 0 then 0 else RowTally(p, x, y, n - 1) + Bit(p(At(x, n - 1), y))
  }

  ghost function TallyTo(p: Shape, x: int, y: int, m: nat): int
    decreases m, x, y
  {
    if m == 0 then 0 else TallyTo(p, x, y, m - 1) + RowTally(p, x, At(y, m - 1), SAMPLES)
  }

  /** How many of the sixteen samples of the pixel at (x, y) lie in `p`. */
  ghost function Tally(p: Shape, x: int, y: int): int {
    TallyTo(p, x, y, SAMPLES)
  }

  lemma RowOf(p: Shape, x: int, y: int)
    ensures RowTally(p, x, y, SAMPLES) ==
      Bit(p(At(x, 0), y)) + Bit(p(At(x, 1), y)) + Bit(p(At(x, 2), y)) + Bit(p(At(x, 3), y))
  {
    assert RowTally(p, x, y, 1) == Bit(p(At(x, 0), y));
    assert RowTally(p, x, y, 2) == RowTally(p, x, y, 1) + Bit(p(At(x, 1), y));
    assert RowTally(p, x, y, 3) == RowTally(p, x, y, 2) + Bit(p(At(x, 2), y));
  }

  lemma TallyOf(p: Shape, x: int, y: int)
    ensures Tally(p, x, y) == RowTally(p, x, At(y, 0), SAMPLES) + RowTally(p, x, At(y, 1), SAMPLES)
      + RowTally(p, x, At(y, 2), SAMPLES) + RowTally(p, x, At(y, 3), SAMPLES)
  {
    assert TallyTo(p, x, y, 1) == RowTally(p, x, At(y, 0), SAMPLES);
    assert TallyTo(p, x, y, 2) == TallyTo(p, x, y, 1) + RowTally(p, x, At(y, 1), SAMPLES);
    assert TallyTo(p, x, y, 3) == TallyTo(p, x, y, 2) + RowTally(p, x, At(y, 2), SAMPLES);
  }

  lemma RowRange(p: Shape, x: int, y: int)
    ensures 0 <= RowTally(p, x, y, SAMPLES) <= SAMPLES
  {
    RowOf(p, x, y);
  }

  lemma TallyRange(p: Shape, x: int, y: int)
    ensures 0 <= Tally(p, x, y) <= LEVELS
  {
    TallyOf(p, x, y);
    RowRange(p, x, At(y, 0));
    RowRange(p, x, At(y, 1));
    RowRange(p, x, At(y, 2));
    RowRange(p, x, At(y, 3));
  }

  lemma RowLe(p: Shape, x: int, y: int, q: Shape, x': int, y': int, flip: bool)
    requires forall n :: 0 <= n < SAMPLES && p(At(x, n), y) ==> q(At(x', if flip then 3 - n else n), y')
    ensures RowTally(p, x, y, SAMPLES) <= RowTally(q, x', y', SAMPLES)
  {
    RowOf(p, x, y);
    RowOf(q, x', y');
  }

  /** Samples of one pixel against those of another, taken in order or mirrored. */
  lemma TallyLe(p: Shape, x: int, y: int, q: Shape, x': int, y': int, flipX: bool, flipY: bool)
    requires forall n, m :: 0 <= n < SAMPLES && 0 <= m < SAMPLES && p(At(x, n), At(y, m)) ==>
      q(At(x', if flipX then 3 - n else n), At(y', if flipY then 3 - m else m))
    ensures Tally(p, x, y) <= Tally(q, x', y')
  {
    TallyOf(p, x, y);
    TallyOf(q, x', y');
    RowLe(p, x, At(y, 0), q, x', At(y', if flipY then 3 else 0), flipX);
    RowLe(p, x, At(y, 1), q, x', At(y', if flipY then 2 else 1), flipX);
    RowLe(p, x, At(y, 2), q, x', At(y', if flipY then 1 else 2), flipX);
    RowLe(p, x, At(y, 3), q, x', At(y', if flipY then 0 else 3), flipX);
  }

  lemma TallyFull(p: Shape, x: int, y: int)
    requires forall n, m :: 0 <= n < SAMPLES && 0 <= m < SAMPLES ==> p(At(x, n), At(y, m))
    ensures Tally(p, x, y) == LEVELS
  {
    TallyOf(p, x, y);
    RowOf(p, x, At(y, 0));
    RowOf(p, x, At(y, 1));
    RowOf(p, x, At(y, 2));
    RowOf(p, x, At(y, 3));
  }

  /** The same samples, mirrored or not, give the same count. */
  lemma TallyFlip(p: Shape, x: int, y: int, q: Shape, x': int, y': int, flipX: bool, flipY: bool)
    requires forall n, m :: 0 <= n < SAMPLES && 0 <= m < SAMPLES ==>
      p(At(x, n), At(y, m)) == q(At(x', if flipX then 3 - n else n), At(y', if flipY then 3 - m else m))
    ensures Tally(p, x, y) == Tally(q, x', y')
  {
    TallyLe(p, x, y, q, x', y', flipX, flipY);
    forall n, m | 0 <= n < SAMPLES && 0 <= m < SAMPLES && q(At(x', n), At(y', m))
      ensures p(At(x, if flipX then 3 - n else n), At(y, if flipY then 3 - m else m))
    {
      var i, j := if flipX then 3 - n else n, if flipY then 3 - m else m;
      assert p(At(x, i), At(y, j)) == q(At(x', if flipX then 3 - i else i), At(y', if flipY then 3 - j else j));
    }
    TallyLe(q, x', y', p, x, y, flipX, flipY);
  }

  // ----- the geometry

  function Sq(x: int): int {
    x * x
  }

  /** A point at distances `x` and `y` from the two sides of a corner: the circle cuts it off
      only inside the corner square. */
  predicate InCorner(radius: int, x: int, y: int) {
    radius > 0 && x < 8 * radius && y < 8 * radius ==> Sq(x - 8 * radius) + Sq(y - 8 * radius) <= Sq(8 * radius)
  }

  /** A point of a rounded rectangle of the given size in pixels. */
  ghost predicate InRounded(width: int, height: int, r: Radii, x: int, y: int) {
    && InCorner(r.topLeft, x, y)
    && InCorner(r.topRight, 8 * width - x, y)
    && InCorner(r.bottomRight, 8 * width - x, 8 * height - y)
    && InCorner(r.bottomLeft, x, 8 * height - y)
  }

  ghost function Rounded(width: int, height: int, r: Radii): Shape {
    (x, y) => InRounded(width, height, r, x, y)
  }

  /** The reference: how many samples of a pixel lie in the rounded rectangle. */
  ghost function Coverage(width: int, height: int, r: Radii, column: int, row: int): int {
    Tally(Rounded(width, height, r), column, row)
  }

  ghost function Corner(radius: int): Shape {
    (x, y) => InCorner(radius, x, y)
  }

  ghost function CornerLevel(radius: int, x: int, y: int): int {
    Tally(Corner(radius), x, y)
  }

  /** Pixels outside the corner square are not cut. */
  lemma OutsideCorner(radius: int, x: int, y: int)
    requires radius <= 0 || x >= radius || y >= radius
    ensures CornerLevel(radius, x, y) == LEVELS
  {
    TallyFull(Corner(radius), x, y);
  }

  lemma SquareShrinks(a: int, b: int)
    requires a <= b <= 0
    ensures Sq(b) <= Sq(a)
  {
    assert (a - b) * (a + b) >= 0;
  }

  /** Coverage grows towards the inside of a row. */
  lemma CornerMonotone(radius: int, x: int, x': int, y: int)
    requires 0 <= x <= x' && 0 <= y
    ensures CornerLevel(radius, x, y) <= CornerLevel(radius, x', y)
  {
    if radius <= 0 || x' >= radius || y >= radius {
      OutsideCorner(radius, x', y);
      TallyRange(Corner(radius), x, y);
    } else {
      var p := Corner(radius);
      forall n, m | 0 <= n < SAMPLES && 0 <= m < SAMPLES && p(At(x, n), At(y, m)) ensures p(At(x', n), At(y, m)) {
        SquareShrinks(At(x, n) - 8 * radius, At(x', n) - 8 * radius);
      }
      TallyLe(p, x, y, p, x', y, false, false);
    }
  }

  lemma SampleTest(radius: int, x: int, y: int)
    requires x < 8 * radius && y < 8 * radius && radius > 0
    ensures var px, py := x - 8 * radius, y - 8 * radius;
      InCorner(radius, x, y) <==> px * px + py * py <= 64 * (radius * radius)
  {
    assert Sq(8 * radius) == 64 * (radius * radius);
  }

  /** The inner loop of `CornerCoverage`. */
  method RowCoverage(radius: int, x: int, y: int, sampleY: int) returns (inside: int)
    requires 0 <= x < radius && 0 <= y < radius && 0 <= sampleY < SAMPLES
    ensures inside == RowTally(Corner(radius), x, At(y, sampleY), SAMPLES)
  {
    var py := 8 * y + 2 * sampleY + 1 - 8 * radius;
    inside := 0;
    for sampleX := 0 to SAMPLES
      invariant inside == RowTally(Corner(radius), x, At(y, sampleY), sampleX)
    {
      var px := 8 * x + 2 * sampleX + 1 - 8 * radius;
      SampleTest(radius, 8 * x + 2 * sampleX + 1, 8 * y + 2 * sampleY + 1);
      if px * px + py * py <= 64 * (radius * radius) { inside := inside + 1; }
    }
  }

  /** `CornerCoverage`, in sixteenths. */
  method CornerCoverage(radius: int, x: int, y: int) returns (level: int)
    requires 0 <= x && 0 <= y
    ensures level == CornerLevel(radius, x, y) && 0 <= level <= LEVELS
  {
    TallyRange(Corner(radius), x, y);
    if radius <= 0 || x >= radius || y >= radius {
      OutsideCorner(radius, x, y);
      return LEVELS;
    }
    level := 0;
    for sampleY := 0 to SAMPLES
      invariant level == TallyTo(Corner(radius), x, y, sampleY)
    {
      var inside := RowCoverage(radius, x, y, sampleY);
      level := level + inside;
    }
  }

  // ----- one row

  /** Every radius is at most half the smaller side. */
  predicate RadiusFits(width: int, height: int, radius: int) {
    0 <= radius && 2 * radius <= width && 2 * radius <= height
  }

  predicate RadiiFit(width: int, height: int, r: Radii) {
    && RadiusFits(width, height, r.topLeft) && RadiusFits(width, height, r.topRight)
    && RadiusFits(width, height, r.bottomRight) && RadiusFits(width, height, r.bottomLeft)
  }

  function Max(a: int, b: int): int {
    if a < b then b else a
  }

  predicate Top(r: Radii, row: int) {
    row < Max(r.topLeft, r.topRight)
  }

  predicate Bottom(height: int, r: Radii, row: int) {
    height - row - 1 < Max(r.bottomLeft, r.bottomRight)
  }

  function LeftRadius(height: int, r: Radii, row: int): int {
    if Top(r, row) then r.topLeft else if Bottom(height, r, row) then r.bottomLeft else 0
  }

  function RightRadius(height: int, r: Radii, row: int): int {
    if Top(r, row) then r.topRight else if Bottom(height, r, row) then r.bottomRight else 0
  }

  function CornerY(height: int, r: Radii, row: int): int {
    if Top(r, row) then row else height - row - 1
  }

  /** The level a row scan gives to a column. */
  ghost function ScanLevel(width: int, height: int, r: Radii, column: int, row: int): int {
    var y := CornerY(height, r, row);
    if column < LeftRadius(height, r, row) then CornerLevel(LeftRadius(height, r, row), column, y)
    else if width - column - 1 < RightRadius(height, r, row)
      then CornerLevel(RightRadius(height, r, row), width - column - 1, y)
    else LEVELS
  }

  ghost predicate InBox(width: int, height: int, column: int, row: int) {
    0 <= column < width && 0 <= row < height
  }

  lemma TopLeftQuadrant(width: int, height: int, r: Radii, x: int, y: int)
    requires RadiiFit(width, height, r) && x < 4 * width && y < 4 * height
    ensures InRounded(width, height, r, x, y) <==> InCorner(r.topLeft, x, y)
  {
  }

  lemma TopLeftLevel(width: int, height: int, r: Radii, column: int, row: int)
    requires RadiiFit(width, height, r) && InBox(width, height, column, row)
    requires Top(r, row) && column < r.topLeft
    ensures Coverage(width, height, r, column, row) == CornerLevel(r.topLeft, column, row)
  {
    var p, q := Rounded(width, height, r), Corner(r.topLeft);
    forall n, m | 0 <= n < SAMPLES && 0 <= m < SAMPLES
      ensures p(At(column, n), At(row, m)) == q(At(column, n), At(row, m))
    {
      TopLeftQuadrant(width, height, r, At(column, n), At(row, m));
    }
    TallyFlip(p, column, row, q, column, row, false, false);
  }

  lemma TopRightQuadrant(width: int, height: int, r: Radii, x: int, y: int)
    requires RadiiFit(width, height, r) && x > 4 * width && y < 4 * height
    ensures InRounded(width, height, r, x, y) <==> InCorner(r.topRight, 8 * width - x, y)
  {
  }

  lemma TopRightLevel(width: int, height: int, r: Radii, column: int, row: int)
    requires RadiiFit(width, height, r) && InBox(width, height, column, row)
    requires Top(r, row) && width - column - 1 < r.topRight
    ensures Coverage(width, height, r, column, row) == CornerLevel(r.topRight, width - column - 1, row)
  {
    var p, q := Rounded(width, height, r), Corner(r.topRight);
    forall n, m | 0 <= n < SAMPLES && 0 <= m < SAMPLES
      ensures p(At(column, n), At(row, m)) == q(At(width - column - 1, 3 - n), At(row, m))
    {
      TopRightQuadrant(width, height, r, At(column, n), At(row, m));
    }
    TallyFlip(p, column, row, q, width - column - 1, row, true, false);
  }

  lemma BottomLeftQuadrant(width: int, height: int, r: Radii, x: int, y: int)
    requires RadiiFit(width, height, r) && x < 4 * width && y > 4 * height
    ensures InRounded(width, height, r, x, y) <==> InCorner(r.bottomLeft, x, 8 * height - y)
  {
  }

  lemma BottomLeftLevel(width: int, height: int, r: Radii, column: int, row: int)
    requires RadiiFit(width, height, r) && InBox(width, height, column, row)
    requires !Top(r, row) && Bottom(height, r, row) && column < r.bottomLeft
    ensures Coverage(width, height, r, column, row) == CornerLevel(r.bottomLeft, column, height - row - 1)
  {
    var p, q := Rounded(width, height, r), Corner(r.bottomLeft);
    forall n, m | 0 <= n < SAMPLES && 0 <= m < SAMPLES
      ensures p(At(column, n), At(row, m)) == q(At(column, n), At(height - row - 1, 3 - m))
    {
      BottomLeftQuadrant(width, height, r, At(column, n), At(row, m));
    }
    TallyFlip(p, column, row, q, column, height - row - 1, false, true);
  }

  lemma BottomRightQuadrant(width: int, height: int, r: Radii, x: int, y: int)
    requires RadiiFit(width, height, r) && x > 4 * width && y > 4 * height
    ensures InRounded(width, height, r, x, y) <==> InCorner(r.bottomRight, 8 * width - x, 8 * height - y)
  {
  }

  lemma BottomRightLevel(width: int, height: int, r: Radii, column: int, row: int)
    requires RadiiFit(width, height, r) && InBox(width, height, column, row)
    requires !Top(r, row) && Bottom(height, r, row) && width - column - 1 < r.bottomRight
    ensures Coverage(width, height, r, column, row) == CornerLevel(r.bottomRight, width - column - 1, height - row - 1)
  {
    var p, q := Rounded(width, height, r), Corner(r.bottomRight);
    forall n, m | 0 <= n < SAMPLES && 0 <= m < SAMPLES
      ensures p(At(column, n), At(row, m)) == q(At(width - column - 1, 3 - n), At(height - row - 1, 3 - m))
    {
      BottomRightQuadrant(width, height, r, At(column, n), At(row, m));
    }
    TallyFlip(p, column, row, q, width - column - 1, height - row - 1, true, true);
  }

  lemma MiddleLevel(width: int, height: int, r: Radii, column: int, row: int)
    requires RadiiFit(width, height, r) && InBox(width, height, column, row)
    requires column >= LeftRadius(height, r, row) && width - column - 1 >= RightRadius(height, r, row)
    ensures Coverage(width, height, r, column, row) == LEVELS
  {
    TallyFull(Rounded(width, height, r), column, row);
  }

  /** What the scan assigns is the geometric coverage. */
  lemma ScanIsCoverage(width: int, height: int, r: Radii, column: int, row: int)
    requires RadiiFit(width, height, r) && InBox(width, height, column, row)
    ensures ScanLevel(width, height, r, column, row) == Coverage(width, height, r, column, row)
  {
    if column < LeftRadius(height, r, row) {
      if Top(r, row) { TopLeftLevel(width, height, r, column, row); }
        else { BottomLeftLevel(width, height, r, column, row); }
    } else if width - column - 1 < RightRadius(height, r, row) {
      if Top(r, row) { TopRightLevel(width, height, r, column, row); }
        else { BottomRightLevel(width, height, r, column, row); }
    } else {
      MiddleLevel(width, height, r, column, row);
    }
  }

  // ----- the builder

  class RoundedRegions {
    var opaqueRegion: set<Point>
    var partial: seq<set<Point>>  // partial[l - 1] holds the pixels of level l

    constructor ()
      ensures opaqueRegion == {} && |partial| == LEVELS - 1 && forall l :: 0 <= l < LEVELS - 1 ==> partial[l] == {}
    {
      opaqueRegion := {};
      partial := seq(LEVELS - 1, _ => {});
    }
  }

  /** How far a pixel of a row lies from the side where the scan starts. */
  function Offset(box: Box, fromRight: bool, q: Point): int {
    if fromRight then box.x + box.width - q.x - 1 else q.x - box.x
  }

  ghost predicate ScannedTo(box: Box, radius: int, row: int, y: int, fromRight: bool, q: Point, x: int, level: int) {
    q.y == box.y + row && 0 <= Offset(box, fromRight, q) < x &&
      CornerLevel(radius, Offset(box, fromRight, q), y) == level
  }

  /** The pixels of each level among the first `x` of a side, added to what was there. */
  ghost predicate SideScanned(before: seq<set<Point>>, after: seq<set<Point>>, box: Box, radius: int, row: int, y: int,
                              fromRight: bool, x: int)
  {
    |before| == |after| == LEVELS - 1 &&
    forall l, q :: 0 <= l < LEVELS - 1 ==>
      (q in after[l] <==> q in before[l] || ScannedTo(box, radius, row, y, fromRight, q, x, l + 1))
  }

  method AddPixel(regions: RoundedRegions, box: Box, radius: int, row: int, y: int, fromRight: bool, x: int, level: int,
                  ghost before: seq<set<Point>>)
    requires SideScanned(before, regions.partial, box, radius, row, y, fromRight, x)
    requires 0 <= x && level == CornerLevel(radius, x, y) && 0 <= level < LEVELS
    modifies regions`partial
    ensures SideScanned(before, regions.partial, box, radius, row, y, fromRight, x + 1)
  {
    var q := Point(if fromRight then box.x + box.width - x - 1 else box.x + x, box.y + row);
    ghost var was := regions.partial;
    if level > 0 {
      regions.partial := regions.partial[level - 1 := regions.partial[level - 1] + {q}];
    }
    forall l, p | 0 <= l < LEVELS - 1
      ensures p in regions.partial[l] <==> p in before[l] || ScannedTo(box, radius, row, y, fromRight, p, x + 1, l + 1)
    {
      assert p in was[l] <==> p in before[l] || ScannedTo(box, radius, row, y, fromRight, p, x, l + 1);
      assert Offset(box, fromRight, p) == x && p.y == box.y + row <==> p == q;
    }
  }

  /** The scan of one side of a row: it stops at the first fully covered pixel. */
  method ScanSide(regions: RoundedRegions, box: Box, radius: int, row: int, y: int, fromRight: bool)
      returns (covered: int)
    requires |regions.partial| == LEVELS - 1 && 0 <= y && 0 <= radius
    modifies regions`partial
    ensures SideScanned(old(regions.partial), regions.partial, box, radius, row, y, fromRight, covered)
    ensures SideEnds(radius, y, covered)
  {
    covered := 0;
    while covered < radius
      invariant 0 <= covered <= radius
      invariant SideScanned(old(regions.partial), regions.partial, box, radius, row, y, fromRight, covered)
      invariant forall x :: 0 <= x < covered ==> CornerLevel(radius, x, y) < LEVELS
    {
      var level := CornerCoverage(radius, covered, y);
      if level == LEVELS { break; }
      AddPixel(regions, box, radius, row, y, fromRight, covered, level, old(regions.partial));
      covered := covered + 1;
    }
    FullBeyond(radius, covered, y);
  }

  /** Coverage being monotone, nothing is missed after the first full pixel. */
  lemma FullBeyond(radius: int, x: int, y: int)
    requires 0 <= x && 0 <= y && (x < radius ==> CornerLevel(radius, x, y) == LEVELS)
    ensures forall x' :: x <= x' ==> CornerLevel(radius, x', y) == LEVELS
  {
    forall x' | x <= x' ensures CornerLevel(radius, x', y) == LEVELS {
      if x < radius {
        CornerMonotone(radius, x, x', y);
        TallyRange(Corner(radius), x', y);
      } else {
        OutsideCorner(radius, x', y);
      }
    }
  }

  ghost predicate RowHas(box: Box, r: Radii, row: int, q: Point, level: int) {
    q.y == box.y + row && box.x <= q.x < box.x + box.width &&
      ScanLevel(box.width, box.height, r, q.x - box.x, row) == level
  }

  /** A row has been sorted into the regions. */
  ghost predicate RowBuilt(before: seq<set<Point>>, after: seq<set<Point>>, solid: set<Point>, solid': set<Point>,
                           box: Box, r: Radii, row: int)
  {
    && |before| == |after| == LEVELS - 1
    && (forall l, q :: 0 <= l < LEVELS - 1 ==> (q in after[l] <==> q in before[l] || RowHas(box, r, row, q, l + 1)))
    && forall q :: q in solid' <==> q in solid || RowHas(box, r, row, q, LEVELS)
  }

  /** What a scan found: the first `n` pixels of a side are cut, all others are whole. */
  ghost predicate SideEnds(radius: int, y: int, n: int) {
    && 0 <= n <= radius
    && (forall x :: 0 <= x < n ==> CornerLevel(radius, x, y) < LEVELS)
    && (forall x :: n <= x ==> CornerLevel(radius, x, y) == LEVELS)
  }

  /** A column of a row against both scans. */
  lemma ColumnLevel(box: Box, r: Radii, row: int, column: int, left: int, right: int)
    requires RadiiFit(box.width, box.height, r) && InBox(box.width, box.height, column, row)
    requires SideEnds(LeftRadius(box.height, r, row), CornerY(box.height, r, row), left)
    requires SideEnds(RightRadius(box.height, r, row), CornerY(box.height, r, row), right)
    ensures var level := ScanLevel(box.width, box.height, r, column, row); var x := box.width - column - 1;
      && left + right <= box.width
      && (column < left ==>
        level == CornerLevel(LeftRadius(box.height, r, row), column, CornerY(box.height, r, row)) < LEVELS)
      && (x < right ==> level == CornerLevel(RightRadius(box.height, r, row), x, CornerY(box.height, r, row)) < LEVELS)
      && (column >= left && x >= right ==> level == LEVELS)
  {
  }

  /** The pixels of a rectangle one row high. */
  function Span(x: int, y: int, width: int): (s: set<Point>)
    ensures forall q :: q in s <==> q.y == y && x <= q.x < x + width
    decreases width
  {
    if width <= 0 then {} else Span(x, y, width - 1) + {Point(x + width - 1, y)}
  }

  /** One row: both sides are scanned and the rest is opaque. */
  method BuildRow(regions: RoundedRegions, box: Box, r: Radii, row: int)
    requires RadiiFit(box.width, box.height, r) && 0 <= row < box.height && 0 < box.width
    requires |regions.partial| == LEVELS - 1
    modifies regions
    ensures RowBuilt(old(regions.partial), regions.partial, old(regions.opaqueRegion), regions.opaqueRegion, box, r,
      row)
  {
    var top := row < Max(r.topLeft, r.topRight);
    var bottom := box.height - row - 1 < Max(r.bottomLeft, r.bottomRight);
    var leftRadius := if top then r.topLeft else if bottom then r.bottomLeft else 0;
    var rightRadius := if top then r.topRight else if bottom then r.bottomRight else 0;
    var cornerY := if top then row else box.height - row - 1;
    var left := ScanSide(regions, box, leftRadius, row, cornerY, false);
    ghost var between := regions.partial;
    var right := ScanSide(regions, box, rightRadius, row, cornerY, true);
    var width := box.width - left - right;
    if width > 0 {
      regions.opaqueRegion := regions.opaqueRegion + Span(box.x + left, box.y + row, width);
    }
    RowFromSides(old(regions.partial), between, regions.partial, box, r, row, left, right);
    forall q ensures q in regions.opaqueRegion <==> q in old(regions.opaqueRegion) || RowHas(box, r, row, q, LEVELS) {
      if box.x <= q.x < box.x + box.width { ColumnLevel(box, r, row, q.x - box.x, left, right); }
    }
  }

  lemma RowFromSides(before: seq<set<Point>>, between: seq<set<Point>>, after: seq<set<Point>>, box: Box, r: Radii,
      row: int,
                     left: int, right: int)
    requires RadiiFit(box.width, box.height, r) && 0 <= row < box.height
    requires SideEnds(LeftRadius(box.height, r, row), CornerY(box.height, r, row), left)
    requires SideEnds(RightRadius(box.height, r, row), CornerY(box.height, r, row), right)
    requires SideScanned(before, between, box, LeftRadius(box.height, r, row), row, CornerY(box.height, r, row), false,
      left)
    requires SideScanned(between, after, box, RightRadius(box.height, r, row), row, CornerY(box.height, r, row), true,
      right)
    ensures forall l, q :: 0 <= l < LEVELS - 1 ==> (q in after[l] <==> q in before[l] || RowHas(box, r, row, q, l + 1))
  {
    forall l, q | 0 <= l < LEVELS - 1 ensures q in after[l] <==> q in before[l] || RowHas(box, r, row, q, l + 1) {
      if box.x <= q.x < box.x + box.width { ColumnLevel(box, r, row, q.x - box.x, left, right); }
    }
  }

  ghost predicate Has(box: Box, r: Radii, rows: int, q: Point, level: int) {
    && box.x <= q.x < box.x + box.width && box.y <= q.y < box.y + rows
    && Coverage(box.width, box.height, r, q.x - box.x, q.y - box.y) == level
  }

  /** The first rows of a box sorted by coverage. */
  ghost predicate Built(before: seq<set<Point>>, after: seq<set<Point>>, solid: set<Point>, solid': set<Point>,
                        box: Box, r: Radii, rows: int)
  {
    && |before| == |after| == LEVELS - 1
    && (forall l, q :: 0 <= l < LEVELS - 1 ==> (q in after[l] <==> q in before[l] || Has(box, r, rows, q, l + 1)))
    && forall q :: q in solid' <==> q in solid || Has(box, r, rows, q, LEVELS)
  }

  lemma RowHasCoverage(box: Box, r: Radii, row: int, q: Point, level: int)
    requires RadiiFit(box.width, box.height, r) && 0 <= row < box.height
    ensures Has(box, r, row + 1, q, level) <==> Has(box, r, row, q, level) || RowHas(box, r, row, q, level)
  {
    if box.x <= q.x < box.x + box.width && q.y == box.y + row {
      ScanIsCoverage(box.width, box.height, r, q.x - box.x, row);
    }
  }

  lemma NextRow(p0: seq<set<Point>>, p1: seq<set<Point>>, p2: seq<set<Point>>, s0: set<Point>, s1: set<Point>,
      s2: set<Point>,
                box: Box, r: Radii, row: int)
    requires RadiiFit(box.width, box.height, r) && 0 <= row < box.height
    requires Built(p0, p1, s0, s1, box, r, row) && RowBuilt(p1, p2, s1, s2, box, r, row)
    ensures Built(p0, p2, s0, s2, box, r, row + 1)
  {
    forall l, q | 0 <= l < LEVELS - 1 ensures q in p2[l] <==> q in p0[l] || Has(box, r, row + 1, q, l + 1) {
      RowHasCoverage(box, r, row, q, l + 1);
    }
    forall q ensures q in s2 <==> q in s0 || Has(box, r, row + 1, q, LEVELS) {
      RowHasCoverage(box, r, row, q, LEVELS);
    }
  }

  datatype Clip = NoClip | ClipTo(region: set<Point>)

  function Clipped(region: set<Point>, clip: Clip): set<Point> {
    if clip.ClipTo? then region * clip.region else region
  }

  ghost predicate InClip(clip: Clip, q: Point) {
    clip.ClipTo? ==> q in clip.region
  }

  /** `BuildRoundedRegions`, for every box and all radii within half its smaller side: each
      pixel goes to the region of its coverage, and uncovered pixels go nowhere. */
  method BuildRoundedRegions(box: Box, r: Radii, clip: Clip, regions: RoundedRegions)
    requires box.width > 0 && box.height > 0 ==> RadiiFit(box.width, box.height, r)
    requires |regions.partial| == LEVELS - 1
    modifies regions
    ensures |regions.partial| == LEVELS - 1
    ensures box.width > 0 && box.height > 0 ==>
      forall l, q :: 0 <= l < LEVELS - 1 ==>
        (q in regions.partial[l] <==>
          InClip(clip, q) && (q in old(regions.partial[l]) || Has(box, r, box.height, q, l + 1)))
    ensures box.width > 0 && box.height > 0 ==>
      forall q :: q in regions.opaqueRegion <==>
        InClip(clip, q) && (q in old(regions.opaqueRegion) || Has(box, r, box.height, q, LEVELS))
    ensures box.width <= 0 || box.height <= 0 ==>
      regions.partial == old(regions.partial) && regions.opaqueRegion == old(regions.opaqueRegion)
  {
    if box.width <= 0 || box.height <= 0 { return; }
    for row := 0 to box.height
      invariant Built(old(regions.partial), regions.partial, old(regions.opaqueRegion), regions.opaqueRegion, box, r,
        row)
    {
      ghost var p, s := regions.partial, regions.opaqueRegion;
      BuildRow(regions, box, r, row);
      NextRow(old(regions.partial), p, regions.partial, old(regions.opaqueRegion), s, regions.opaqueRegion, box, r,
        row);
    }
    label drawn:
    ghost var p := regions.partial;
    regions.opaqueRegion := Clipped(regions.opaqueRegion, clip);
    for l := 0 to LEVELS - 1
      invariant |regions.partial| == LEVELS - 1
      invariant forall i :: 0 <= i < LEVELS - 1 ==> regions.partial[i] == if i < l then Clipped(p[i], clip) else p[i]
      invariant regions.opaqueRegion == Clipped(old@drawn(regions.opaqueRegion), clip)
    {
      regions.partial := regions.partial[l := Clipped(regions.partial[l], clip)];
    }
  }

  /** From empty regions, every pixel of the box inside the clip lies in exactly the region of
      its coverage count. */
  lemma OneRegionPerPixel(box: Box, r: Radii, q: Point)
    requires box.x <= q.x < box.x + box.width && box.y <= q.y < box.y + box.height
    ensures exists level :: 0 <= level <= LEVELS && Has(box, r, box.height, q, level)
    ensures forall level, other :: Has(box, r, box.height, q, level) && Has(box, r, box.height, q, other) ==>
      other == level
  {
    TallyRange(Rounded(box.width, box.height, r), q.x - box.x, q.y - box.y);
    assert Has(box, r, box.height, q, Coverage(box.width, box.height, r, q.x - box.x, q.y - box.y));
  }

  /** A pixel of the box that is covered at all. */
  ghost predicate Touched(box: Box, r: Radii, q: Point) {
    && box.x <= q.x < box.x + box.width && box.y <= q.y < box.y + box.height
    && Coverage(box.width, box.height, r, q.x - box.x, q.y - box.y) > 0
  }

  ghost predicate Apart(a: set<Point>, b: set<Point>) {
    forall q :: q in a ==> q !in b
  }

  /** Regions built from empty ones do not overlap, and together they hold exactly the pixels
      inside the clip that are covered at all. */
  lemma RegionsDisjoint(partial: seq<set<Point>>, solid: set<Point>, box: Box, r: Radii, clip: Clip)
    requires |partial| == LEVELS - 1
    requires forall l, q :: 0 <= l < LEVELS - 1 ==>
      (q in partial[l] <==> InClip(clip, q) && Has(box, r, box.height, q, l + 1))
    requires forall q :: q in solid <==> InClip(clip, q) && Has(box, r, box.height, q, LEVELS)
    ensures forall l :: 0 <= l < LEVELS - 1 ==> Apart(partial[l], solid)
    ensures forall l, m :: 0 <= l < m < LEVELS - 1 ==> Apart(partial[l], partial[m])
    ensures forall q :: (q in solid || exists l :: 0 <= l < LEVELS - 1 && q in partial[l]) <==>
      InClip(clip, q) && Touched(box, r, q)
  {
    forall q ensures (q in solid || exists l :: 0 <= l < LEVELS - 1 && q in partial[l]) <==>
      InClip(clip, q) && Touched(box, r, q)
    {
      if InClip(clip, q) && Touched(box, r, q) {
        var c := Coverage(box.width, box.height, r, q.x - box.x, q.y - box.y);
        TallyRange(Rounded(box.width, box.height, r), q.x - box.x, q.y - box.y);
        assert Has(box, r, box.height, q, c);
        if 0 < c < LEVELS { assert q in partial[c - 1]; }
      }
    }
  }

  /** Empty regions filled for one box. */
  method BuildDisjoint(box: Box, r: Radii, clip: Clip) returns (regions: RoundedRegions)
    requires box.width > 0 && box.height > 0 ==> RadiiFit(box.width, box.height, r)
    ensures |regions.partial| == LEVELS - 1 && forall l :: 0 <= l < LEVELS - 1 ==>
      Apart(regions.partial[l], regions.opaqueRegion)
    ensures forall l, m :: 0 <= l < m < LEVELS - 1 ==> Apart(regions.partial[l], regions.partial[m])
    ensures forall q :: (q in regions.opaqueRegion || exists l :: 0 <= l < LEVELS - 1 && q in regions.partial[l]) <==>
      InClip(clip, q) && Touched(box, r, q)
  {
    regions := new RoundedRegions();
    ghost var empty := regions.partial;
    assert forall l, q :: 0 <= l < LEVELS - 1 ==> q !in empty[l];
    BuildRoundedRegions(box, r, clip, regions);
    forall l, q | 0 <= l < LEVELS - 1 ensures q in regions.partial[l] <==>
      InClip(clip, q) && Has(box, r, box.height, q, l + 1) {
      assert q !in empty[l];
    }
    RegionsDisjoint(regions.partial, regions.opaqueRegion, box, r, clip);
  }

  // ----- the radii

  /** `std::lround`: to the nearest integer, halves away from zero. */
  function Round(x: real): (r: int)
    ensures -0.5 <= x - r as real <= 0.5
  {
    if x >= 0.0 then (x + 0.5).Floor else -((0.5 - x).Floor)
  }

  /** A radius scaled and kept within the limit; one that fits is kept to the nearest pixel. */
  function ScaledRadius(radius: int, scale: real, limit: int): (r: int)
    requires 0 <= limit
    ensures 0 <= r <= limit
    ensures var exact := radius as real * scale;
      && (0.0 <= exact <= limit as real ==> -0.5 <= exact - r as real <= 0.5)
      && (exact <= 0.0 ==> r == 0) && (exact >= limit as real ==> r == limit)
  {
    var rounded := Round(radius as real * scale);
    if rounded < 0 then 0 else if rounded > limit then limit else rounded
  }

  /** The smaller of the two ratios between destination and surface. */
  function Ratio(width: int, height: int, surfaceWidth: int, surfaceHeight: int): real {
    var sx, sy := width as real / Max(surfaceWidth, 1) as real, height as real / Max(surfaceHeight, 1) as real;
    if sx < sy then sx else sy
  }

  function Limit(width: int, height: int): (r: int)
    ensures 0 <= r && (width >= 0 && height >= 0 ==> RadiusFits(width, height, r) && !RadiusFits(width, height, r + 1))
  {
    Max(0, (if width < height then width else height) / 2)
  }

  /** `ScaledRadii` gives the builder radii it can draw, whatever the surface asked for. */
  method ScaledRadii(round: Radii, surfaceWidth: int, surfaceHeight: int, box: Box) returns (r: Radii)
    ensures box.width > 0 && box.height > 0 ==> RadiiFit(box.width, box.height, r)
    ensures var scale, limit := Ratio(box.width, box.height, surfaceWidth, surfaceHeight), Limit(box.width, box.height);
      && r.topLeft == ScaledRadius(round.topLeft, scale, limit) &&
        r.topRight == ScaledRadius(round.topRight, scale, limit)
      && r.bottomRight == ScaledRadius(round.bottomRight, scale, limit) &&
        r.bottomLeft == ScaledRadius(round.bottomLeft, scale, limit)
  {
    var scale := Ratio(box.width, box.height, surfaceWidth, surfaceHeight);
    var limit := Limit(box.width, box.height);
    r := Radii(ScaledRadius(round.topLeft, scale, limit), ScaledRadius(round.topRight, scale, limit),
               ScaledRadius(round.bottomRight, scale, limit), ScaledRadius(round.bottomLeft, scale, limit));
  }
}

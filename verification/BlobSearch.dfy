/** color.c: finding a coloured blob and growing its box, over an image given by which pixels match. */
module BlobSearch {
  import opened Options

  const IMG_W := 320
  const IMG_H := 480

  type Image = (int, int) -> bool

  // -------------------------------------------------------------- the centre

  /** Probe k of the cell at (j, i): along the middle row first, then along the middle column. */
  function Probe(m: Image, j: int, i: int, sx: nat, sy: nat, k: nat): bool {
    if k < sx then m(j + k, i + sy / 2) else m(j + sx / 2, i + k - sx)
  }

  /** The mismatches among the first k probes */
  function Mismatches(m: Image, j: int, i: int, sx: nat, sy: nat, k: nat): nat {
    if k == 0 then 0 else Mismatches(m, j, i, sx, sy, k - 1) + (if Probe(m, j, i, sx, sy, k - 1) then 0 else 1)
  }

  predicate Hit(m: Image, j: int, i: int, sx: nat, sy: nat) {
    Mismatches(m, j, i, sx, sy, sx + sy) <= 6
  }

  lemma {:induction false} MismatchesGrow(m: Image, j: int, i: int, sx: nat, sy: nat, k: nat, l: nat)
    requires k <= l
    ensures Mismatches(m, j, i, sx, sy, k) <= Mismatches(m, j, i, sx, sy, l)
  {
    if k < l { MismatchesGrow(m, j, i, sx, sy, k, l - 1); }
  }

  /** The row-major grid: cell (r, c) begins at (xs + c * sx, ys + r * sy). */
  datatype Area = Area(xs: nat, xe: nat, ys: nat, ye: nat)

  function Origin(start: nat, step: nat, k: nat): nat {
    start + k * step
  }

  ghost predicate CellHit(m: Image, a: Area, sx: nat, sy: nat, r: nat, c: nat) {
    Hit(m, Origin(a.xs, sx, c), Origin(a.ys, sy, r), sx, sy)
  }

  ghost predicate InGrid(a: Area, sx: nat, sy: nat, r: nat, c: nat) {
    Origin(a.xs, sx, c) < a.xe && Origin(a.ys, sy, r) < a.ye
  }

  /** Cell (r, c) comes before (q, d) in the search. */
  predicate Earlier(r: nat, c: nat, q: nat, d: nat) {
    r < q || (r == q && c < d)
  }

  /** The probes of one cell, given up after the seventh mismatch */
  method ProbeCell(m: Image, j: int, i: int, sx: nat, sy: nat) returns (hit: bool)
    ensures hit == Hit(m, j, i, sx, sy)
  {
    var failCount, k := 0, 0;
    while k < sx + sy
      invariant k <= sx + sy && failCount == Mismatches(m, j, i, sx, sy, k) <= 6
    {
      if !Probe(m, j, i, sx, sy, k) { failCount := failCount + 1; }
      if failCount > 6 {
        MismatchesGrow(m, j, i, sx, sy, k + 1, sx + sy);
        break;
      }
      k := k + 1;
    }
    hit := k == sx + sy;
  }

  lemma OriginStep(start: nat, step: nat, k: nat)
    ensures Origin(start, step, k + 1) == Origin(start, step, k) + step && Origin(start, step, 0) == start
  {
  }

  lemma {:induction false} OriginGrows(start: nat, step: nat, k: nat, l: nat)
    requires k <= l
    ensures Origin(start, step, k) <= Origin(start, step, l)
    decreases l
  {
    hide Origin;
    if k < l {
      OriginGrows(start, step, k, l - 1);
      OriginStep(start, step, l - 1);
    }
  }

  /** SearchCenter: the centre of the first cell of the grid that is hit, and none exactly when no cell is.
      The steps are a third of the smallest blob and not zero. */
  method SearchCenter(m: Image, a: Area, widthMin: nat, heightMin: nat)
      returns (found: bool, x: nat, y: nat, ghost r: nat, ghost c: nat)
    requires widthMin >= 3 && heightMin >= 3
    ensures var sx, sy := widthMin / 3, heightMin / 3;
            && (found ==> InGrid(a, sx, sy, r, c) && CellHit(m, a, sx, sy, r, c)
                          && x == Origin(a.xs, sx, c) + sx / 2 && y == Origin(a.ys, sy, r) + sy / 2
                          && forall q: nat, d: nat :: InGrid(a, sx, sy, q, d) && Earlier(q, d, r, c) ==>
                              !CellHit(m, a, sx, sy, q, d))
            && (!found ==> forall q: nat, d: nat :: InGrid(a, sx, sy, q, d) ==> !CellHit(m, a, sx, sy, q, d))
  {
    var sx, sy := widthMin / 3, heightMin / 3;
    var i := a.ys;
    found, x, y, r, c := false, 0, 0, 0, 0;
    OriginStep(a.ys, sy, 0);
    hide Origin, Hit;
    while i < a.ye
      invariant i == Origin(a.ys, sy, r)
      invariant forall q: nat, d: nat :: InGrid(a, sx, sy, q, d) && q < r ==> !CellHit(m, a, sx, sy, q, d)
      decreases a.ye - i
    {
      var j := a.xs;
      c := 0;
      OriginStep(a.xs, sx, 0);
      while j < a.xe
        invariant j == Origin(a.xs, sx, c)
        invariant forall d: nat :: d < c ==> !CellHit(m, a, sx, sy, r, d)
        decreases a.xe - j
      {
        var hit := ProbeCell(m, j, i, sx, sy);
        if hit {
          return true, j + sx / 2, i + sy / 2, r, c;
        }
        OriginStep(a.xs, sx, c);
        j := j + sx;
        c := c + 1;
      }
      forall q: nat, d: nat | InGrid(a, sx, sy, q, d) && q < r + 1
        ensures !CellHit(m, a, sx, sy, q, d)
      {
        if q == r && d >= c { OriginGrows(a.xs, sx, c, d); }
      }
      OriginStep(a.ys, sy, r);
      i := i + sy;
      r := r + 1;
    }
    forall q: nat, d: nat | InGrid(a, sx, sy, q, d)
      ensures !CellHit(m, a, sx, sy, q, d)
    {
      if q >= r { OriginGrows(a.ys, sy, r, q); }
    }
  }

  // ---------------------------------------------------------------- scan lines

  type Line = int -> bool

  function Row(m: Image, y: int): Line {
    (x: int) => m(x, y)
  }

  function Column(m: Image, x: int): Line {
    (y: int) => m(x, y)
  }

  /** The mismatches on a line from a to b, b not included */
  function Fails(line: Line, a: int, b: int): nat
    decreases b - a
  {
    if a >= b then 0 else Fails(line, a, b - 1) + (if line(b - 1) then 0 else 1)
  }

  lemma {:induction false} FailsLow(line: Line, a: int, b: int)
    requires a < b
    ensures Fails(line, a, b) == Fails(line, a + 1, b) + (if line(a) then 0 else 1)
    decreases b - a
  {
    if a + 1 < b { FailsLow(line, a, b - 1); }
  }

  /** Scanning up from start stops at p: at the first mismatch over the budget, or at the edge hi. */
  ghost predicate StopUp(line: Line, start: int, hi: int, budget: nat, p: int) {
    && start <= p <= hi
    && (forall i {:trigger Fails(line, start, i)} :: start < i <= p ==> Fails(line, start, i) <= budget)
    && (p == hi || Fails(line, start, p + 1) > budget)
  }

  ghost predicate StopDown(line: Line, start: int, lo: int, budget: nat, p: int) {
    && lo <= p <= start
    && (forall i {:trigger Fails(line, i, start + 1)} :: p < i <= start ==> Fails(line, i, start + 1) <= budget)
    && (p == lo || Fails(line, p, start + 1) > budget)
  }

  /** A scan has one stop only. */
  lemma StopUnique(line: Line, start: int, hi: int, budget: nat, p: int, q: int)
    ensures StopUp(line, start, hi, budget, p) && StopUp(line, start, hi, budget, q) ==> p == q
    ensures StopDown(line, start, hi, budget, p) && StopDown(line, start, hi, budget, q) ==> p == q
  {
  }

  method ScanUp(line: Line, start: int, hi: int, budget: nat) returns (p: int)
    requires start <= hi
    ensures StopUp(line, start, hi, budget, p)
  {
    var failCount := 0;
    p := start;
    while p < hi
      invariant start <= p <= hi && failCount == Fails(line, start, p) <= budget
      invariant forall i {:trigger Fails(line, start, i)} :: start < i <= p ==> Fails(line, start, i) <= budget
    {
      if !line(p) { failCount := failCount + 1; }
      if failCount > budget { break; }
      p := p + 1;
    }
  }

  method ScanDown(line: Line, start: int, lo: int, budget: nat) returns (p: int)
    requires lo <= start
    ensures StopDown(line, start, lo, budget, p)
  {
    var failCount := 0;
    p := start;
    while p > lo
      invariant lo <= p <= start && failCount == Fails(line, p + 1, start + 1) <= budget
      invariant forall i {:trigger Fails(line, i, start + 1)} :: p < i <= start ==> Fails(line, i, start + 1) <= budget
    {
      FailsLow(line, p, start + 1);
      if !line(p) { failCount := failCount + 1; }
      if failCount > budget { break; }
      p := p - 1;
    }
  }

  /** A cell is hit when its middle row and its middle column have six mismatches together at most. */
  lemma HitIs(m: Image, j: int, i: int, sx: nat, sy: nat)
    ensures Hit(m, j, i, sx, sy) <==>
            Fails(Row(m, i + sy / 2), j, j + sx) + Fails(Column(m, j + sx / 2), i, i + sy) <= 6
  {
    RowProbes(m, j, i, sx, sy, sx);
    ColumnProbes(m, j, i, sx, sy, sy);
  }

  lemma {:induction false} RowProbes(m: Image, j: int, i: int, sx: nat, sy: nat, k: nat)
    requires k <= sx
    ensures Mismatches(m, j, i, sx, sy, k) == Fails(Row(m, i + sy / 2), j, j + k)
  {
    if k > 0 { RowProbes(m, j, i, sx, sy, k - 1); }
  }

  lemma {:induction false} ColumnProbes(m: Image, j: int, i: int, sx: nat, sy: nat, k: nat)
    requires k <= sy
    ensures Mismatches(m, j, i, sx, sy, sx + k)
            == Mismatches(m, j, i, sx, sy, sx) + Fails(Column(m, j + sx / 2), i, i + k)
  {
    if k > 0 { ColumnProbes(m, j, i, sx, sy, k - 1); }
  }

  // ------------------------------------------------------------------ the box

  /** e is the least stop of the downward scans of the lines a to b, and of first. */
  ghost predicate LeastStop(lines: int -> Line, a: int, b: int, start: int, budget: nat, first: int, e: int) {
    && e <= first
    && (forall i, p :: a <= i < b && StopDown(lines(i), start, 0, budget, p) ==> e <= p)
    && (e == first || exists i :: a <= i < b && StopDown(lines(i), start, 0, budget, e))
  }

  ghost predicate GreatestStop(lines: int -> Line, a: int, b: int, start: int, hi: int, budget: nat, first: int,
      e: int) {
    && first <= e
    && (forall i, p :: a <= i < b && StopUp(lines(i), start, hi, budget, p) ==> p <= e)
    && (e == first || exists i :: a <= i < b && StopUp(lines(i), start, hi, budget, e))
  }

  function Columns(m: Image): int -> Line {
    (x: int) => Column(m, x)
  }

  function Rows(m: Image): int -> Line {
    (y: int) => Row(m, y)
  }

  /** One line more */
  lemma LeastNext(lines: int -> Line, a: int, b: int, start: int, budget: nat, first: int, e: int, p: int)
    requires LeastStop(lines, a, b, start, budget, first, e) && a <= b && StopDown(lines(b), start, 0, budget, p)
    ensures LeastStop(lines, a, b + 1, start, budget, first, if p < e then p else e)
  {
    forall i, q | a <= i < b + 1 && StopDown(lines(i), start, 0, budget, q)
      ensures (if p < e then p else e) <= q
    {
      if i == b { StopUnique(lines(b), start, 0, budget, p, q); }
    }
  }

  lemma GreatestNext(lines: int -> Line, a: int, b: int, start: int, hi: int, budget: nat, first: int, e: int, p: int)
    requires GreatestStop(lines, a, b, start, hi, budget, first, e) && a <= b && StopUp(lines(b), start, hi, budget, p)
    ensures GreatestStop(lines, a, b + 1, start, hi, budget, first, if p > e then p else e)
  {
    forall i, q | a <= i < b + 1 && StopUp(lines(i), start, hi, budget, q)
      ensures q <= (if p > e then p else e)
    {
      if i == b { StopUnique(lines(b), start, hi, budget, p, q); }
    }
  }

  /** The box of Corrode before it is trimmed */
  datatype Box = Box(xmin: int, xmax: int, ymin: int, ymax: int)

  /** The columns up to x have already been as high as the whole box. */
  ghost predicate FullHeight(m: Image, left: int, x: int, y: int, budget: nat, ymin: int, ymax: int) {
    LeastStop(Columns(m), left, x + 1, y, budget, y, ymin)
        && GreatestStop(Columns(m), left, x + 1, y, IMG_H, budget, y, ymax)
  }

  /** The vertical scans of the columns left to right from row y: the least and greatest stop, and the first
      column at which the box reached its final height, if it has any. */
  method GrowY(m: Image, left: int, right: int, y: int, budget: nat) returns (ymin: int, ymax: int, disX: Option<int>)
    requires 0 <= y < IMG_H && left <= right
    ensures 0 <= ymin <= y <= ymax <= IMG_H
    ensures LeastStop(Columns(m), left, right, y, budget, y, ymin)
    ensures GreatestStop(Columns(m), left, right, y, IMG_H, budget, y, ymax)
    ensures disX.Some? ==> left <= disX.value < right && FullHeight(m, left, disX.value, y, budget, ymin, ymax)
    ensures ymin < ymax <==> disX.Some?
    ensures disX.Some? ==> forall x :: left <= x < disX.value ==> !FullHeight(m, left, x, y, budget, ymin, ymax)
  {
    ymin, ymax, disX := y, y, None;
    var distance := 0;
    var i := left;
    while i < right
      invariant left <= i <= right && 0 <= ymin <= y <= ymax <= IMG_H && distance == ymax - ymin
      invariant LeastStop(Columns(m), left, i, y, budget, y, ymin)
      invariant GreatestStop(Columns(m), left, i, y, IMG_H, budget, y, ymax)
      invariant disX.Some? ==> left <= disX.value < i && FullHeight(m, left, disX.value, y, budget, ymin, ymax)
      invariant distance > 0 <==> disX.Some?
      invariant disX.Some? ==> forall x :: left <= x < disX.value ==> !FullHeight(m, left, x, y, budget, ymin, ymax)
    {
      ghost var ymin0, ymax0 := ymin, ymax;
      var j := ScanDown(Columns(m)(i), y, 0, budget);
      LeastNext(Columns(m), left, i, y, budget, y, ymin, j);
      if j < ymin { ymin := j; }
      var aa := ScanUp(Columns(m)(i), y, IMG_H, budget);
      GreatestNext(Columns(m), left, i, y, IMG_H, budget, y, ymax, aa);
      if aa > ymax { ymax := aa; }
      if ymax - ymin > distance {
        HigherNow(m, left, i, y, budget, ymin0, ymax0, ymin, ymax);
        distance := ymax - ymin;
        disX := Some(i);
      }
      i := i + 1;
    }
  }

  /** No earlier column was as high as the box is with column i. */
  lemma HigherNow(m: Image, left: int, i: int, y: int, budget: nat, ymin: int, ymax: int, ymin': int, ymax': int)
    requires LeastStop(Columns(m), left, i, y, budget, y, ymin)
    requires GreatestStop(Columns(m), left, i, y, IMG_H, budget, y, ymax)
    requires ymax' - ymin' > ymax - ymin
    ensures forall x :: left <= x < i ==> !FullHeight(m, left, x, y, budget, ymin', ymax')
  {
    hide StopUp, StopDown;
    forall x | left <= x < i
      ensures !FullHeight(m, left, x, y, budget, ymin', ymax')
    {
    }
  }

  /** The horizontal scans of the rows from top to bottom, all starting at column x */
  method GrowX(m: Image, top: int, bottom: int, x: int, budget: nat, left: int, right: int)
      returns (xmin: int, xmax: int)
    requires 0 <= x < IMG_W && top <= bottom && 0 <= left <= right <= IMG_W
    ensures 0 <= xmin <= left && right <= xmax <= IMG_W
    ensures LeastStop(Rows(m), top, bottom, x, budget, left, xmin)
    ensures GreatestStop(Rows(m), top, bottom, x, IMG_W, budget, right, xmax)
  {
    xmin, xmax := left, right;
    var i := top;
    while i < bottom
      invariant top <= i <= bottom && 0 <= xmin <= left && right <= xmax <= IMG_W
      invariant LeastStop(Rows(m), top, i, x, budget, left, xmin)
      invariant GreatestStop(Rows(m), top, i, x, IMG_W, budget, right, xmax)
    {
      var j := ScanDown(Rows(m)(i), x, 0, budget);
      LeastNext(Rows(m), top, i, x, budget, left, xmin, j);
      if j < xmin { xmin := j; }
      var aa := ScanUp(Rows(m)(i), x, IMG_W, budget);
      GreatestNext(Rows(m), top, i, x, IMG_W, budget, right, xmax, aa);
      if aa > xmax { xmax := aa; }
      i := i + 1;
    }
  }

  /** Corrode up to the trimming, from a seed inside the image: every edge is the extreme stop of all scans
      in its direction, and the box contains the seed and lies in the image. The column dis_x has
      a value whenever it is read. */
  method Corrode(m: Image, oldX: int, oldY: int, widthMin: nat)
      returns (b: Box, ghost left: int, ghost right: int, ghost disX: int)
    requires 0 <= oldX < IMG_W && 0 <= oldY < IMG_H
    ensures 0 <= b.xmin <= oldX <= b.xmax <= IMG_W && 0 <= b.ymin <= oldY <= b.ymax <= IMG_H
    ensures StopDown(Row(m, oldY), oldX, 0, widthMin / 4, left)
            && StopUp(Row(m, oldY), oldX, IMG_W, widthMin / 4, right)
    ensures LeastStop(Columns(m), left, right, oldY, widthMin / 3, oldY, b.ymin)
    ensures GreatestStop(Columns(m), left, right, oldY, IMG_H, widthMin / 3, oldY, b.ymax)
    ensures LeastStop(Rows(m), b.ymin, b.ymax, disX, widthMin / 3, left, b.xmin)
    ensures GreatestStop(Rows(m), b.ymin, b.ymax, disX, IMG_W, widthMin / 3, right, b.xmax)
    ensures b.ymin < b.ymax ==> left <= disX < right && FullHeight(m, left, disX, oldY, widthMin / 3, b.ymin, b.ymax)
    ensures b.ymin < b.ymax ==>
              forall x :: left <= x < disX ==> !FullHeight(m, left, x, oldY, widthMin / 3, b.ymin, b.ymax)
  {
    var xmin := ScanDown(Row(m, oldY), oldX, 0, widthMin / 4);
    var xmax := ScanUp(Row(m, oldY), oldX, IMG_W, widthMin / 4);
    left, right := xmin, xmax;
    var ymin, ymax, dis := GrowY(m, xmin, xmax, oldY, widthMin / 3);
    disX := if dis.Some? then dis.value else oldX;
    if ymin < ymax {
      xmin, xmax := GrowX(m, ymin, ymax, dis.value, widthMin / 3, xmin, xmax);
    }
    b := Box(xmin, xmax, ymin, ymax);
  }
}

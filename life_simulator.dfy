/** Model of `LifeSimulator`: Conway's Game of Life on a torus. The field is a
    sizeX-by-sizeY grid of cells (indexed field[x][y]); both dimensions are
    8-bit in the source, so they lie in 1..255 here. A generation is computed
    simultaneously: every decision reads the old grid, and the changes are
    collected in two coordinate lists and applied afterwards.
 */
module ConwaysLife {

  /** A live cell with fewer live neighbours than this dies. */
  const UnderpopThresh: nat := 2
  /** A live cell with more live neighbours than this dies. */
  const OverpopThresh: nat := 3
  /** A dead cell with exactly this many live neighbours comes alive. */
  const BirthCount: nat := 3

  /** The largest value of the 8-bit sizes and coordinates. */
  const MaxDim: nat := 255

  datatype Coordinate = Coordinate(x: nat, y: nat)

  /** A non-empty rectangular grid whose dimensions fit in 8 bits. */
  predicate IsGrid(g: seq<seq<bool>>)
  {
    1 <= |g| <= MaxDim && 1 <= |g[0]| <= MaxDim &&
    forall x :: 0 <= x < |g| ==> |g[x]| == |g[0]|
  }

  /** Every listed coordinate lies in a sizeX by sizeY grid. */
  predicate AllWithin(cs: seq<Coordinate>, sizeX: nat, sizeY: nat)
  {
    forall c :: c in cs ==> c.x < sizeX && c.y < sizeY
  }

  /** A cell position inside the grid. */
  predicate InGrid(g: seq<seq<bool>>, x: nat, y: nat)
    requires IsGrid(g)
  {
    x < |g| && y < |g[0]|
  }

  // ---------------------------------------------------------------------------
  // Wrap-around neighbourhood.

  /** `decWrap`: one step back on a ring of `size` positions (`isX` in the source
      selects which grid dimension is `size`). */
  function DecWrap(index: nat, size: nat): (r: nat)
    requires 0 < size
    ensures index < size ==> r < size
  {
    if index == 0 then size - 1 else index - 1
  }

  /** `incWrap`: one step forward on a ring of `size` positions. */
  function IncWrap(index: nat, size: nat): (r: nat)
    requires 0 < size
    ensures index < size ==> r < size
  {
    if index == size - 1 then 0 else index + 1
  }

  lemma ModBelow(a: int, m: int)
    requires 0 <= a < m
    ensures a % m == a
  {
  }

  /** On the ring, the two steps are subtraction and addition of one modulo the size. */
  lemma WrapIsModular(index: nat, size: nat)
    requires index < size
    ensures DecWrap(index, size) == (index - 1) % size
    ensures IncWrap(index, size) == (index + 1) % size
    ensures index == index % size
  {
    ModBelow(index, size);
    if index == 0 {
      ModBelow(size - 1, size);
      assert (index - 1) % size == (index - 1 + size) % size;
    } else {
      ModBelow(index - 1, size);
    }
    if index == size - 1 {
      assert (index + 1) % size == (index + 1 - size) % size;
    } else {
      ModBelow(index + 1, size);
    }
  }

  /** The two steps undo each other on [0, size). */
  lemma WrapInverse(index: nat, size: nat)
    requires index < size
    ensures IncWrap(DecWrap(index, size), size) == index
    ensures DecWrap(IncWrap(index, size), size) == index
  {
  }

  /** The eight neighbour coordinates in the order the source lists them:
      the column before (below, level, above), the same column (below, above),
      and the column after (below, level, above). */
  function Neighbors(x: nat, y: nat, sizeX: nat, sizeY: nat): (r: seq<Coordinate>)
    requires x < sizeX && y < sizeY
    ensures |r| == 8
    ensures forall i :: 0 <= i < |r| ==> r[i].x < sizeX && r[i].y < sizeY
  {
    var left, right := DecWrap(x, sizeX), IncWrap(x, sizeX);
    var down, up := DecWrap(y, sizeY), IncWrap(y, sizeY);
    [Coordinate(left, down), Coordinate(left, y), Coordinate(left, up),
     Coordinate(x, down), Coordinate(x, up),
     Coordinate(right, down), Coordinate(right, y), Coordinate(right, up)]
  }

  /** Column and row offsets of the eight neighbours, in the same order. */
  const OffsetX: seq<int> := [-1, -1, -1, 0, 0, 1, 1, 1]
  const OffsetY: seq<int> := [-1, 0, 1, -1, 1, -1, 0, 1]

  /** Every neighbour is the cell at one of the eight unit offsets, taken modulo the
      grid dimensions: the neighbourhood is the one of a torus. */
  lemma NeighborsAreOffsets(x: nat, y: nat, sizeX: nat, sizeY: nat)
    requires x < sizeX && y < sizeY
    ensures forall i :: 0 <= i < 8 ==>
      Neighbors(x, y, sizeX, sizeY)[i] ==
        Coordinate((x + OffsetX[i]) % sizeX, (y + OffsetY[i]) % sizeY)
  {
    WrapIsModular(x, sizeX);
    WrapIsModular(y, sizeY);
  }

  /** On a grid at least 3 wide in both directions the eight neighbours are eight
      distinct cells, none of them the centre. */
  lemma NeighborsDistinct(x: nat, y: nat, sizeX: nat, sizeY: nat)
    requires x < sizeX && y < sizeY && 3 <= sizeX && 3 <= sizeY
    ensures forall i, j :: 0 <= i < j < 8 ==>
      Neighbors(x, y, sizeX, sizeY)[i] != Neighbors(x, y, sizeX, sizeY)[j]
    ensures Coordinate(x, y) !in Neighbors(x, y, sizeX, sizeY)
  {
    var left, right := DecWrap(x, sizeX), IncWrap(x, sizeX);
    var down, up := DecWrap(y, sizeY), IncWrap(y, sizeY);
    assert left != x && right != x && left != right;
    assert down != y && up != y && down != up;
  }

  /** The number of live cells named in `cs`, a coordinate counted once per listing. */
  function CountLive(g: seq<seq<bool>>, cs: seq<Coordinate>): (n: nat)
    requires IsGrid(g)
    requires forall i :: 0 <= i < |cs| ==> cs[i].x < |g| && cs[i].y < |g[0]|
    ensures n <= |cs|
  {
    if cs == [] then 0
    else
      var last := cs[|cs| - 1];
      CountLive(g, cs[..|cs| - 1]) + if g[last.x][last.y] then 1 else 0
  }

  /** The count is zero exactly when no listed cell is live, and the full length
      exactly when every listed cell is live. */
  lemma {:induction false} CountLiveExtremes(g: seq<seq<bool>>, cs: seq<Coordinate>)
    requires IsGrid(g)
    requires forall i :: 0 <= i < |cs| ==> cs[i].x < |g| && cs[i].y < |g[0]|
    ensures CountLive(g, cs) == 0 <==> forall i :: 0 <= i < |cs| ==> !g[cs[i].x][cs[i].y]
    ensures CountLive(g, cs) == |cs| <==> forall i :: 0 <= i < |cs| ==> g[cs[i].x][cs[i].y]
  {
    if cs != [] {
      var init := cs[..|cs| - 1];
      CountLiveExtremes(g, init);
      assert forall i :: 0 <= i < |init| ==> init[i] == cs[i];
    }
  }

  /** `getLiveNeighborCount` as a value: the live entries of the neighbour list. */
  function LiveNeighbors(g: seq<seq<bool>>, x: nat, y: nat): (n: nat)
    requires IsGrid(g) && InGrid(g, x, y)
    ensures n <= 8
  {
    CountLive(g, Neighbors(x, y, |g|, |g[0]|))
  }

  /** On a 1-by-1 grid all eight neighbour coordinates are the cell itself, so a live
      lone cell sees eight live neighbours and a dead one sees none. */
  lemma LoneCellIsItsOwnNeighbors(g: seq<seq<bool>>)
    requires IsGrid(g) && |g| == 1 && |g[0]| == 1
    ensures LiveNeighbors(g, 0, 0) == if g[0][0] then 8 else 0
  {
    var cs := Neighbors(0, 0, 1, 1);
    assert forall i :: 0 <= i < 8 ==> cs[i] == Coordinate(0, 0);
    CountLiveExtremes(g, cs);
  }

  // ---------------------------------------------------------------------------
  // One generation, as a function of the old grid.

  /** A live cell that dies this generation. */
  predicate Dies(g: seq<seq<bool>>, x: nat, y: nat): (r: bool)
    requires IsGrid(g) && InGrid(g, x, y)
    ensures r <==> g[x][y] && LiveNeighbors(g, x, y) != 2 && LiveNeighbors(g, x, y) != 3
  {
    var n := LiveNeighbors(g, x, y);
    g[x][y] && (n < UnderpopThresh || n > OverpopThresh)
  }

  /** A dead cell that comes alive this generation. */
  predicate Born(g: seq<seq<bool>>, x: nat, y: nat): (r: bool)
    requires IsGrid(g) && InGrid(g, x, y)
    ensures r ==> !g[x][y] && !Dies(g, x, y)
  {
    !g[x][y] && LiveNeighbors(g, x, y) == BirthCount
  }

  /** A cell that `update` changes: born when `toLive`, dying otherwise. */
  predicate Flips(g: seq<seq<bool>>, x: nat, y: nat, toLive: bool)
    requires IsGrid(g) && InGrid(g, x, y)
  {
    if toLive then Born(g, x, y) else Dies(g, x, y)
  }

  /** The changing cells among the first `n` rows of column `x`, in row order. */
  function ColumnChanges(g: seq<seq<bool>>, x: nat, n: nat, toLive: bool): (r: seq<Coordinate>)
    requires IsGrid(g) && x < |g| && n <= |g[0]|
  {
    if n == 0 then []
    else ColumnChanges(g, x, n - 1, toLive) + if Flips(g, x, n - 1, toLive) then [Coordinate(x, n - 1)] else []
  }

  /** The coordinate list the scan of `update` builds over the first `m` columns. */
  function ScanChanges(g: seq<seq<bool>>, m: nat, toLive: bool): (r: seq<Coordinate>)
    requires IsGrid(g) && m <= |g|
  {
    if m == 0 then [] else ScanChanges(g, m - 1, toLive) + ColumnChanges(g, m - 1, |g[0]|, toLive)
  }

  /** A column's list holds exactly that column's changing cells. */
  lemma {:induction false} ColumnChangesMembers(g: seq<seq<bool>>, x: nat, n: nat, toLive: bool)
    requires IsGrid(g) && x < |g| && n <= |g[0]|
    ensures forall c :: c in ColumnChanges(g, x, n, toLive) <==>
      c.x == x && c.y < n && Flips(g, c.x, c.y, toLive)
  {
    if n > 0 {
      ColumnChangesMembers(g, x, n - 1, toLive);
    }
  }

  /** The scanned list holds exactly the changing cells of the scanned columns. */
  lemma {:induction false} ScanChangesMembers(g: seq<seq<bool>>, m: nat, toLive: bool)
    requires IsGrid(g) && m <= |g|
    ensures forall c :: c in ScanChanges(g, m, toLive) <==>
      c.x < m && c.y < |g[0]| && Flips(g, c.x, c.y, toLive)
  {
    if m > 0 {
      ScanChangesMembers(g, m - 1, toLive);
      ColumnChangesMembers(g, m - 1, |g[0]|, toLive);
    }
  }

  /** The grid of the next generation: every cell decided from the old grid. */
  function Step(g: seq<seq<bool>>): (r: seq<seq<bool>>)
    requires IsGrid(g)
    ensures IsGrid(r) && |r| == |g| && |r[0]| == |g[0]|
  {
    seq(|g|, x requires 0 <= x < |g| =>
      seq(|g[0]|, y requires 0 <= y < |g[0]| =>
        if Dies(g, x, y) then false else if Born(g, x, y) then true else g[x][y]))
  }

  /** The B3/S23 rule: after a step a cell is live exactly when it was live with two or
      three live neighbours, or dead with exactly three. */
  lemma StepRule(g: seq<seq<bool>>, x: nat, y: nat)
    requires IsGrid(g) && InGrid(g, x, y)
    ensures Step(g)[x][y] <==>
      (g[x][y] && (LiveNeighbors(g, x, y) == 2 || LiveNeighbors(g, x, y) == 3)) ||
      (!g[x][y] && LiveNeighbors(g, x, y) == 3)
  {
  }

  /** The scanned lists name cells of the grid only. */
  lemma ScanChangesInGrid(g: seq<seq<bool>>, m: nat, toLive: bool)
    requires IsGrid(g) && m <= |g|
    ensures AllWithin(ScanChanges(g, m, toLive), |g|, |g[0]|)
  {
    ScanChangesMembers(g, m, toLive);
  }

  /** Killing the listed dying cells and then reviving the listed newborn cells of
      the scan turns the grid into its next generation. */
  lemma ApplyIsStep(g: seq<seq<bool>>, m: seq<seq<bool>>, r: seq<seq<bool>>,
                     live: seq<Coordinate>, dead: seq<Coordinate>)
    requires IsGrid(g) && IsGrid(m) && IsGrid(r)
    requires |m| == |g| && |m[0]| == |g[0]| && |r| == |g| && |r[0]| == |g[0]|
    requires live == ScanChanges(g, |g|, true) && dead == ScanChanges(g, |g|, false)
    requires forall i, j :: 0 <= i < |m| && 0 <= j < |m[0]| ==>
      m[i][j] == (g[i][j] && Coordinate(i, j) !in dead)
    requires forall i, j :: 0 <= i < |r| && 0 <= j < |r[0]| ==>
      r[i][j] == (m[i][j] || Coordinate(i, j) in live)
    ensures r == Step(g)
  {
    ScanChangesMembers(g, |g|, false);
    ScanChangesMembers(g, |g|, true);
    forall i | 0 <= i < |g|
      ensures r[i] == Step(g)[i]
    {
      forall j | 0 <= j < |g[0]|
        ensures r[i][j] == Step(g)[i][j]
      {
        assert m[i][j] == (g[i][j] && Coordinate(i, j) !in dead);
        assert r[i][j] == (m[i][j] || Coordinate(i, j) in live);
        StepCell(g, i, j, Coordinate(i, j) in dead, Coordinate(i, j) in live);
      }
    }
  }

  /** One cell of the next generation, from whether the scan lists it as dying and as
      being born. */
  lemma StepCell(g: seq<seq<bool>>, i: nat, j: nat, dies: bool, born: bool)
    requires IsGrid(g) && i < |g| && j < |g[0]|
    requires dies == Flips(g, i, j, false) && born == Flips(g, i, j, true)
    ensures Step(g)[i][j] == ((g[i][j] && !dies) || born)
  {
  }

  /** An empty grid stays empty. */
  lemma {:induction false} EmptyStaysEmpty(g: seq<seq<bool>>)
    requires IsGrid(g) && forall x, y :: 0 <= x < |g| && 0 <= y < |g[0]| ==> !g[x][y]
    ensures Step(g) == g
  {
    forall x | 0 <= x < |g|
      ensures Step(g)[x] == g[x]
    {
      forall y | 0 <= y < |g[0]|
        ensures Step(g)[x][y] == g[x][y]
      {
        CountLiveExtremes(g, Neighbors(x, y, |g|, |g[0]|));
      }
    }
  }

  /** A pattern: a constant rectangular bitmap whose dimensions fit in 8 bits. */
  datatype Pattern = Pattern(cells: seq<seq<bool>>)
  {
    predicate Valid()
    {
      IsGrid(cells)
    }

    function SizeX(): nat
      requires Valid()
    {
      |cells|
    }

    function SizeY(): nat
      requires Valid()
    {
      |cells[0]|
    }
  }

  /** The start coordinate `insertPattern` uses: clamped to the last valid index. */
  function ClampStart(start: nat, size: nat): (r: nat)
    requires 0 < size
    ensures r < size
    ensures start < size ==> r == start
  {
    if start >= size then size - 1 else start
  }

  /** The last coordinate written: the pattern's last row or column, clipped to the grid. */
  function ClipEnd(start: nat, patternSize: nat, size: nat): (r: nat)
    requires start < size && 0 < patternSize
    ensures start <= r < size
    ensures r - start < patternSize
    ensures r == if start + patternSize <= size then start + patternSize - 1 else size - 1
  {
    if start + patternSize - 1 < size then start + patternSize - 1 else size - 1
  }

  /** The part of the grid `insertPattern` overwrites. */
  predicate InWindow(g: seq<seq<bool>>, p: Pattern, startX: nat, startY: nat, x: nat, y: nat)
    requires IsGrid(g) && p.Valid()
  {
    var sx := ClampStart(startX, |g|);
    var sy := ClampStart(startY, |g[0]|);
    sx <= x <= ClipEnd(sx, p.SizeX(), |g|) && sy <= y <= ClipEnd(sy, p.SizeY(), |g[0]|)
  }

  /** A grid that took the pattern over exactly the rectangle from the clamped start
      to the clipped end took it over exactly the window. */
  lemma WindowWritten(g: seq<seq<bool>>, r: seq<seq<bool>>, p: Pattern, startX: nat, startY: nat,
                      sx: nat, sy: nat, endX: nat, endY: nat)
    requires IsGrid(g) && IsGrid(r) && |r| == |g| && |r[0]| == |g[0]| && p.Valid()
    requires sx == ClampStart(startX, |g|) && endX == ClipEnd(sx, p.SizeX(), |g|)
    requires sy == ClampStart(startY, |g[0]|) && endY == ClipEnd(sy, p.SizeY(), |g[0]|)
    requires forall i, j :: 0 <= i < |r| && 0 <= j < |r[0]| ==>
      r[i][j] == if sx <= i <= endX && sy <= j <= endY then p.cells[i - sx][j - sy] else g[i][j]
    ensures forall x, y :: 0 <= x < |r| && 0 <= y < |r[0]| ==>
      r[x][y] ==
        if InWindow(g, p, startX, startY, x, y)
        then p.cells[x - ClampStart(startX, |r|)][y - ClampStart(startY, |r[0]|)]
        else g[x][y]
  {
  }

  class LifeSimulator {
    var field: seq<seq<bool>>

    ghost predicate Valid()
      reads this
    {
      IsGrid(field)
    }

    /** A sizeX-by-sizeY grid of dead cells. */
    constructor (sizeX: nat, sizeY: nat)
      requires 1 <= sizeX <= MaxDim && 1 <= sizeY <= MaxDim
      ensures Valid() && |field| == sizeX && |field[0]| == sizeY
      ensures forall x, y :: 0 <= x < sizeX && 0 <= y < sizeY ==> !field[x][y]
    {
      field := seq(sizeX, _ => seq(sizeY, _ => false));
    }

    /** `getSizeX`: the number of columns. */
    function GetSizeX(): (r: nat)
      reads this
      requires Valid()
      ensures 1 <= r <= MaxDim && r == |field|
    {
      |field|
    }

    /** `getSizeY`: the length of the first column, which is that of every column. */
    function GetSizeY(): (r: nat)
      reads this
      requires Valid()
      ensures 1 <= r <= MaxDim
      ensures forall x :: 0 <= x < |field| ==> |field[x]| == r
    {
      |field[0]|
    }

    function GetCell(x: nat, y: nat): bool
      reads this
      requires Valid() && InGrid(field, x, y)
    {
      field[x][y]
    }

    /** Counts the live cells in the eight-entry neighbour list, one at a time. */
    method GetLiveNeighborCount(x: nat, y: nat) returns (count: nat)
      requires Valid() && InGrid(field, x, y)
      ensures count == LiveNeighbors(field, x, y) && count <= 8
    {
      var coords := Neighbors(x, y, GetSizeX(), GetSizeY());
      count := 0;
      var i := 0;
      while i < |coords|
        invariant 0 <= i <= |coords| && count == CountLive(field, coords[..i])
      {
        assert coords[..i + 1][..i] == coords[..i];
        if GetCell(coords[i].x, coords[i].y) {
          count := count + 1;
        }
        i := i + 1;
      }
      assert coords[..i] == coords;
    }

    /** Writes the pattern into the clamped, clipped window; the rest of the grid and
        its dimensions are untouched. */
    method InsertPattern(pattern: Pattern, startX: nat, startY: nat)
      requires Valid() && pattern.Valid() && startX <= MaxDim && startY <= MaxDim
      modifies this
      ensures Valid() && |field| == old(|field|) && |field[0]| == old(|field[0]|)
      ensures forall x, y :: 0 <= x < |field| && 0 <= y < |field[0]| ==>
        field[x][y] ==
          if InWindow(old(field), pattern, startX, startY, x, y)
          then pattern.cells[x - ClampStart(startX, |field|)][y - ClampStart(startY, |field[0]|)]
          else old(field[x][y])
    {
      ghost var g0 := field;
      var sizeX := GetSizeX();
      var sx := startX;
      if sx >= sizeX {
        sx := sizeX - 1;
      }
      var sizeY := GetSizeY();
      var sy := startY;
      if sy >= sizeY {
        sy := sizeY - 1;
      }
      var endX := if sx + pattern.SizeX() - 1 < sizeX then sx + pattern.SizeX() - 1 else sizeX - 1;
      var endY := if sy + pattern.SizeY() - 1 < sizeY then sy + pattern.SizeY() - 1 else sizeY - 1;
      assert sx == ClampStart(startX, sizeX) && endX == ClipEnd(sx, pattern.SizeX(), sizeX);
      assert sy == ClampStart(startY, sizeY) && endY == ClipEnd(sy, pattern.SizeY(), sizeY);
      var x := sx;
      while x <= endX
        invariant sx <= x <= endX + 1 && IsGrid(field) && |field| == sizeX && |field[0]| == sizeY
        invariant forall i, j :: 0 <= i < sizeX && 0 <= j < sizeY ==>
          field[i][j] == if sx <= i < x && sy <= j <= endY then pattern.cells[i - sx][j - sy] else g0[i][j]
      {
        CopyColumn(pattern, x, sx, sy, endY);
        x := x + 1;
      }
      WindowWritten(g0, field, pattern, startX, startY, sx, sy, endX, endY);
    }

    /** The inner loop of `insertPattern`: rows `sy` through `endY` of column `x` take
        the pattern's cells of column `x - sx`; every other cell is kept. */
    method CopyColumn(pattern: Pattern, x: nat, sx: nat, sy: nat, endY: nat)
      requires Valid() && pattern.Valid() && sx <= x < |field| && sy <= endY < |field[0]|
      requires x - sx < pattern.SizeX() && endY - sy < pattern.SizeY()
      modifies this
      ensures Valid() && |field| == old(|field|) && |field[0]| == old(|field[0]|)
      ensures forall i, j :: 0 <= i < |field| && 0 <= j < |field[0]| ==>
        field[i][j] == if i == x && sy <= j <= endY then pattern.cells[x - sx][j - sy] else old(field[i][j])
    {
      var y := sy;
      while y <= endY
        invariant sy <= y <= endY + 1 && IsGrid(field)
        invariant |field| == old(|field|) && |field[0]| == old(|field[0]|)
        invariant forall i, j :: 0 <= i < |field| && 0 <= j < |field[0]| ==>
          field[i][j] == if i == x && sy <= j < y then pattern.cells[x - sx][j - sy] else old(field[i][j])
      {
        field := field[x := field[x][y := pattern.cells[x - sx][y - sy]]];
        y := y + 1;
      }
    }

    /** One generation: scan the grid recording which cells die and which are born,
        then kill the first list and revive the second. */
    method Update()
      requires Valid()
      modifies this
      ensures Valid()
      ensures field == Step(old(field))
    {
      ghost var g0 := field;
      var liveCoordinates, deadCoordinates := CollectChanges();
      ScanChangesInGrid(g0, |g0|, false);
      ScanChangesInGrid(g0, |g0|, true);
      KillAll(deadCoordinates);
      ghost var g1 := field;
      ReviveAll(liveCoordinates);
      ApplyIsStep(g0, g1, field, liveCoordinates, deadCoordinates);
    }

    /** The scan of `update`, column by column: the coordinates of the cells that die
        and of those that are born, each decided from the unchanged grid, in scan order. */
    method CollectChanges() returns (liveCoordinates: seq<Coordinate>, deadCoordinates: seq<Coordinate>)
      requires Valid()
      ensures liveCoordinates == ScanChanges(field, |field|, true)
      ensures deadCoordinates == ScanChanges(field, |field|, false)
    {
      liveCoordinates, deadCoordinates := [], [];
      var sizeX := GetSizeX();
      var x := 0;
      while x < sizeX
        invariant 0 <= x <= sizeX
        invariant liveCoordinates == ScanChanges(field, x, true)
        invariant deadCoordinates == ScanChanges(field, x, false)
      {
        liveCoordinates, deadCoordinates := CollectColumn(x, liveCoordinates, deadCoordinates);
        x := x + 1;
      }
    }

    /** The inner loop of the scan over column `x`: appends the column's newborn
        cells to `live0` and its dying cells to `dead0`, in row order. */
    method CollectColumn(x: nat, live0: seq<Coordinate>, dead0: seq<Coordinate>)
      returns (liveCoordinates: seq<Coordinate>, deadCoordinates: seq<Coordinate>)
      requires Valid() && x < |field|
      ensures liveCoordinates == live0 + ColumnChanges(field, x, |field[0]|, true)
      ensures deadCoordinates == dead0 + ColumnChanges(field, x, |field[0]|, false)
    {
      liveCoordinates, deadCoordinates := live0, dead0;
      var sizeY := GetSizeY();
      var y := 0;
      while y < sizeY
        invariant 0 <= y <= sizeY
        invariant liveCoordinates == live0 + ColumnChanges(field, x, y, true)
        invariant deadCoordinates == dead0 + ColumnChanges(field, x, y, false)
      {
        var liveNeighborCount := GetLiveNeighborCount(x, y);
        if GetCell(x, y) {
          if liveNeighborCount < UnderpopThresh || liveNeighborCount > OverpopThresh {
            deadCoordinates := deadCoordinates + [Coordinate(x, y)];
          }
        } else {
          if liveNeighborCount == BirthCount {
            liveCoordinates := liveCoordinates + [Coordinate(x, y)];
          }
        }
        y := y + 1;
      }
    }

    /** The kill phase of `update`: every listed cell becomes dead, nothing else changes. */
    method KillAll(coords: seq<Coordinate>)
      requires Valid() && AllWithin(coords, |field|, |field[0]|)
      modifies this
      ensures Valid() && |field| == old(|field|) && |field[0]| == old(|field[0]|)
      ensures forall i, j :: 0 <= i < |field| && 0 <= j < |field[0]| ==>
        field[i][j] == (old(field[i][j]) && Coordinate(i, j) !in coords)
    {
      var k := 0;
      while k < |coords|
        invariant 0 <= k <= |coords| && IsGrid(field)
        invariant |field| == old(|field|) && |field[0]| == old(|field[0]|)
        invariant forall i, j :: 0 <= i < |field| && 0 <= j < |field[0]| ==>
          field[i][j] == (old(field[i][j]) && Coordinate(i, j) !in coords[..k])
      {
        var c := coords[k];
        assert coords[..k + 1] == coords[..k] + [c];
        field := field[c.x := field[c.x][c.y := false]];
        k := k + 1;
      }
      assert coords[..k] == coords;
    }

    /** The revive phase of `update`: every listed cell becomes live, nothing else changes. */
    method ReviveAll(coords: seq<Coordinate>)
      requires Valid() && AllWithin(coords, |field|, |field[0]|)
      modifies this
      ensures Valid() && |field| == old(|field|) && |field[0]| == old(|field[0]|)
      ensures forall i, j :: 0 <= i < |field| && 0 <= j < |field[0]| ==>
        field[i][j] == (old(field[i][j]) || Coordinate(i, j) in coords)
    {
      var k := 0;
      while k < |coords|
        invariant 0 <= k <= |coords| && IsGrid(field)
        invariant |field| == old(|field|) && |field[0]| == old(|field[0]|)
        invariant forall i, j :: 0 <= i < |field| && 0 <= j < |field[0]| ==>
          field[i][j] == (old(field[i][j]) || Coordinate(i, j) in coords[..k])
      {
        var c := coords[k];
        assert coords[..k + 1] == coords[..k] + [c];
        field := field[c.x := field[c.x][c.y := true]];
        k := k + 1;
      }
      assert coords[..k] == coords;
    }
  }
}

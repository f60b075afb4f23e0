/** Grid topology of the tabular environment: linear cell indices, their
    (x, y) coordinates, clamped moves, and the scalar observation that packs
    the agent's cell together with the terminal cell. */
module Grid {

  /** Action codes, as the environment numbers them. */
  const UP: int := 0
  const RIGHT: int := 1
  const DOWN: int := 2
  const LEFT: int := 3

  predicate IsAction(action: int) { 0 <= action < 4 }

  datatype Coords = Coords(x: int, y: int)

  predicate InBounds(gridX: int, gridY: int, c: Coords) {
    0 <= c.x < gridX && 0 <= c.y < gridY
  }

  /** `(q * w + r) / w == q` and `(q * w + r) % w == r` whenever `0 <= r < w`:
      the column/row of a linear index, and the two fields of an observation,
      are recovered exactly. */
  lemma DivModUnique(q: int, r: int, w: int)
    requires 0 <= r < w
    ensures (q * w + r) / w == q
    ensures (q * w + r) % w == r
  {
    var n := q * w + r;
    var q', r' := n / w, n % w;
    assert n == q' * w + r' && 0 <= r' < w;
    if q' > q {
      assert q' * w >= (q + 1) * w by { MulMonotone(q + 1, q', w); }
    } else if q' < q {
      assert q * w >= (q' + 1) * w by { MulMonotone(q' + 1, q, w); }
    }
  }

  lemma MulMonotone(a: int, b: int, w: int)
    requires a <= b && 0 <= w
    ensures a * w <= b * w
  {
  }

  /** Column and row of a linear index: `index % gridX` and `index // gridX`
      (floor division and remainder agree with Dafny's `/` and `%` because
      `gridX` is positive). */
  function IdxToCoords(gridX: int, index: int): (c: Coords)
    requires gridX > 0
    ensures 0 <= c.x < gridX
    ensures c.y * gridX + c.x == index
  {
    Coords(index % gridX, index / gridX)
  }

  /** The linear index `y * gridX + x` of a cell: for a column inside the
      grid's width, the index gives back that column and row. */
  function CoordsToIdx(gridX: int, x: int, y: int): (i: int)
    ensures 0 <= x < gridX ==> i % gridX == x && i / gridX == y
  {
    var i := y * gridX + x;
    if 0 <= x < gridX then DivModUnique(y, x, gridX); i else i
  }

  /** Every index of the grid names an in-bounds cell, and converting back
      gives the same index. */
  lemma IdxRoundTrip(gridX: int, gridY: int, index: int)
    requires gridX > 0 && gridY > 0
    requires 0 <= index < gridX * gridY
    ensures InBounds(gridX, gridY, IdxToCoords(gridX, index))
    ensures CoordsToIdx(gridX, IdxToCoords(gridX, index).x, IdxToCoords(gridX, index).y) == index
  {
  }

  /** Every in-bounds cell has an index of the grid, and converting back
      gives the same coordinates. */
  lemma {:induction false} CoordsRoundTrip(gridX: int, gridY: int, c: Coords)
    requires gridX > 0 && gridY > 0
    requires InBounds(gridX, gridY, c)
    ensures 0 <= CoordsToIdx(gridX, c.x, c.y) < gridX * gridY
    ensures IdxToCoords(gridX, CoordsToIdx(gridX, c.x, c.y)) == c
  {
    DivModUnique(c.y, c.x, gridX);
    MulMonotone(0, c.y, gridX);
    MulMonotone(c.y + 1, gridY, gridX);
  }

  /** Change of column an action asks for. */
  function DeltaX(action: int): int {
    if action == RIGHT then 1 else if action == LEFT then -1 else 0
  }

  /** Change of row an action asks for: UP increases y, DOWN decreases it. */
  function DeltaY(action: int): int {
    if action == UP then 1 else if action == DOWN then -1 else 0
  }

  function Clamp(v: int, lo: int, hi: int): int
    requires lo <= hi
  {
    if v < lo then lo else if v > hi then hi else v
  }

  function Abs(v: int): nat { if v < 0 then -v else v }

  /** Reference definition of a move: take the action's step on each axis and
      clamp it to the grid, so that walking into a wall is a no-op on that
      axis rather than a wrap-around. */
  function Moved(gridX: int, gridY: int, c: Coords, action: int): (d: Coords)
    requires InBounds(gridX, gridY, c)
    ensures InBounds(gridX, gridY, d)
    ensures Abs(d.x - c.x) + Abs(d.y - c.y) <= 1
    ensures action == UP ==> d.x == c.x && d.y == (if c.y + 1 < gridY then c.y + 1 else c.y)
    ensures action == DOWN ==> d.x == c.x && d.y == (if c.y > 0 then c.y - 1 else c.y)
    ensures action == RIGHT ==> d.y == c.y && d.x == (if c.x + 1 < gridX then c.x + 1 else c.x)
    ensures action == LEFT ==> d.y == c.y && d.x == (if c.x > 0 then c.x - 1 else c.x)
    ensures !IsAction(action) ==> d == c
  {
    Coords(Clamp(c.x + DeltaX(action), 0, gridX - 1), Clamp(c.y + DeltaY(action), 0, gridY - 1))
  }

  /** The cell reached from `cell` by `action`, as a linear index: it is a cell
      of the grid, and its coordinates are the clamped move of `cell`'s. */
  function MoveCell(gridX: int, gridY: int, cell: int, action: int): (next: int)
    requires gridX > 0 && gridY > 0
    requires 0 <= cell < gridX * gridY
    ensures 0 <= next < gridX * gridY
    ensures IdxToCoords(gridX, next) == Moved(gridX, gridY, IdxToCoords(gridX, cell), action)
  {
    IdxRoundTrip(gridX, gridY, cell);
    var d := Moved(gridX, gridY, IdxToCoords(gridX, cell), action);
    CoordsRoundTrip(gridX, gridY, d);
    CoordsToIdx(gridX, d.x, d.y)
  }

  function Pow10(d: nat): (p: nat)
    ensures p >= 1
  {
    if d == 0 then 1 else 10 * Pow10(d - 1)
  }

  /** Number of decimal digits used to pack a cell index into an observation:
      the smallest `d` with `10^d >= n`. The environment computes it as
      `ceil(log10(n))` in floating point; this is the exact integer value. */
  function Digits(n: nat): (d: nat)
    ensures Pow10(d) >= n
    ensures d == 0 || Pow10(d - 1) < n
  {
    if n <= 1 then 0 else 1 + Digits((n + 9) / 10)
  }

  /** The observation given to the agent: the current cell followed by the
      terminal cell in `Digits(cells)` decimal places. It loses nothing: both
      cells are recovered from it, since the terminal cell is below `cells`,
      hence below `10^Digits(cells)`. */
  function Observation(cells: nat, current: int, terminal: int): (obs: int)
    ensures 0 <= terminal < cells ==> obs / Pow10(Digits(cells)) == current
    ensures 0 <= terminal < cells ==> obs % Pow10(Digits(cells)) == terminal
  {
    var obs := current * Pow10(Digits(cells)) + terminal;
    if 0 <= terminal < cells then DivModUnique(current, terminal, Pow10(Digits(cells))); obs else obs
  }

  /** Hence two different positions never share an observation. */
  lemma ObservationInjective(cells: nat, current: int, current': int, terminal: int)
    requires 0 <= terminal < cells
    requires Observation(cells, current, terminal) == Observation(cells, current', terminal)
    ensures current == current'
  {
  }
}

/** The score domain of the detector and the dense grids it is stored in.

    Scores are float32 in the detector; here they are an exact ordered domain
    with one extra bottom element standing for -inf, so that addition, maximum
    and the equality test used by rule selection are exact. */
module Scores {

  datatype Option<T> = None | Some(value: T)

  /** A score: minus infinity, or a finite value. */
  datatype Score = NegInf | Fin(v: int)

  /** IEEE addition restricted to {-inf} and the finite values: -inf absorbs. */
  function Plus(a: Score, b: Score): (r: Score)
    ensures r.Fin? <==> a.Fin? && b.Fin?
  {
    if a.Fin? && b.Fin? then Fin(a.v + b.v) else NegInf
  }

  /** Subtracting a finite amount; -inf stays -inf. */
  function Minus(a: Score, d: int): (r: Score)
    ensures r.Fin? <==> a.Fin?
  {
    if a.Fin? then Fin(a.v - d) else NegInf
  }

  /** The order on scores: -inf is below every finite value. */
  predicate Le(a: Score, b: Score)
  {
    a.NegInf? || (b.Fin? && a.v <= b.v)
  }

  /** `a > t` for a finite threshold `t`. */
  predicate Above(a: Score, t: int)
  {
    a.Fin? && a.v > t
  }

  function Max(a: Score, b: Score): (r: Score)
    ensures Le(a, r) && Le(b, r)
    ensures r == a || r == b
  {
    if Le(a, b) then b else a
  }

  /** A dense two-dimensional array, row-major: g[y][x]. */
  type Grid = seq<seq<Score>>

  /** An integer array of the same layout (the displacement fields). */
  type IGrid = seq<seq<int>>

  /** `g` is rectangular with `h` rows of `w` cells. */
  ghost predicate IsGrid<T>(g: seq<seq<T>>, h: int, w: int)
  {
    |g| == h && forall r :: 0 <= r < |g| ==> |g[r]| == w
  }

  /** `numpy.ones((h, w)) * v` and `numpy.full`. */
  function Fill(h: nat, w: nat, v: Score): (g: Grid)
    ensures IsGrid(g, h, w)
    ensures forall r, c :: 0 <= r < h && 0 <= c < w ==> g[r][c] == v
  {
    seq(h, r => seq(w, c => v))
  }

  /** Element-wise `a + b` of two arrays of one shape. */
  function AddGrid(a: Grid, b: Grid, h: nat, w: nat): (g: Grid)
    requires IsGrid(a, h, w) && IsGrid(b, h, w)
    ensures IsGrid(g, h, w)
    ensures forall r, c :: 0 <= r < h && 0 <= c < w ==> g[r][c] == Plus(a[r][c], b[r][c])
  {
    seq(h, r requires 0 <= r < h => seq(w, c requires 0 <= c < w => Plus(a[r][c], b[r][c])))
  }

  /** `numpy.max(numpy.dstack((a, b)), axis=2)`: the element-wise maximum. */
  function MaxGrid(a: Grid, b: Grid, h: nat, w: nat): (g: Grid)
    requires IsGrid(a, h, w) && IsGrid(b, h, w)
    ensures IsGrid(g, h, w)
    ensures forall r, c :: 0 <= r < h && 0 <= c < w ==> g[r][c] == Max(a[r][c], b[r][c])
  {
    seq(h, r requires 0 <= r < h => seq(w, c requires 0 <= c < w => Max(a[r][c], b[r][c])))
  }

  /** A scalar added to every cell (`bias + loc_score + grid`). */
  function AddScalar(a: Grid, d: int, h: nat, w: nat): (g: Grid)
    requires IsGrid(a, h, w)
    ensures IsGrid(g, h, w)
    ensures forall r, c :: 0 <= r < h && 0 <= c < w ==> g[r][c] == Plus(a[r][c], Fin(d))
  {
    seq(h, r requires 0 <= r < h => seq(w, c requires 0 <= c < w => Plus(a[r][c], Fin(d))))
  }

  /** Python and numpy indexing of a sequence of length `n`: a negative index
      counts from the end, anything else outside the range is an IndexError. */
  function PyIndex(n: nat, i: int): (r: Option<nat>)
    ensures r.Some? <==> -(n as int) <= i < n
    ensures r.Some? ==> r.value < n && (r.value == i || r.value == n + i)
    ensures 0 <= i < n ==> r == Some(i)
  {
    if 0 <= i < n then Some(i) else if -(n as int) <= i < 0 then Some(n + i) else None
  }

  function PyAt<T>(s: seq<T>, i: int): (r: Option<T>)
    ensures 0 <= i < |s| ==> r == Some(s[i])
    ensures r.None? <==> !(-(|s| as int) <= i < |s|)
  {
    match PyIndex(|s|, i)
    case Some(k) => Some(s[k])
    case None => None
  }

  /** `g[y, x]` on a two-dimensional numpy array. */
  function GridAt<T>(g: seq<seq<T>>, y: int, x: int): (r: Option<T>)
    ensures 0 <= y < |g| && 0 <= x < |g[y]| ==> r == Some(g[y][x])
  {
    match PyAt(g, y)
    case Some(row) => PyAt(row, x)
    case None => None
  }
}

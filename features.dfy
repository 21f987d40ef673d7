/** Training-time feature assembly (`Symbol.GetFeatures`, `Rule.GetFeatures`,
    `DeformationRule.GetFeatures`, `Offset`, `Loc`, `Def` and `Filter`): the
    map from parameter block to feature vector that a parse node contributes,
    and the mirror image of a filter and of a feature window. */
module Features {
  import opened Scores
  import opened Geometry
  import opened Grammar
  import opened Filtered
  import opened Parse

  // ---------------------------------------------------------------------
  // vectors
  // ---------------------------------------------------------------------

  /** The inner product of two vectors of one length. */
  function Dot(a: seq<int>, b: seq<int>): int
    requires |a| == |b|
  {
    if |a| == 0 then 0 else a[0] * b[0] + Dot(a[1..], b[1..])
  }

  lemma {:induction false} DotConcat(a1: seq<int>, a2: seq<int>, b1: seq<int>, b2: seq<int>)
    requires |a1| == |b1| && |a2| == |b2|
    ensures Dot(a1 + a2, b1 + b2) == Dot(a1, b1) + Dot(a2, b2)
  {
    if |a1| > 0 {
      assert (a1 + a2)[1..] == a1[1..] + a2;
      assert (b1 + b2)[1..] == b1[1..] + b2;
      DotConcat(a1[1..], a2, b1[1..], b2);
    } else {
      assert a1 + a2 == a2 && b1 + b2 == b2;
    }
  }

  /** `s[::-1]`. */
  function Rev<T>(s: seq<T>): (r: seq<T>)
    ensures |r| == |s| && forall i :: 0 <= i < |s| ==> r[i] == s[|s| - 1 - i]
  {
    if |s| == 0 then [] else Rev(s[1..]) + [s[0]]
  }

  lemma {:induction false} DotRev(a: seq<int>, b: seq<int>)
    requires |a| == |b|
    ensures Dot(Rev(a), Rev(b)) == Dot(a, b)
  {
    if |a| > 0 {
      DotRev(a[1..], b[1..]);
      DotConcat(Rev(a[1..]), [a[0]], Rev(b[1..]), [b[0]]);
    }
  }

  /** A vector that is zero except perhaps at `k` meets any vector in the
      product of their `k`-th entries. */
  lemma {:induction false} DotSparse(a: seq<int>, b: seq<int>, k: int)
    requires |a| == |b|
    requires forall c :: 0 <= c < |a| && c != k ==> a[c] == 0
    ensures Dot(a, b) == if 0 <= k < |a| then a[k] * b[k] else 0
  {
    if |a| > 0 {
      DotSparse(a[1..], b[1..], k - 1);
    }
  }

  // ---------------------------------------------------------------------
  // the mirror permutation
  // ---------------------------------------------------------------------

  /** `Filter._p`: where each feature channel of a mirrored cell comes from.
      Channels 0-9 are read in reverse, as are channels 10-17 and channels
      19-26; channel 18 stays; channels 27 and 29 swap, as do 28 and 30;
      channel 31 stays. */
  const MirrorPerm: seq<nat> := [
    9, 8, 7, 6, 5, 4, 3, 2, 1,
    0, 17, 16, 15, 14, 13, 12, 11, 10,
    18, 26, 25, 24, 23, 22, 21, 20, 19,
    29, 30, 27, 28,
    31]

  /** The permutation is one of the channels onto themselves and undoes
      itself. */
  lemma MirrorPermInvolution()
    ensures |MirrorPerm| == Channels
    ensures forall c :: 0 <= c < Channels ==> MirrorPerm[c] < Channels && MirrorPerm[MirrorPerm[c]] == c
  {
  }

  /** `v[_p]` on one cell. */
  function MirrorCell(v: seq<int>): (u: seq<int>)
    requires |v| == Channels
    ensures |u| == Channels && forall c :: 0 <= c < Channels ==> u[c] == v[MirrorPerm[c]]
  {
    MirrorPermInvolution();
    seq(Channels, c requires 0 <= c < Channels => v[MirrorPerm[c]])
  }

  /** `_p` group by group. */
  lemma MirrorPermGroups()
    ensures forall c :: 0 <= c < 10 ==> MirrorPerm[c] == 9 - c
    ensures forall c :: 10 <= c < 18 ==> MirrorPerm[c] == 27 - c
    ensures forall c :: 19 <= c < 27 ==> MirrorPerm[c] == 45 - c
    ensures MirrorPerm[18] == 18 && MirrorPerm[27] == 29 && MirrorPerm[28] == 30
    ensures MirrorPerm[29] == 27 && MirrorPerm[30] == 28 && MirrorPerm[31] == 31
  {
  }

  /** The mirrored cell as its groups of channels, reversed or swapped. */
  lemma MirrorCellBlocks(v: seq<int>)
    requires |v| == Channels
    ensures MirrorCell(v) == Rev(v[..10]) + Rev(v[10..18]) + v[18..19] + Rev(v[19..27]) + v[29..31] + v[27..29] + v[31..]
  {
    var u := MirrorCell(v);
    var w := Rev(v[..10]) + Rev(v[10..18]) + v[18..19] + Rev(v[19..27]) + v[29..31] + v[27..29] + v[31..];
    assert |w| == Channels;
    MirrorPermGroups();
    forall c | 0 <= c < Channels
      ensures u[c] == w[c]
    {
      if c < 10 {
        assert w[c] == v[9 - c];
      } else if c < 18 {
        assert w[c] == v[27 - c];
      } else if c < 19 {
      } else if c < 27 {
        assert w[c] == v[45 - c];
      }
    }
  }

  /** Mirroring a cell's channels twice gives the cell back. */
  lemma MirrorCellTwice(v: seq<int>)
    requires |v| == Channels
    ensures MirrorCell(MirrorCell(v)) == v
  {
    MirrorPermInvolution();
  }

  /** Reversing or swapping groups of entries, the same way in both vectors,
      keeps their inner product. */
  lemma RegroupDot(a0: seq<int>, a1: seq<int>, a2: seq<int>, a3: seq<int>, a4: seq<int>, a5: seq<int>, a6: seq<int>,
                   b0: seq<int>, b1: seq<int>, b2: seq<int>, b3: seq<int>, b4: seq<int>, b5: seq<int>, b6: seq<int>)
    requires |a0| == |b0| && |a1| == |b1| && |a2| == |b2| && |a3| == |b3|
    requires |a4| == |b4| && |a5| == |b5| && |a6| == |b6|
    ensures Dot(Rev(a0) + Rev(a1) + a2 + Rev(a3) + a5 + a4 + a6, Rev(b0) + Rev(b1) + b2 + Rev(b3) + b5 + b4 + b6)
         == Dot(a0 + a1 + a2 + a3 + a4 + a5 + a6, b0 + b1 + b2 + b3 + b4 + b5 + b6)
  {
    DotRev(a0, b0); DotRev(a1, b1); DotRev(a3, b3);
    DotConcat(Rev(a0), Rev(a1), Rev(b0), Rev(b1));
    DotConcat(Rev(a0) + Rev(a1), a2, Rev(b0) + Rev(b1), b2);
    DotConcat(Rev(a0) + Rev(a1) + a2, Rev(a3), Rev(b0) + Rev(b1) + b2, Rev(b3));
    DotConcat(Rev(a0) + Rev(a1) + a2 + Rev(a3), a5, Rev(b0) + Rev(b1) + b2 + Rev(b3), b5);
    DotConcat(Rev(a0) + Rev(a1) + a2 + Rev(a3) + a5, a4, Rev(b0) + Rev(b1) + b2 + Rev(b3) + b5, b4);
    DotConcat(Rev(a0) + Rev(a1) + a2 + Rev(a3) + a5 + a4, a6, Rev(b0) + Rev(b1) + b2 + Rev(b3) + b5 + b4, b6);
    DotConcat(a0, a1, b0, b1);
    DotConcat(a0 + a1, a2, b0 + b1, b2);
    DotConcat(a0 + a1 + a2, a3, b0 + b1 + b2, b3);
    DotConcat(a0 + a1 + a2 + a3, a4, b0 + b1 + b2 + b3, b4);
    DotConcat(a0 + a1 + a2 + a3 + a4, a5, b0 + b1 + b2 + b3 + b4, b5);
    DotConcat(a0 + a1 + a2 + a3 + a4 + a5, a6, b0 + b1 + b2 + b3 + b4 + b5, b6);
  }

  /** The same regrouping of the channels of two cells keeps their inner
      product. */
  lemma RegroupCellDot(u: seq<int>, v: seq<int>)
    requires |u| == Channels && |v| == Channels
    ensures Dot(Rev(u[..10]) + Rev(u[10..18]) + u[18..19] + Rev(u[19..27]) + u[29..31] + u[27..29] + u[31..],
                Rev(v[..10]) + Rev(v[10..18]) + v[18..19] + Rev(v[19..27]) + v[29..31] + v[27..29] + v[31..])
         == Dot(u, v)
  {
    RegroupDot(u[..10], u[10..18], u[18..19], u[19..27], u[27..29], u[29..31], u[31..],
               v[..10], v[10..18], v[18..19], v[19..27], v[27..29], v[29..31], v[31..]);
    CellPieces(u);
    CellPieces(v);
  }

  lemma CellPieces(u: seq<int>)
    requires |u| == Channels
    ensures u == u[..10] + u[10..18] + u[18..19] + u[19..27] + u[27..29] + u[29..31] + u[31..]
  {
  }

  /** Mirroring the channels of two cells keeps their inner product. */
  lemma MirrorCellDot(u: seq<int>, v: seq<int>)
    requires |u| == Channels && |v| == Channels
    ensures Dot(MirrorCell(u), MirrorCell(v)) == Dot(u, v)
  {
    MirrorCellBlocks(u);
    MirrorCellBlocks(v);
    RegroupCellDot(u, v);
  }

  // ---------------------------------------------------------------------
  // feature windows and their mirror image
  // ---------------------------------------------------------------------

  /** Every cell holds one value per feature channel. */
  ghost predicate Cells(t: Tensor)
  {
    forall y, x :: 0 <= y < |t| && 0 <= x < |t[y]| ==> |t[y][x]| == Channels
  }

  /** Two arrays of the same shape, one value per channel in every cell. */
  ghost predicate SameShape(a: Tensor, b: Tensor)
  {
    |a| == |b| && Cells(a) && Cells(b) && forall y :: 0 <= y < |a| ==> |a[y]| == |b[y]|
  }

  /** The cells of a row, one after the other. */
  function FlatRow(r: seq<seq<int>>): seq<int>
  {
    if |r| == 0 then [] else r[0] + FlatRow(r[1..])
  }

  /** `t.flatten()`: row by row, cell by cell, channel by channel. */
  function Flatten(t: Tensor): seq<int>
  {
    if |t| == 0 then [] else FlatRow(t[0]) + Flatten(t[1..])
  }

  /** `t[:, ::-1, _p]`: the left-right mirror image of an array of cells. */
  function Mirror(t: Tensor): (m: Tensor)
    requires Cells(t)
    ensures |m| == |t| && Cells(m)
    ensures forall y :: 0 <= y < |t| ==> m[y] == MirrorRow(t[y])
  {
    seq(|t|, y requires 0 <= y < |t| => MirrorRow(t[y]))
  }

  function MirrorRow(r: seq<seq<int>>): (m: seq<seq<int>>)
    requires forall x :: 0 <= x < |r| ==> |r[x]| == Channels
    ensures |m| == |r| && forall x :: 0 <= x < |r| ==> m[x] == MirrorCell(r[|r| - 1 - x])
  {
    seq(|r|, x requires 0 <= x < |r| => MirrorCell(r[|r| - 1 - x]))
  }

  /** `t[:, :, _p]`: the channels of every cell mirrored, the columns left
      in place. */
  function MirrorChannels(t: Tensor): (m: Tensor)
    requires Cells(t)
    ensures |m| == |t| && Cells(m)
    ensures forall y :: 0 <= y < |t| ==> |m[y]| == |t[y]| && forall x :: 0 <= x < |t[y]| ==> m[y][x] == MirrorCell(t[y][x])
  {
    seq(|t|, y requires 0 <= y < |t| => seq(|t[y]|, x requires 0 <= x < |t[y]| => MirrorCell(t[y][x])))
  }

  lemma {:induction false} FlatRowSnoc(r: seq<seq<int>>, c: seq<int>)
    ensures FlatRow(r + [c]) == FlatRow(r) + c
  {
    if |r| == 0 {
      assert r + [c] == [c];
    } else {
      assert (r + [c])[1..] == r[1..] + [c];
      FlatRowSnoc(r[1..], c);
    }
  }

  lemma {:induction false} FlatRowLength(r: seq<seq<int>>, q: seq<seq<int>>)
    requires |r| == |q| && forall x :: 0 <= x < |r| ==> |r[x]| == |q[x]|
    ensures |FlatRow(r)| == |FlatRow(q)|
  {
    if |r| > 0 {
      FlatRowLength(r[1..], q[1..]);
    }
  }

  lemma {:induction false} FlattenLength(a: Tensor, b: Tensor)
    requires SameShape(a, b)
    ensures |Flatten(a)| == |Flatten(b)|
  {
    if |a| > 0 {
      FlatRowLength(a[0], b[0]);
      FlattenLength(a[1..], b[1..]);
    }
  }

  /** Mirroring two rows of cells keeps the inner product of their contents. */
  lemma {:induction false} MirrorRowDot(r: seq<seq<int>>, q: seq<seq<int>>)
    requires |r| == |q|
    requires forall x :: 0 <= x < |r| ==> |r[x]| == Channels && |q[x]| == Channels
    ensures |FlatRow(r)| == |FlatRow(q)| && |FlatRow(MirrorRow(r))| == |FlatRow(MirrorRow(q))|
    ensures Dot(FlatRow(MirrorRow(r)), FlatRow(MirrorRow(q))) == Dot(FlatRow(r), FlatRow(q))
  {
    FlatRowLength(r, q);
    FlatRowLength(MirrorRow(r), MirrorRow(q));
    if |r| > 0 {
      var r', q' := r[1..], q[1..];
      assert MirrorRow(r) == MirrorRow(r') + [MirrorCell(r[0])];
      assert MirrorRow(q) == MirrorRow(q') + [MirrorCell(q[0])];
      FlatRowSnoc(MirrorRow(r'), MirrorCell(r[0]));
      FlatRowSnoc(MirrorRow(q'), MirrorCell(q[0]));
      MirrorRowDot(r', q');
      DotConcat(FlatRow(MirrorRow(r')), MirrorCell(r[0]), FlatRow(MirrorRow(q')), MirrorCell(q[0]));
      MirrorCellDot(r[0], q[0]);
      DotConcat(r[0], FlatRow(r'), q[0], FlatRow(q'));
    }
  }

  /** Mirroring two arrays of one shape keeps the inner product of their
      contents. */
  lemma {:induction false} MirrorDot(a: Tensor, b: Tensor)
    requires SameShape(a, b)
    ensures SameShape(Mirror(a), Mirror(b))
    ensures |Flatten(a)| == |Flatten(b)| && |Flatten(Mirror(a))| == |Flatten(Mirror(b))|
    ensures Dot(Flatten(Mirror(a)), Flatten(Mirror(b))) == Dot(Flatten(a), Flatten(b))
  {
    FlattenLength(a, b);
    FlattenLength(Mirror(a), Mirror(b));
    if |a| > 0 {
      assert Mirror(a)[1..] == Mirror(a[1..]);
      assert Mirror(b)[1..] == Mirror(b[1..]);
      MirrorRowDot(a[0], b[0]);
      MirrorDot(a[1..], b[1..]);
      DotConcat(FlatRow(MirrorRow(a[0])), Flatten(Mirror(a[1..])), FlatRow(MirrorRow(b[0])), Flatten(Mirror(b[1..])));
      DotConcat(FlatRow(a[0]), Flatten(a[1..]), FlatRow(b[0]), Flatten(b[1..]));
    }
  }

  lemma MirrorRowTwice(r: seq<seq<int>>)
    requires forall x :: 0 <= x < |r| ==> |r[x]| == Channels
    ensures MirrorRow(MirrorRow(r)) == r
  {
    forall x | 0 <= x < |r|
      ensures MirrorRow(MirrorRow(r))[x] == r[x]
    {
      MirrorCellTwice(r[x]);
    }
  }

  /** Mirroring twice gives the array back. */
  lemma MirrorTwice(t: Tensor)
    requires Cells(t)
    ensures Mirror(Mirror(t)) == t
  {
    forall y | 0 <= y < |t|
      ensures Mirror(Mirror(t))[y] == t[y]
    {
      MirrorRowTwice(t[y]);
    }
  }

  /** The mirrored weights against an array score as the weights against the
      mirrored array. */
  lemma MirrorAdjoint(w: Tensor, f: Tensor)
    requires SameShape(w, f)
    ensures |Flatten(Mirror(w))| == |Flatten(f)| && |Flatten(w)| == |Flatten(Mirror(f))|
    ensures Dot(Flatten(Mirror(w)), Flatten(f)) == Dot(Flatten(w), Flatten(Mirror(f)))
  {
    MirrorDot(w, Mirror(f));
    MirrorTwice(f);
  }

  // ---------------------------------------------------------------------
  // the window under a leaf
  // ---------------------------------------------------------------------

  lemma TensorCells(t: Tensor, h: int, w: int)
    requires IsTensor(t, h, w, Channels)
    ensures Cells(t)
  {
  }

  /** A clamped bound of a Python slice of a sequence of length `n`: a
      negative bound counts from the end, and bounds outside the sequence
      move to its nearest end. */
  function SliceBound(n: nat, i: int): (k: nat)
    ensures k <= n
    ensures 0 <= i <= n ==> k == i
    ensures -(n as int) <= i < 0 ==> k == n + i
    ensures i < -(n as int) ==> k == 0
    ensures n < i ==> k == n
  {
    if i < 0 then (if i + n < 0 then 0 else i + n) else if i > n then n else i
  }

  /** `s[a:b]`: an empty result when the clamped bounds cross, never an
      error. */
  function PySlice<T>(s: seq<T>, a: int, b: int): (r: seq<T>)
    ensures 0 <= a <= b <= |s| ==> r == s[a..b]
    ensures |r| <= |s| && forall i :: 0 <= i < |r| ==> r[i] in s
  {
    var lo, hi := SliceBound(|s|, a), SliceBound(|s|, b);
    if lo < hi then s[lo..hi] else []
  }

  /** `features[fy:fy + h, fx:fx + w, :]`: the rows and columns of a window,
      whole cells; inside the array it is exactly the cells from `(fy, fx)`. */
  function Window(t: Tensor, fy: int, fx: int, h: int, w: int): Tensor
  {
    Columns(PySlice(t, fy, fy + h), fx, w)
  }

  /** `row[fx:fx + w]` of every row. */
  function Columns(rows: Tensor, fx: int, w: int): (r: Tensor)
    ensures |r| == |rows|
  {
    if |rows| == 0 then [] else [PySlice(rows[0], fx, fx + w)] + Columns(rows[1..], fx, w)
  }

  lemma {:induction false} ColumnsAt(rows: Tensor, fx: int, w: int, i: nat)
    requires i < |rows|
    ensures Columns(rows, fx, w)[i] == PySlice(rows[i], fx, fx + w)
  {
    if i > 0 {
      ColumnsAt(rows[1..], fx, w, i - 1);
    }
  }

  /** A window of whole cells is made of whole cells. */
  lemma WindowCells(t: Tensor, fy: int, fx: int, h: int, w: int)
    requires Cells(t)
    ensures Cells(Window(t, fy, fx, h, w))
  {
    var rows := PySlice(t, fy, fy + h);
    forall y | 0 <= y < |rows|
      ensures Columns(rows, fx, w)[y] == PySlice(rows[y], fx, fx + w)
    {
      ColumnsAt(rows, fx, w, y);
    }
  }

  /** Inside the array, a window is exactly the cells from `(fy, fx)`. */
  lemma WindowInside(t: Tensor, fy: int, fx: int, h: int, w: int)
    requires 0 <= fy && 0 <= h && fy + h <= |t| && 0 <= fx && 0 <= w
    requires forall y :: fy <= y < fy + h ==> fx + w <= |t[y]|
    ensures |Window(t, fy, fx, h, w)| == h
    ensures forall i :: 0 <= i < h ==> Window(t, fy, fx, h, w)[i] == t[fy + i][fx..fx + w]
  {
    var rows := PySlice(t, fy, fy + h);
    forall i | 0 <= i < h
      ensures Columns(rows, fx, w)[i] == t[fy + i][fx..fx + w]
    {
      ColumnsAt(rows, fx, w, i);
      assert rows[i] == t[fy + i];
    }
  }

  /** The features under a leaf: the window of its level at the leaf's raw
      position `pos - pad * ((1 << ds) - 1)`, as tall and wide as the
      filter's declared size, or `None` when the level does not exist. */
  function LeafWindow(f: Filter, n: Node, env: Env): (r: Option<Tensor>)
    requires n.Leaf? && PyramidValid(env.pyramid)
    ensures r.Some? <==> PyIndex(|env.pyramid.levels|, n.l).Some?
    ensures r.Some? ==> Cells(r.value)
  {
    match PyIndex(|env.pyramid.levels|, n.l)
    case None => None
    case Some(k) =>
      var level := env.pyramid.levels[k];
      TensorCells(level.features, level.rows, level.cols);
      WindowCells(level.features, NonVirtual(n.y, env.pyramid.pady, n.ds), NonVirtual(n.x, env.pyramid.padx, n.ds),
                  f.size.0, f.size.1);
      Some(Window(level.features, NonVirtual(n.y, env.pyramid.pady, n.ds), NonVirtual(n.x, env.pyramid.padx, n.ds),
                  f.size.0, f.size.1))
  }

  /** A feature map: the features of each parameter block, under the block's
      id. */
  type FeatureMap = map<nat, seq<int>>

  /** `Filter.GetFeatures` with the window of a flipped filter mirrored the
      way `Filter.__init__` mirrors its weights (columns reversed and channels
      permuted), flattened under the filter's block. */
  function FilterFeatures(f: Filter, n: Node, env: Env): (r: Result<FeatureMap>)
    requires n.Leaf? && PyramidValid(env.pyramid)
    ensures r.Ok? <==> LeafWindow(f, n, env).Some?
    ensures r.Ok? ==> r.value.Keys == {f.block.id}
  {
    match LeafWindow(f, n, env)
    case None => Err(IndexError)
    case Some(win) => Ok(map[f.block.id := Flatten(if f.flip then Mirror(win) else win)])
  }

  /** `Filter.GetFeatures` as written: the window of a flipped filter has its
      channels permuted but its columns left in place. */
  function FilterFeaturesAsWritten(f: Filter, n: Node, env: Env): (r: Result<FeatureMap>)
    requires n.Leaf? && PyramidValid(env.pyramid)
    ensures r.Ok? <==> LeafWindow(f, n, env).Some?
    ensures r.Ok? ==> r.value.Keys == {f.block.id}
  {
    match LeafWindow(f, n, env)
    case None => Err(IndexError)
    case Some(win) => Ok(map[f.block.id := Flatten(if f.flip then MirrorChannels(win) else win)])
  }

  /** `Filter.GetParameters()`: the weights the filter is correlated with,
      its block's weights mirrored for a flipped filter; mirroring them once
      more gives the block back. */
  function FilterParams(f: Filter): (w: Tensor)
    requires Cells(f.block.w)
    ensures Cells(w)
    ensures (if f.flip then Mirror(w) else w) == f.block.w
  {
    if f.flip then MirrorTwice(f.block.w); Mirror(f.block.w) else f.block.w
  }

  /** The block's weights against a leaf's features are the filter's
      parameters against the window: the correlation the filtered terminal
      scores hold at the leaf, also for a flipped filter. */
  lemma FilterScore(f: Filter, n: Node, env: Env)
    requires n.Leaf? && PyramidValid(env.pyramid) && Cells(f.block.w)
    requires LeafWindow(f, n, env).Some? && SameShape(f.block.w, LeafWindow(f, n, env).value)
    ensures FilterFeatures(f, n, env).Ok?
    ensures var v := FilterFeatures(f, n, env).value[f.block.id];
            var win := LeafWindow(f, n, env).value;
            && |Flatten(f.block.w)| == |v| && |Flatten(FilterParams(f))| == |Flatten(win)|
            && Dot(Flatten(f.block.w), v) == Dot(Flatten(FilterParams(f)), Flatten(win))
  {
    var win := LeafWindow(f, n, env).value;
    FlattenLength(f.block.w, win);
    if f.flip {
      MirrorAdjoint(f.block.w, win);
    }
  }

  // ---------------------------------------------------------------------
  // a flipped filter whose features, as written, miss its score
  // ---------------------------------------------------------------------

  /** A cell with only the last channel (one `_p` keeps in place) set. */
  const LastOnly: seq<int> := seq(Channels, c => if c == Channels - 1 then 1 else 0)

  /** A cell of zeros. */
  const Blank: seq<int> := seq(Channels, c => 0)

  /** A flipped 1 x 2 filter with the cells `left` and `right`. */
  function PairFilter(left: seq<int>, right: seq<int>): Filter
  {
    Filter(FilterBlock(0, 1, 2, [[left, right]]), (1, 2), true)
  }

  /** One 1 x 2 pyramid level with the cells `left` and `right`, no padding. */
  function PairLevel(left: seq<int>, right: seq<int>): Env
  {
    Env(Pyramid([Level(1, 2, [[left, right]])], 1, 0, 0), [], 1,
        (f: Filter) => [],
        (g: Grid, qx: int, lx: int, qy: int, ly: int) => Transform([], [], []),
        None)
  }

  lemma MirrorCellLastOnly()
    ensures MirrorCell(LastOnly) == LastOnly && MirrorCell(Blank) == Blank
  {
    MirrorPermInvolution();
    forall c | 0 <= c < Channels
      ensures MirrorCell(LastOnly)[c] == LastOnly[c]
    {
      assert MirrorPerm[Channels - 1] == Channels - 1;
    }
  }

  lemma CellDots()
    ensures Dot(LastOnly, LastOnly) == 1 && Dot(LastOnly, Blank) == 0
    ensures Dot(Blank, LastOnly) == 0 && Dot(Blank, Blank) == 0
  {
    DotSparse(LastOnly, LastOnly, Channels - 1);
    DotSparse(LastOnly, Blank, Channels - 1);
    DotSparse(Blank, LastOnly, Channels - 1);
    DotSparse(Blank, Blank, Channels - 1);
  }

  lemma FlattenPair(a: seq<int>, b: seq<int>)
    ensures Flatten([[a, b]]) == a + b
  {
    assert [[a, b]][1..] == [];
    assert [a, b][1..] == [b];
    assert [b][1..] == [];
    assert FlatRow([b]) == b + FlatRow([]);
    assert FlatRow([a, b]) == a + FlatRow([b]);
    assert Flatten([[a, b]]) == FlatRow([a, b]) + Flatten([]);
    assert a + (b + []) + [] == a + b;
  }

  /** Both mirror images of a row of two cells that `_p` keeps. */
  lemma MirrorPair(a: seq<int>, b: seq<int>)
    requires |a| == Channels && |b| == Channels
    requires MirrorCell(a) == a && MirrorCell(b) == b
    ensures MirrorChannels([[a, b]]) == [[a, b]]
    ensures Mirror([[a, b]]) == [[b, a]]
  {
    var t := [[a, b]];
    assert Cells(t);
    var m := MirrorChannels(t);
    assert m[0][0] == a && m[0][1] == b;
    assert m[0] == [a, b];
    var r := MirrorRow(t[0]);
    assert r[0] == b && r[1] == a;
    assert r == [b, a];
    assert Mirror(t)[0] == r;
  }

  lemma CornerWindow(f: Filter, left: seq<int>, right: seq<int>)
    requires |left| == Channels && |right| == Channels && f.size == (1, 2)
    ensures PyramidValid(PairLevel(left, right).pyramid)
    ensures LeafWindow(f, Leaf(0, 0, 0, Fin(1), 0, f), PairLevel(left, right)) == Some([[left, right]])
  {
    var win := [[left, right]];
    assert IsTensor(win, 1, 2, Channels);
    assert PyIndex(1, 0) == Some(0);
    var w := Window(win, 0, 0, 1, 2);
    WindowInside(win, 0, 0, 1, 2);
    assert w[0] == win[0][0..2];
    assert win[0][0..2] == win[0];
    assert w == win;
  }

  /** Two cells that `_p` keeps, so that mirroring a row of the two only
      swaps them, the first of unit length and orthogonal to the second,
      which is zero. */
  ghost predicate Witnesses(e: seq<int>, z: seq<int>)
  {
    && |e| == Channels && |z| == Channels
    && MirrorChannels([[z, e]]) == [[z, e]] && Mirror([[z, e]]) == [[e, z]] && Mirror([[e, z]]) == [[z, e]]
    && Dot(e, e) == 1 && Dot(e, z) == 0 && Dot(z, e) == 0 && Dot(z, z) == 0
  }

  /** Such cells exist: the last channel alone, and zeros. */
  lemma LastOnlyWitnesses()
    ensures Witnesses(LastOnly, Blank)
  {
    MirrorCellLastOnly();
    MirrorPair(Blank, LastOnly);
    MirrorPair(LastOnly, Blank);
    CellDots();
  }

  lemma PairParams(e: seq<int>, z: seq<int>)
    requires Witnesses(e, z)
    ensures Cells(PairFilter(e, z).block.w) && FilterParams(PairFilter(e, z)) == [[z, e]]
  {
  }

  lemma PairAsWritten(e: seq<int>, z: seq<int>)
    requires Witnesses(e, z)
    ensures PyramidValid(PairLevel(z, e).pyramid)
    ensures FilterFeaturesAsWritten(PairFilter(e, z), Leaf(0, 0, 0, Fin(1), 0, PairFilter(e, z)), PairLevel(z, e))
         == Ok(map[0 := z + e])
  {
    CornerWindow(PairFilter(e, z), z, e);
    FlattenPair(z, e);
  }

  lemma PairCorrected(e: seq<int>, z: seq<int>)
    requires Witnesses(e, z)
    ensures PyramidValid(PairLevel(z, e).pyramid)
    ensures FilterFeatures(PairFilter(e, z), Leaf(0, 0, 0, Fin(1), 0, PairFilter(e, z)), PairLevel(z, e))
         == Ok(map[0 := e + z])
  {
    CornerWindow(PairFilter(e, z), z, e);
    FlattenPair(e, z);
  }

  lemma PairDots(e: seq<int>, z: seq<int>)
    requires Witnesses(e, z)
    ensures Dot(z + e, z + e) == 1 && Dot(e + z, z + e) == 0 && Dot(e + z, e + z) == 1
  {
    DotConcat(z, e, z, e);
    DotConcat(e, z, z, e);
    DotConcat(e, z, e, z);
  }

  /** A flipped filter whose weights sit in its left cell scores 1 where the
      features sit in the right cell of the window, but its block's weights
      against the features `Filter.GetFeatures` assembles give 0: the
      columns of a flipped filter's window are not reversed. The intended
      features give the score. */
  lemma FlippedFeaturesMissScore(e: seq<int>, z: seq<int>)
    requires Witnesses(e, z)
    ensures var f, env := PairFilter(e, z), PairLevel(z, e);
            var n := Leaf(0, 0, 0, Fin(1), 0, f);
            && PyramidValid(env.pyramid) && Cells(f.block.w)
            && LeafWindow(f, n, env) == Some([[z, e]])
            && FilterParams(f) == [[z, e]] && Flatten([[z, e]]) == z + e && Flatten(f.block.w) == e + z
            && Dot(z + e, z + e) == 1
            && FilterFeaturesAsWritten(f, n, env) == Ok(map[0 := z + e]) && Dot(e + z, z + e) == 0
            && FilterFeatures(f, n, env) == Ok(map[0 := e + z]) && Dot(e + z, e + z) == 1
  {
    CornerWindow(PairFilter(e, z), z, e);
    PairParams(e, z);
    PairAsWritten(e, z);
    PairCorrected(e, z);
    PairDots(e, z);
    FlattenPair(z, e);
    FlattenPair(e, z);
  }

  // ---------------------------------------------------------------------
  // offset, location and deformation features
  // ---------------------------------------------------------------------

  /** `Offset.GetFeatures`: the bias feature `model.features.bias` under the
      offset's block. */
  function OffsetFeatures(o: Offset, env: Env): (m: FeatureMap)
    ensures m.Keys == {o.block.id} && |m[o.block.id]| == 1
  {
    map[o.block.id := [env.featureBias]]
  }

  /** A rule's offset weight against its bias feature is the bias term the
      filtered rule adds to every cell. */
  lemma OffsetScore(r: Rule, env: Env)
    requires |r.offset.block.w| == 1
    ensures Dot(r.offset.block.w, OffsetFeatures(r.offset, env)[r.offset.block.id]) == RuleBias(r, env)
  {
    var f := OffsetFeatures(r.offset, env)[r.offset.block.id];
    assert Dot(r.offset.block.w, f) == r.offset.block.w[0] * f[0] + Dot([], []);
  }

  /** The bias term a filtered deformation rule adds, as written, is not its
      offset weight against its bias feature unless that feature is 1: a
      weight of 1 with a bias feature of 10 gives 1 where the features give 10. */
  lemma DeformationBiasMissesFeature(r: Rule, env: Env)
    requires r.offset.block.w == [1] && env.featureBias == 10
    ensures DeformationBiasAsWritten(r) == 1
    ensures Dot(r.offset.block.w, OffsetFeatures(r.offset, env)[r.offset.block.id]) == 10
  {
    OffsetScore(r, env);
  }

  /** `Loc.GetFeatures`: a one-hot vector of the node's octave bucket. */
  function LocFeatures(loc: Loc, l: int, interval: nat): (m: FeatureMap)
    ensures m.Keys == {loc.block.id} && |m[loc.block.id]| == 3
    ensures forall k :: 0 <= k < 3 ==> m[loc.block.id][k] == if k == Bucket(l, interval) then 1 else 0
  {
    var f := if l < interval then [1, 0, 0] else if l < 2 * interval then [0, 1, 0] else [0, 0, 1];
    map[loc.block.id := f]
  }

  /** A level's location features are its column of `loc_f`, and the
      location weights against them give the location score the filtered
      rules add at that level. */
  lemma LocScore(loc: Loc, l: int, interval: nat, n: nat)
    requires |loc.block.w| == 3 && 0 <= l < n
    ensures forall k :: 0 <= k < 3 ==> LocFeatures(loc, l, interval)[loc.block.id][k] == LocMatrix(interval, n)[k][l]
    ensures Dot(loc.block.w, LocFeatures(loc, l, interval)[loc.block.id]) == LocScores(loc.block.w, interval, n)[l]
  {
    var f := LocFeatures(loc, l, interval)[loc.block.id];
    DotSparse(f, loc.block.w, Bucket(l, interval));
    assert Dot(loc.block.w, f) == Dot(f, loc.block.w) by {
      DotSymmetric(loc.block.w, f);
    }
  }

  lemma {:induction false} DotSymmetric(a: seq<int>, b: seq<int>)
    requires |a| == |b|
    ensures Dot(a, b) == Dot(b, a)
  {
    if |a| > 0 {
      DotSymmetric(a[1..], b[1..]);
    }
  }

  /** `Def.GetFeatures` for a displacement `(dx, dy)` of the node from its
      child: `[-dx², -dx, -dy², -dy]`, the second entry negated for a
      mirrored deformation. Against the block's weights it is minus the
      penalty the deformation kernel charges with `Def.GetParameters()`. */
  function DefFeatures(d: Def, dx: int, dy: int): (m: FeatureMap)
    ensures m.Keys == {d.block.id} && |m[d.block.id]| == 4
    ensures m[d.block.id][0] == -(dx * dx) && m[d.block.id][2] == -(dy * dy) && m[d.block.id][3] == -dy
    ensures m[d.block.id][1] == if d.flip then dx else -dx
  {
    var f := [-(dx * dx), -dx, -(dy * dy), -dy];
    map[d.block.id := if d.flip then f[1 := dx] else f]
  }

  lemma Dot4(a: seq<int>, b: seq<int>)
    requires |a| == 4 && |b| == 4
    ensures Dot(a, b) == a[0] * b[0] + a[1] * b[1] + a[2] * b[2] + a[3] * b[3]
  {
    assert Dot(a[3..], b[3..]) == a[3] * b[3] + Dot(a[4..], b[4..]);
    assert Dot(a[2..], b[2..]) == a[2] * b[2] + Dot(a[2..][1..], b[2..][1..]);
    assert a[2..][1..] == a[3..] && b[2..][1..] == b[3..];
    assert Dot(a[1..], b[1..]) == a[1] * b[1] + Dot(a[1..][1..], b[1..][1..]);
    assert a[1..][1..] == a[2..] && b[1..][1..] == b[2..];
  }

  /** The deformation weights against the deformation features are minus the
      penalty of the displacement under the kernel's weights, for a mirrored
      deformation as well. */
  lemma DefScore(d: Def, dx: int, dy: int)
    requires |d.block.w| == 4
    ensures var p := DefParams(d);
            Dot(d.block.w, DefFeatures(d, dx, dy)[d.block.id]) == -Penalty(p[0], p[1], p[2], p[3], dx, dy)
  {
    var w, f := d.block.w, DefFeatures(d, dx, dy)[d.block.id];
    Dot4(w, f);
    var p := DefParams(d);
    assert w[0] * f[0] == -(p[0] * dx * dx);
    assert w[2] * f[2] == -(p[2] * dy * dy);
    assert w[1] * f[1] == -(p[1] * dx);
  }

  // ---------------------------------------------------------------------
  // merging contributions
  // ---------------------------------------------------------------------

  /** Adding one contributor's features to the map, asserting that each of
      its keys is new. */
  function Merge(acc: FeatureMap, m: FeatureMap): Result<FeatureMap>
  {
    if acc.Keys !! m.Keys then Ok(acc + m) else Err(AssertionError)
  }

  /** What adding a contributor does: it fails exactly when one of its keys
      is already there, and otherwise holds both maps' entries. */
  lemma MergeSpec(acc: FeatureMap, m: FeatureMap)
    ensures Merge(acc, m).Ok? <==> acc.Keys !! m.Keys
    ensures Merge(acc, m).Ok? ==> var r := Merge(acc, m).value;
              && r.Keys == acc.Keys + m.Keys
              && (forall k :: k in acc ==> r[k] == acc[k])
              && (forall k :: k in m ==> r[k] == m[k])
  {
  }

  /** The loop `for k in m: assert k not in features; features[k] = m[k]`. */
  method MergeInto(acc: FeatureMap, m: FeatureMap) returns (r: Result<FeatureMap>)
    ensures r == Merge(acc, m)
  {
    var features := acc;
    var todo := m.Keys;
    var clash := false;
    while todo != {} && !clash
      invariant todo <= m.Keys
      invariant !clash ==> acc.Keys !! (m.Keys - todo)
      invariant !clash ==> features.Keys == acc.Keys + (m.Keys - todo)
      invariant !clash ==> forall k :: k in acc ==> features[k] == acc[k]
      invariant !clash ==> forall k :: k in m.Keys - todo ==> features[k] == m[k]
      invariant clash ==> !(acc.Keys !! m.Keys)
      decreases |todo|, if clash then 0 else 1
    {
      var k :| k in todo;
      if k in features {
        clash := true;
      } else {
        features := features[k := m[k]];
        todo := todo - {k};
      }
    }
    if clash {
      r := Err(AssertionError);
    } else {
      assert features == acc + m;
      r := Ok(features);
    }
  }

  /** Merging the contributors one after the other into `acc`. */
  function MergeAll(acc: FeatureMap, ms: seq<FeatureMap>): (r: Result<FeatureMap>)
    ensures r.Err? ==> r.error == AssertionError
    ensures r.Ok? ==> acc.Keys <= r.value.Keys
    decreases |ms|
  {
    if |ms| == 0 then Ok(acc)
    else match Merge(acc, ms[0])
      case Err(e) => Err(e)
      case Ok(a) => MergeAll(a, ms[1..])
  }

  /** The contributors' loops one after the other, stopping at the first
      clash. */
  method MergeEach(acc: FeatureMap, ms: seq<FeatureMap>) returns (r: Result<FeatureMap>)
    ensures r == MergeAll(acc, ms)
  {
    r := Ok(acc);
    var j := 0;
    while j < |ms| && r.Ok?
      invariant 0 <= j <= |ms|
      invariant r.Ok? ==> MergeAll(acc, ms) == MergeAll(r.value, ms[j..])
      invariant r.Err? ==> MergeAll(acc, ms) == r
      decreases |ms| - j, if r.Ok? then 1 else 0
    {
      assert ms[j..][0] == ms[j] && ms[j..][1..] == ms[j + 1..];
      r := MergeInto(r.value, ms[j]);
      if r.Ok? {
        j := j + 1;
      }
    }
    if r.Ok? {
      assert ms[j..] == [];
    }
  }

  /** The key sets of the contributors. */
  function KeySets(ms: seq<FeatureMap>): (ks: seq<set<nat>>)
    ensures |ks| == |ms| && forall i :: 0 <= i < |ms| ==> ks[i] == ms[i].Keys
  {
    seq(|ms|, i requires 0 <= i < |ms| => ms[i].Keys)
  }

  function Union(ks: seq<set<nat>>): set<nat>
  {
    if |ks| == 0 then {} else ks[0] + Union(ks[1..])
  }

  /** No key belongs to two of the sets. */
  ghost predicate Disjoint(ks: seq<set<nat>>)
  {
    forall i, j :: 0 <= i < j < |ks| ==> ks[i] !! ks[j]
  }

  lemma {:induction false} UnionHas(ks: seq<set<nat>>, k: nat)
    ensures k in Union(ks) <==> exists i :: 0 <= i < |ks| && k in ks[i]
  {
    if |ks| > 0 {
      UnionHas(ks[1..], k);
      if k in Union(ks[1..]) {
        var i :| 0 <= i < |ks[1..]| && k in ks[1..][i];
        assert k in ks[i + 1];
      }
      if exists i :: 0 <= i < |ks| && k in ks[i] {
        var i :| 0 <= i < |ks| && k in ks[i];
        if i > 0 {
          assert k in ks[1..][i - 1];
        }
      }
    }
  }

  /** Folding the first two sets into one keeps disjointness, once they are
      disjoint themselves. */
  lemma DisjointFold(a: set<nat>, b: set<nat>, rest: seq<set<nat>>)
    ensures Disjoint([a, b] + rest) <==> a !! b && Disjoint([a + b] + rest)
  {
    var l, m := [a, b] + rest, [a + b] + rest;
    if Disjoint(l) {
      assert a !! b by { assert l[0] == a && l[1] == b; }
      forall i, j | 0 <= i < j < |m|
        ensures m[i] !! m[j]
      {
        assert m[j] == l[j + 1];
        if i == 0 {
          assert l[0] !! l[j + 1] && l[1] !! l[j + 1];
        } else {
          assert m[i] == l[i + 1];
        }
      }
    }
    if a !! b && Disjoint(m) {
      forall i, j | 0 <= i < j < |l|
        ensures l[i] !! l[j]
      {
        if j >= 2 {
          assert l[j] == m[j - 1];
          if i >= 2 {
            assert l[i] == m[i - 1];
          } else {
            assert m[0] !! m[j - 1];
          }
        }
      }
    }
  }

  lemma KeySetsCons(acc: FeatureMap, ms: seq<FeatureMap>)
    requires |ms| > 0
    ensures KeySets(ms) == [ms[0].Keys] + KeySets(ms[1..])
    ensures [acc.Keys] + KeySets(ms) == [acc.Keys, ms[0].Keys] + KeySets(ms[1..])
  {
  }

  lemma MergeAllCons(acc: FeatureMap, ms: seq<FeatureMap>)
    requires |ms| > 0
    ensures acc.Keys !! ms[0].Keys ==> MergeAll(acc, ms) == MergeAll(acc + ms[0], ms[1..])
    ensures !(acc.Keys !! ms[0].Keys) ==> MergeAll(acc, ms) == Err(AssertionError)
  {
  }

  /** What merging a list of contributors into `acc` does: it succeeds
      exactly when no key is in two of them or in `acc` as well, and then
      holds every key of every contributor. */
  lemma {:induction false} MergeAllSpec(acc: FeatureMap, ms: seq<FeatureMap>)
    ensures MergeAll(acc, ms).Ok? <==> Disjoint([acc.Keys] + KeySets(ms))
    ensures MergeAll(acc, ms).Ok? ==> MergeAll(acc, ms).value.Keys == acc.Keys + Union(KeySets(ms))
    decreases |ms|
  {
    if |ms| == 0 {
      assert [acc.Keys] + KeySets(ms) == [acc.Keys];
    } else {
      KeySetsCons(acc, ms);
      DisjointFold(acc.Keys, ms[0].Keys, KeySets(ms[1..]));
      MergeAllCons(acc, ms);
      if acc.Keys !! ms[0].Keys {
        MergeAllSpec(acc + ms[0], ms[1..]);
        assert (acc + ms[0]).Keys == acc.Keys + ms[0].Keys;
      }
    }
  }

  /** Every entry of `m` is in `v`, with the same vector. */
  ghost predicate Holds(v: FeatureMap, m: FeatureMap)
  {
    forall k :: k in m ==> k in v && v[k] == m[k]
  }

  /** What a successful merge of a list into `acc` stores: the entries of
      `acc` and of every contributor, each with its own vector. */
  lemma {:induction false} MergeAllValues(acc: FeatureMap, ms: seq<FeatureMap>)
    ensures MergeAll(acc, ms).Ok? ==> Holds(MergeAll(acc, ms).value, acc)
    ensures MergeAll(acc, ms).Ok? ==> forall i :: 0 <= i < |ms| ==> Holds(MergeAll(acc, ms).value, ms[i])
    decreases |ms|
  {
    if |ms| > 0 && acc.Keys !! ms[0].Keys {
      var a := acc + ms[0];
      MergeAllCons(acc, ms);
      MergeAllValues(a, ms[1..]);
      if MergeAll(acc, ms).Ok? {
        var v := MergeAll(acc, ms).value;
        assert Holds(v, a);
        forall i | 0 <= i < |ms|
          ensures Holds(v, ms[i])
        {
          if i > 0 {
            assert ms[i] == ms[1..][i - 1];
          }
        }
      }
    }
  }

  /** A set sequence starting with an empty set is disjoint, and has the
      union, of the sequence without it. */
  lemma EmptyHead(ks: seq<set<nat>>)
    ensures Disjoint([{}] + ks) <==> Disjoint(ks)
    ensures Union([{}] + ks) == Union(ks)
  {
    var l := [{}] + ks;
    assert l[1..] == ks;
    if Disjoint(ks) {
      forall i, j | 0 <= i < j < |l|
        ensures l[i] !! l[j]
      {
        if i > 0 {
          assert l[i] == ks[i - 1] && l[j] == ks[j - 1];
        }
      }
    }
    if Disjoint(l) {
      forall i, j | 0 <= i < j < |ks|
        ensures ks[i] !! ks[j]
      {
        assert l[i + 1] == ks[i] && l[j + 1] == ks[j];
      }
    }
  }

  lemma {:induction false} UnionSnoc(ks: seq<set<nat>>, d: set<nat>)
    ensures Union(ks + [d]) == Union(ks) + d
  {
    if |ks| > 0 {
      assert (ks + [d])[1..] == ks[1..] + [d];
      UnionSnoc(ks[1..], d);
    } else {
      assert (ks + [d])[1..] == [];
    }
  }

  /** One more set keeps a sequence disjoint exactly when it shares no
      element with the union of the others. */
  lemma DisjointSnoc(ks: seq<set<nat>>, d: set<nat>)
    ensures Disjoint(ks + [d]) <==> Disjoint(ks) && Union(ks) !! d
  {
    var l := ks + [d];
    if Disjoint(l) {
      assert Disjoint(ks) by {
        forall i, j | 0 <= i < j < |ks|
          ensures ks[i] !! ks[j]
        {
          assert l[i] == ks[i] && l[j] == ks[j];
        }
      }
      forall k | k in Union(ks)
        ensures k !in d
      {
        UnionHas(ks, k);
        var i :| 0 <= i < |ks| && k in ks[i];
        assert l[i] !! l[|ks|];
      }
    }
    if Disjoint(ks) && Union(ks) !! d {
      forall i, j | 0 <= i < j < |l|
        ensures l[i] !! l[j]
      {
        if j == |ks| {
          forall k | k in ks[i]
            ensures k !in d
          {
            UnionHas(ks, k);
          }
        } else {
          assert l[i] == ks[i] && l[j] == ks[j];
        }
      }
    }
  }

  // ---------------------------------------------------------------------
  // the features of a parse tree
  // ---------------------------------------------------------------------

  /** The exceptions assembling features can raise: a level outside the
      pyramid, a key merged twice, a deformation node without exactly one
      child. */
  predicate FeatureError(e: ParseError)
  {
    e == IndexError || e == AssertionError || e == ValueError
  }

  /** `Symbol.GetFeatures` on a node of a parse: a leaf's filter features,
      a tree node's rule features. */
  function NodeFeatures(n: Node, env: Env): (r: Result<FeatureMap>)
    requires PyramidValid(env.pyramid)
    ensures r.Err? ==> FeatureError(r.error)
    decreases n, 3
  {
    if n.Leaf? then FilterFeatures(n.filter, n, env) else RuleFeatures(n, env)
  }

  /** `Rule.GetFeatures` and, for a deformation rule, `DeformationRule.GetFeatures`:
      the features of every child first, then the merge. */
  function RuleFeatures(n: Node, env: Env): (r: Result<FeatureMap>)
    requires n.TreeNode? && PyramidValid(env.pyramid)
    ensures r.Err? ==> FeatureError(r.error)
    decreases n, 2
  {
    match ChildFeatures(n, env)
    case Err(e) => Err(e)
    case Ok(cms) => Combine(n, env, cms)
  }

  /** The merge of a tree node's features from its children's `cms`: the
      offset's, the location's and the children's in that order, then, for a
      deformation rule, the deformation's, which needs exactly one child. */
  function Combine(n: Node, env: Env, cms: seq<FeatureMap>): (r: Result<FeatureMap>)
    requires n.TreeNode?
    ensures r.Err? ==> r.error == AssertionError || r.error == ValueError
  {
    var rule := n.rule.rule;
    var base := MergeAll(map[], Pieces(rule, env, n.l, cms));
    if rule.Structural? || base.Err? then base
    else if |n.children| != 1 then Err(ValueError)
    else Merge(base.value, DefFeatures(rule.df, n.x - n.children[0].x, n.y - n.children[0].y))
  }

  /** What `Rule.GetFeatures` merges, in order: the offset's features, the
      location's and the children's `cms`. */
  function Pieces(rule: Rule, env: Env, l: int, cms: seq<FeatureMap>): seq<FeatureMap>
  {
    [OffsetFeatures(rule.offset, env), LocFeatures(rule.loc, l, env.pyramid.interval)] + cms
  }

  /** The features of every child, in order. */
  function ChildResults(n: Node, env: Env): seq<Result<FeatureMap>>
    requires n.TreeNode? && PyramidValid(env.pyramid)
    decreases n, 0
  {
    seq(|n.children|, j requires 0 <= j < |n.children| => NodeFeatures(n.children[j], env))
  }

  /** The children's features, in order; the first child that fails makes
      the list fail. */
  function ChildFeatures(n: Node, env: Env): (r: Result<seq<FeatureMap>>)
    requires n.TreeNode? && PyramidValid(env.pyramid)
    ensures r.Ok? ==> |r.value| == |n.children|
    ensures r.Err? ==> FeatureError(r.error)
    decreases n, 1
  {
    Collect(ChildResults(n, env))
  }

  /** `Symbol.GetFeatures`, dispatching on the node. */
  method NodeFeaturesM(n: Node, env: Env) returns (r: Result<FeatureMap>)
    requires PyramidValid(env.pyramid)
    ensures r == NodeFeatures(n, env)
    decreases n, 3
  {
    if n.Leaf? {
      r := FilterFeatures(n.filter, n, env);
    } else {
      r := RuleFeaturesM(n, env);
    }
  }

  /** `Rule.GetFeatures` and `DeformationRule.GetFeatures`: the children's
      features by the list comprehension, then the dict filled contributor
      by contributor. */
  method RuleFeaturesM(n: Node, env: Env) returns (r: Result<FeatureMap>)
    requires n.TreeNode? && PyramidValid(env.pyramid)
    ensures r == RuleFeatures(n, env)
    decreases n, 2
  {
    var cs := ChildFeaturesM(n, env);
    if cs.Err? {
      r := Err(cs.error);
    } else {
      r := CombineM(n, env, cs.value);
    }
  }

  /** The dict of `Rule.GetFeatures` filled contributor by contributor, and
      the deformation's features added by `DeformationRule.GetFeatures`. */
  method CombineM(n: Node, env: Env, cms: seq<FeatureMap>) returns (r: Result<FeatureMap>)
    requires n.TreeNode?
    ensures r == Combine(n, env, cms)
  {
    var rule := n.rule.rule;
    var offset := OffsetFeatures(rule.offset, env);
    var loc := LocFeatures(rule.loc, n.l, env.pyramid.interval);
    r := MergeEach(map[], [offset, loc] + cms);
    if rule.Deformation? && r.Ok? {
      if |n.children| != 1 {
        r := Err(ValueError);
      } else {
        r := MergeInto(r.value, DefFeatures(rule.df, n.x - n.children[0].x, n.y - n.children[0].y));
      }
    }
  }

  /** `[child.symbol.GetFeatures(model, child) for child in node.children]`. */
  method ChildFeaturesM(n: Node, env: Env) returns (r: Result<seq<FeatureMap>>)
    requires n.TreeNode? && PyramidValid(env.pyramid)
    ensures r == ChildFeatures(n, env)
    decreases n, 1
  {
    ghost var rs := ChildResults(n, env);
    var ms: seq<FeatureMap> := [];
    var i := 0;
    var failed := false;
    r := Ok([]);
    while i < |n.children| && !failed
      invariant 0 <= i <= |n.children| && |ms| == i
      invariant forall j :: 0 <= j < i ==> rs[j] == Ok(ms[j])
      invariant failed ==> r == Collect(rs)
      decreases |n.children| - i, if failed then 0 else 1
    {
      var m := NodeFeaturesM(n.children[i], env);
      assert rs[i] == m;
      if m.Err? {
        CollectFirstError(rs, i);
        r := Err(m.error);
        failed := true;
      } else {
        ms := ms + [m.value];
        i := i + 1;
      }
    }
    if !failed {
      CollectAllOk(rs, ms);
      r := Ok(ms);
    }
  }

  /** The blocks a node's features are under: its filter's block for a
      leaf, and for a tree node every block its rule and its children
      contribute. */
  ghost function NodeKeys(n: Node): set<nat>
    decreases n, 1
  {
    if n.Leaf? then {n.filter.block.id} else Union(Contributors(n.rule.rule, ChildKeys(n)))
  }

  /** The key sets a rule's features are merged from, in merge order: the
      offset's block, the location's, the children's keys `ks`, and the
      deformation's block for a deformation rule. */
  function Contributors(rule: Rule, ks: seq<set<nat>>): seq<set<nat>>
  {
    Front(rule, ks) + (if rule.Deformation? then [{rule.df.block.id}] else [])
  }

  /** The key sets `Rule.GetFeatures` merges. */
  function Front(rule: Rule, ks: seq<set<nat>>): seq<set<nat>>
  {
    [{rule.offset.block.id}, {rule.loc.block.id}] + ks
  }

  ghost function ChildKeys(n: Node): seq<set<nat>>
    requires n.TreeNode?
    decreases n, 0
  {
    seq(|n.children|, j requires 0 <= j < |n.children| => NodeKeys(n.children[j]))
  }

  /** When a tree's features can be assembled: every leaf's level exists,
      every deformation node has exactly one child, and at no node do two
      contributors share a block. */
  ghost predicate Assemblable(n: Node, env: Env)
    requires PyramidValid(env.pyramid)
    decreases n
  {
    if n.Leaf? then LeafWindow(n.filter, n, env).Some?
    else
      && (forall j :: 0 <= j < |n.children| ==> Assemblable(n.children[j], env))
      && (n.rule.rule.Deformation? ==> |n.children| == 1)
      && Disjoint(Contributors(n.rule.rule, ChildKeys(n)))
  }

  lemma PiecesKeys(rule: Rule, env: Env, l: int, cms: seq<FeatureMap>)
    ensures KeySets(Pieces(rule, env, l, cms)) == Front(rule, KeySets(cms))
  {
  }

  /** Merging a list into the empty map succeeds exactly when the key sets
      are pairwise disjoint, and then holds every key. */
  lemma MergeAllFromEmpty(ms: seq<FeatureMap>)
    ensures MergeAll(map[], ms).Ok? <==> Disjoint(KeySets(ms))
    ensures MergeAll(map[], ms).Ok? ==> MergeAll(map[], ms).value.Keys == Union(KeySets(ms))
  {
    var e: FeatureMap := map[];
    assert e.Keys == {};
    MergeAllSpec(e, ms);
    EmptyHead(KeySets(ms));
  }

  /** `Rule.GetFeatures` succeeds exactly when its contributors are
      disjoint, and then holds every contributor's keys. */
  lemma BaseSpec(rule: Rule, env: Env, l: int, cms: seq<FeatureMap>)
    ensures var b, f := MergeAll(map[], Pieces(rule, env, l, cms)), Front(rule, KeySets(cms));
            && (b.Ok? <==> Disjoint(f))
            && (b.Ok? ==> b.value.Keys == Union(f))
  {
    PiecesKeys(rule, env, l, cms);
    MergeAllFromEmpty(Pieces(rule, env, l, cms));
  }

  /** Merging a node's features from its children's `cms` succeeds exactly
      when the contributors are disjoint and a deformation node has one
      child, and then holds every contributor's keys. */
  lemma CombineSpec(n: Node, env: Env, cms: seq<FeatureMap>)
    requires n.TreeNode?
    ensures var cs := Contributors(n.rule.rule, KeySets(cms));
            Combine(n, env, cms).Ok? <==> (n.rule.rule.Deformation? ==> |n.children| == 1) && Disjoint(cs)
    ensures Combine(n, env, cms).Ok? ==> Combine(n, env, cms).value.Keys == Union(Contributors(n.rule.rule, KeySets(cms)))
  {
    var rule := n.rule.rule;
    var f := Front(rule, KeySets(cms));
    BaseSpec(rule, env, n.l, cms);
    if rule.Deformation? {
      DisjointSnoc(f, {rule.df.block.id});
      UnionSnoc(f, {rule.df.block.id});
    } else {
      assert Contributors(rule, KeySets(cms)) == f;
    }
  }

  /** A node's merge stores the offset's, the location's and every child's
      features, and for a deformation rule the deformation's, each under its
      own block with its own vector. */
  lemma CombineValues(n: Node, env: Env, cms: seq<FeatureMap>)
    requires n.TreeNode?
    ensures var rule, r := n.rule.rule, Combine(n, env, cms);
            r.Ok? ==>
              && Holds(r.value, OffsetFeatures(rule.offset, env))
              && Holds(r.value, LocFeatures(rule.loc, n.l, env.pyramid.interval))
              && (forall i :: 0 <= i < |cms| ==> Holds(r.value, cms[i]))
              && (rule.Deformation? ==>
                    |n.children| == 1 && Holds(r.value, DefFeatures(rule.df, n.x - n.children[0].x, n.y - n.children[0].y)))
  {
    var rule := n.rule.rule;
    var ps := Pieces(rule, env, n.l, cms);
    var base := MergeAll(map[], ps);
    MergeAllValues(map[], ps);
    if base.Ok? {
      var b := base.value;
      assert Holds(b, ps[0]) && Holds(b, ps[1]);
      forall i | 0 <= i < |cms|
        ensures Holds(b, cms[i])
      {
        assert cms[i] == ps[i + 2];
      }
      if rule.Deformation? && |n.children| == 1 {
        MergeSpec(b, DefFeatures(rule.df, n.x - n.children[0].x, n.y - n.children[0].y));
      }
    }
  }

  /** A node's assembled features are under its blocks and no other. */
  lemma {:induction false} NodeKeysOk(n: Node, env: Env)
    requires PyramidValid(env.pyramid)
    ensures NodeFeatures(n, env).Ok? ==> NodeFeatures(n, env).value.Keys == NodeKeys(n)
    decreases n, 1
  {
    if n.TreeNode? {
      ChildKeysOk(n, env);
      var cs := ChildFeatures(n, env);
      if cs.Ok? {
        CombineSpec(n, env, cs.value);
      }
    }
  }

  lemma {:induction false} ChildKeysOk(n: Node, env: Env)
    requires n.TreeNode? && PyramidValid(env.pyramid)
    ensures ChildFeatures(n, env).Ok? ==> KeySets(ChildFeatures(n, env).value) == ChildKeys(n)
    decreases n, 0
  {
    var cs := ChildFeatures(n, env);
    if cs.Ok? {
      var rs := ChildResults(n, env);
      forall j | 0 <= j < |n.children|
        ensures KeySets(cs.value)[j] == ChildKeys(n)[j]
      {
        assert rs[j] == Ok(cs.value[j]);
        NodeKeysOk(n.children[j], env);
      }
    }
  }

  /** Assembling a tree's features succeeds exactly when the tree is
      assemblable. */
  lemma {:induction false} NodeOk(n: Node, env: Env)
    requires PyramidValid(env.pyramid)
    ensures NodeFeatures(n, env).Ok? <==> Assemblable(n, env)
    decreases n, 1
  {
    if n.TreeNode? {
      ChildOk(n, env);
      ChildKeysOk(n, env);
      var cs := ChildFeatures(n, env);
      if cs.Ok? {
        CombineSpec(n, env, cs.value);
      }
    }
  }

  lemma {:induction false} ChildOk(n: Node, env: Env)
    requires n.TreeNode? && PyramidValid(env.pyramid)
    ensures ChildFeatures(n, env).Ok? <==> forall j :: 0 <= j < |n.children| ==> Assemblable(n.children[j], env)
    decreases n, 0
  {
    var rs := ChildResults(n, env);
    forall j | 0 <= j < |n.children|
      ensures rs[j].Ok? <==> Assemblable(n.children[j], env)
    {
      NodeOk(n.children[j], env);
    }
  }

  /** A tree node's features hold its offset's, its location's, every
      child's assembled features and, for a deformation rule, the
      deformation's. */
  ghost predicate AssembledFrom(n: Node, env: Env, v: FeatureMap)
    requires n.TreeNode? && PyramidValid(env.pyramid)
  {
    var rule := n.rule.rule;
    && Holds(v, OffsetFeatures(rule.offset, env))
    && Holds(v, LocFeatures(rule.loc, n.l, env.pyramid.interval))
    && (forall j :: 0 <= j < |n.children| ==>
          NodeFeatures(n.children[j], env).Ok? && Holds(v, NodeFeatures(n.children[j], env).value))
    && (rule.Deformation? ==>
          |n.children| == 1 && Holds(v, DefFeatures(rule.df, n.x - n.children[0].x, n.y - n.children[0].y)))
  }

  /** What a tree node's assembled features store. */
  lemma NodeValues(n: Node, env: Env)
    requires n.TreeNode? && PyramidValid(env.pyramid)
    ensures NodeFeatures(n, env).Ok? ==> AssembledFrom(n, env, NodeFeatures(n, env).value)
  {
    var cs := ChildFeatures(n, env);
    if cs.Ok? {
      var rs := ChildResults(n, env);
      CombineValues(n, env, cs.value);
      forall j | 0 <= j < |n.children|
        ensures NodeFeatures(n.children[j], env) == Ok(cs.value[j])
      {
        assert rs[j] == Ok(cs.value[j]);
      }
    }
  }

  /** Assembling a tree's features succeeds exactly when the tree is
      assemblable, and then gives a feature for each of its blocks and no
      other: at a leaf its filter's window, at a tree node the vectors of
      its offset, its location, its children and its deformation. */
  lemma AssemblyOk(n: Node, env: Env)
    requires PyramidValid(env.pyramid)
    ensures NodeFeatures(n, env).Ok? <==> Assemblable(n, env)
    ensures NodeFeatures(n, env).Ok? ==> NodeFeatures(n, env).value.Keys == NodeKeys(n)
    ensures n.Leaf? ==> NodeFeatures(n, env) == FilterFeatures(n.filter, n, env)
    ensures n.TreeNode? && NodeFeatures(n, env).Ok? ==> AssembledFrom(n, env, NodeFeatures(n, env).value)
  {
    NodeOk(n, env);
    NodeKeysOk(n, env);
    if n.TreeNode? {
      NodeValues(n, env);
    }
  }
}

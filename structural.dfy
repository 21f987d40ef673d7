/** Combination of a structural rule's children into the rule's score
    (`FilteredStructuralRule.__init__`): every child's score array is resampled
    at stride `2^ds` from its anchor, out-of-range placements score -inf, and
    the resampled arrays are added to `bias + loc_score`. */
module Structural {
  import opened Scores
  import opened Geometry
  import opened Grammar

  // ---------------------------------------------------------------------
  // numpy primitives used by the resampling, as the code uses them
  // ---------------------------------------------------------------------

  /** `numpy.arange(start, stop, step)` for a positive integer step. */
  function ARange(start: int, stop: int, step: int): (r: seq<int>)
    requires step >= 1
    ensures forall k :: 0 <= k < |r| ==> r[k] == start + k * step
    ensures |r| == 0 || start + (|r| - 1) * step < stop
    ensures start + |r| * step >= stop
    decreases stop - start
  {
    if start >= stop then [] else
      var rest := ARange(start + step, stop, step);
      assert start + (1 + |rest|) * step == start + step + |rest| * step;
      assert forall k :: 1 <= k <= |rest| ==> start + step + (k - 1) * step == start + k * step;
      [start] + rest
  }

  /** `(s < b).sum()`. */
  function CountBelow(s: seq<int>, b: int): (n: nat)
    ensures n <= |s|
  {
    if s == [] then 0 else (if s[0] < b then 1 else 0) + CountBelow(s[1..], b)
  }

  /** `s[numpy.where(s >= b)]`. */
  function KeepAtLeast(s: seq<int>, b: int): seq<int>
  {
    if s == [] then [] else (if s[0] >= b then [s[0]] else []) + KeepAtLeast(s[1..], b)
  }

  ghost predicate Increasing(s: seq<int>)
  {
    forall j, k :: 0 <= j < k < |s| ==> s[j] < s[k]
  }

  /** With no entry below `b`, nothing is counted and everything is kept. */
  lemma {:induction false} NoneBelow(s: seq<int>, b: int)
    requires forall k :: 0 <= k < |s| ==> s[k] >= b
    ensures CountBelow(s, b) == 0 && KeepAtLeast(s, b) == s
  {
    if s != [] {
      NoneBelow(s[1..], b);
      assert [s[0]] + s[1..] == s;
    }
  }

  /** On an increasing array the entries below `b` form a prefix, so the
      count is the length of that prefix and the kept entries are the rest. */
  lemma {:induction false} SplitIncreasing(s: seq<int>, b: int)
    requires Increasing(s)
    ensures KeepAtLeast(s, b) == s[CountBelow(s, b)..]
    ensures forall k :: 0 <= k < CountBelow(s, b) ==> s[k] < b
    ensures forall k :: CountBelow(s, b) <= k < |s| ==> s[k] >= b
  {
    if s != [] {
      if s[0] >= b {
        HeadAtLeast(s, b);
      } else {
        TailIncreasing(s);
        SplitIncreasing(s[1..], b);
        SplitAfterHead(s, b);
      }
    }
  }

  /** An increasing array whose first entry is at least `b` has nothing below `b`. */
  lemma HeadAtLeast(s: seq<int>, b: int)
    requires Increasing(s) && s != [] && s[0] >= b
    ensures CountBelow(s, b) == 0 && KeepAtLeast(s, b) == s
  {
    forall k | 0 <= k < |s| ensures s[k] >= b {
      if k > 0 { assert s[0] < s[k]; }
    }
    NoneBelow(s, b);
  }

  lemma TailIncreasing(s: seq<int>)
    requires Increasing(s) && s != []
    ensures Increasing(s[1..])
  {
    var t := s[1..];
    forall j, k | 0 <= j < k < |t| ensures t[j] < t[k] {
      assert t[j] == s[j + 1] && t[k] == s[k + 1];
    }
  }

  /** The split of `s` from that of its tail, when its head is below `b`. */
  lemma SplitAfterHead(s: seq<int>, b: int)
    requires s != [] && s[0] < b
    requires var t := s[1..];
             && KeepAtLeast(t, b) == t[CountBelow(t, b)..]
             && (forall k :: 0 <= k < CountBelow(t, b) ==> t[k] < b)
             && (forall k :: CountBelow(t, b) <= k < |t| ==> t[k] >= b)
    ensures KeepAtLeast(s, b) == s[CountBelow(s, b)..]
    ensures forall k :: 0 <= k < CountBelow(s, b) ==> s[k] < b
    ensures forall k :: CountBelow(s, b) <= k < |s| ==> s[k] >= b
  {
    var t := s[1..];
    var n := CountBelow(t, b);
    assert CountBelow(s, b) == 1 + n;
    assert KeepAtLeast(s, b) == KeepAtLeast(t, b);
    assert t[n..] == s[1 + n..];
    forall k | 0 <= k < 1 + n ensures s[k] < b {
      if k > 0 { assert s[k] == t[k - 1]; }
    }
    forall k | 1 + n <= k < |s| ensures s[k] >= b {
      assert s[k] == t[k - 1];
    }
  }

  lemma MulMono(a: int, b: int, s: int)
    requires a <= b && s >= 0
    ensures a * s <= b * s
  {
  }

  lemma MulCancel(a: int, b: int, s: int)
    requires s >= 1 && a * s <= b * s
    ensures a <= b
  {
    assert (a - b) * s <= 0;
  }

  lemma ARangeIncreasing(start: int, stop: int, step: int)
    requires step >= 1
    ensures Increasing(ARange(start, stop, step))
  {
    var r := ARange(start, stop, step);
    forall j, k | 0 <= j < k < |r| ensures r[j] < r[k] {
      MulMono(j + 1, k, step);
      assert (j + 1) * step == j * step + step;
    }
  }

  // ---------------------------------------------------------------------
  // one axis of the resampling
  // ---------------------------------------------------------------------

  /** The clipped end `min(n, start + step * (h - 1))` of one axis. */
  function AxisEnd(start: int, n: nat, h: nat, step: int): int
  {
    if n <= start + step * (h - 1) then n else start + step * (h - 1)
  }

  /** The positions `arange(start, end + 1, step)` of one axis. */
  function AxisAll(start: int, n: nat, h: nat, step: int): seq<int>
    requires step >= 1
  {
    ARange(start, AxisEnd(start, n, h, step) + 1, step)
  }

  /** There are never more positions than target cells. */
  lemma AxisLength(start: int, n: nat, h: nat, step: int)
    requires step >= 1
    ensures |AxisAll(start, n, h, step)| <= h
  {
    var all := AxisAll(start, n, h, step);
    if |all| > 0 {
      assert start + (|all| - 1) * step <= start + step * (h - 1);
      MulCancel(|all| - 1, h - 1, step);
    }
  }

  /** Target cell `t` gets a position exactly when its would-be position is
      not past the clipped end. */
  lemma AxisReach(start: int, n: nat, h: nat, step: int, t: int)
    requires step >= 1 && 0 <= t < h
    ensures t < |AxisAll(start, n, h, step)| <==> start + t * step <= AxisEnd(start, n, h, step)
  {
    var all := AxisAll(start, n, h, step);
    if t < |all| {
      MulMono(t, |all| - 1, step);
    } else {
      MulMono(|all|, t, step);
    }
  }

  /** The split of one axis's positions into those below 1 and the rest. */
  lemma AxisSplit(start: int, n: nat, h: nat, step: int)
    requires step >= 1
    ensures var all := AxisAll(start, n, h, step);
            && KeepAtLeast(all, 1) == all[CountBelow(all, 1)..]
            && (forall k :: 0 <= k < CountBelow(all, 1) ==> all[k] < 1)
            && (forall k :: CountBelow(all, 1) <= k < |all| ==> all[k] >= 1)
  {
    ARangeIncreasing(start, AxisEnd(start, n, h, step) + 1, step);
    SplitIncreasing(AxisAll(start, n, h, step), 1);
  }

  /** Target cell `t` of one axis is covered by the kept run exactly when its
      source lies inside the array. */
  lemma AxisCover(start: int, n: nat, h: nat, step: int, t: int)
    requires step >= 1 && 0 <= t < h
    ensures var all := AxisAll(start, n, h, step);
            (CountBelow(all, 1) <= t < |all|) <==> (0 <= start + t * step - 1 < n)
  {
    var all := AxisAll(start, n, h, step);
    var end := AxisEnd(start, n, h, step);
    var o := CountBelow(all, 1);
    var pos := start + t * step;
    AxisSplit(start, n, h, step);
    AxisReach(start, n, h, step, t);
    assert pos <= start + step * (h - 1) by {
      MulMono(t, h - 1, step);
      assert (h - 1) * step == step * (h - 1);
    }
    assert t < |all| <==> pos <= end;
    assert pos <= end <==> pos <= n;
    if t < |all| {
      assert all[t] == pos;
      assert t >= o <==> pos >= 1;
    }
  }

  /** Every position of one axis is at most the clipped end. */
  lemma AxisBounded(start: int, n: nat, h: nat, step: int, k: int)
    requires step >= 1
    requires 0 <= k < |AxisAll(start, n, h, step)|
    ensures AxisAll(start, n, h, step)[k] == start + k * step <= AxisEnd(start, n, h, step)
  {
    var all := AxisAll(start, n, h, step);
    MulMono(k, |all| - 1, step);
  }

  /** One axis of the code's resampling: `iy = arange(start, end + 1, step)`
      with `end = min(n, start + step * (h - 1))`, `o` the entries below 1 and
      `kept` the others. The kept run fits after `o` inside the `h` target
      cells (the code's assertions), and a target cell `t` is covered by it
      exactly when its source `start + t * step - 1` lies inside the `n`
      source cells, the covered cell taking that source. */
  lemma Axis(start: int, n: nat, h: nat, step: int)
    requires step >= 1
    ensures var all := AxisAll(start, n, h, step);
            AxisRaw(start, step, n, h, CountBelow(all, 1), KeepAtLeast(all, 1))
  {
    var all := AxisAll(start, n, h, step);
    var o := CountBelow(all, 1);
    var kept := KeepAtLeast(all, 1);
    AxisSplit(start, n, h, step);
    AxisLength(start, n, h, step);
    assert |kept| == |all| - o;
    forall k | 0 <= k < |kept| ensures kept[k] == start + (o + k) * step && 1 <= kept[k] <= n {
      assert kept[k] == all[o + k];
      AxisBounded(start, n, h, step, o + k);
    }
    forall t | 0 <= t < h ensures (o <= t < o + |kept|) <==> (0 <= start + t * step - 1 < n) {
      AxisCover(start, n, h, step, t);
    }
  }

  // ---------------------------------------------------------------------
  // the resampled child, as the code computes it and as it is meant
  // ---------------------------------------------------------------------

  function Rows<T>(g: seq<seq<T>>): nat { |g| }
  function Cols<T>(g: seq<seq<T>>): nat { if |g| == 0 then 0 else |g[0]| }

  /** `g` is a rectangular array (every numpy array is). */
  ghost predicate Rect<T>(g: seq<seq<T>>)
  {
    IsGrid(g, Rows(g), Cols(g))
  }

  /** The raw position, in a child's array, of target cell `t` of an
      anchored child: `t * 2^ds + a - pad * (2^ds - 1)`. */
  function Source(t: int, a: int, pad: int, ds: nat): int
  {
    t * Pow2(ds) + a - VirtualPad(pad, ds)
  }

  /** A child's score at a raw position, -inf outside its array. */
  function CellOrNegInf(g: Grid, y: int, x: int): (s: Score)
    requires Rect(g)
    ensures s.Fin? ==> 0 <= y < Rows(g) && 0 <= x < Cols(g) && s == g[y][x]
  {
    if 0 <= y < Rows(g) && 0 <= x < Cols(g) then g[y][x] else NegInf
  }

  /** What one anchored child adds to an `h x w` target array: the child's
      score at the anchored position, or -inf where that falls outside the
      child's array. */
  function Contribution(g: Grid, a: Anchor, p: Pyramid, h: nat, w: nat): (c: Grid)
    requires Rect(g)
    ensures IsGrid(c, h, w)
  {
    seq(h, t requires 0 <= t < h => seq(w, u requires 0 <= u < w =>
      CellOrNegInf(g, Source(t, a.ay, p.pady, a.ds), Source(u, a.ax, p.padx, a.ds))))
  }

  /** `score[level][iy - 1, :][:, ix - 1]`. */
  function Gather(g: Grid, iy: seq<int>, ix: seq<int>): (sp: Grid)
    requires Rect(g)
    requires forall k :: 0 <= k < |iy| ==> 1 <= iy[k] <= Rows(g)
    requires forall k :: 0 <= k < |ix| ==> 1 <= ix[k] <= Cols(g)
    ensures IsGrid(sp, |iy|, |ix|)
  {
    seq(|iy|, a requires 0 <= a < |iy| => seq(|ix|, b requires 0 <= b < |ix| => g[iy[a] - 1][ix[b] - 1]))
  }

  /** `stmp[oy:oy + sz[0], ox:ox + sz[1]] = sp` on an `h x w` array, for a
      block that fits. */
  function Place(stmp: Grid, h: nat, w: nat, oy: nat, ox: nat, sp: Grid, sh: nat, sw: nat): (g: Grid)
    requires IsGrid(stmp, h, w) && IsGrid(sp, sh, sw)
    requires oy + sh <= h && ox + sw <= w
    ensures IsGrid(g, h, w)
  {
    seq(h, t requires 0 <= t < h => seq(w, u requires 0 <= u < w =>
      if oy <= t < oy + sh && ox <= u < ox + sw then sp[t - oy][u - ox] else stmp[t][u]))
  }

  /** Placing the gathered block of -inf is the child's contribution, given
      what `Axis` says about the two axes, stated for `Source` directly. */
  lemma PlacedIsContribution(g: Grid, a: Anchor, p: Pyramid, h: nat, w: nat,
                             oy: nat, ox: nat, iy: seq<int>, ix: seq<int>)
    requires Rect(g)
    requires AxisOk(oy, iy, a.ay, p.pady, a.ds, Rows(g), h)
    requires AxisOk(ox, ix, a.ax, p.padx, a.ds, Cols(g), w)
    ensures Place(Fill(h, w, NegInf), h, w, oy, ox, Gather(g, iy, ix), |iy|, |ix|) == Contribution(g, a, p, h, w)
  {
    var placed := Place(Fill(h, w, NegInf), h, w, oy, ox, Gather(g, iy, ix), |iy|, |ix|);
    var want := Contribution(g, a, p, h, w);
    forall t | 0 <= t < h ensures placed[t] == want[t] {
      forall u | 0 <= u < w ensures placed[t][u] == want[t][u] {
        if oy <= t < oy + |iy| && ox <= u < ox + |ix| {
          assert iy[t - oy] - 1 == Source(t, a.ay, p.pady, a.ds);
          assert ix[u - ox] - 1 == Source(u, a.ax, p.padx, a.ds);
        }
      }
    }
  }

  /** What one axis of the resampling must deliver: the run of `|kept|`
      positions after `o` fits in the `h` target cells, covers exactly the
      target cells whose anchored source lies in the `n` source cells, and
      holds for each covered cell its source plus one. */
  ghost predicate AxisOk(o: nat, kept: seq<int>, a: int, pad: int, ds: nat, n: nat, h: nat)
  {
    && o + |kept| <= h
    && (forall k :: 0 <= k < |kept| ==> 1 <= kept[k] <= n && kept[k] - 1 == Source(o + k, a, pad, ds))
    && (forall t :: 0 <= t < h ==> ((o <= t < o + |kept|) <==> 0 <= Source(t, a, pad, ds) < n))
  }

  /** `Axis` for the start the code computes from an anchor coordinate `a`,
      stated for `Source`. */
  lemma AxisSource(a: int, pad: int, ds: nat, n: nat, h: nat, o: nat, kept: seq<int>)
    requires var all := AxisAll(a - (Pow2(ds) - 1) * pad + 1, n, h, Pow2(ds));
             o == CountBelow(all, 1) && kept == KeepAtLeast(all, 1)
    ensures AxisOk(o, kept, a, pad, ds, n, h)
  {
    var step := Pow2(ds);
    var start := a - (step - 1) * pad + 1;
    Axis(start, n, h, step);
    RawToSource(start, step, a, pad, ds, n, h, o, kept);
  }

  /** What `Axis` states, with `o` and `kept` named. */
  ghost predicate AxisRaw(start: int, step: int, n: nat, h: nat, o: nat, kept: seq<int>)
  {
    && o + |kept| <= h
    && (forall k :: 0 <= k < |kept| ==> kept[k] == start + (o + k) * step && 1 <= kept[k] <= n)
    && (forall t :: 0 <= t < h ==> ((o <= t < o + |kept|) <==> (0 <= start + t * step - 1 < n)))
  }

  lemma RawToSource(start: int, step: int, a: int, pad: int, ds: nat, n: nat, h: nat, o: nat, kept: seq<int>)
    requires step == Pow2(ds) && start == a - (step - 1) * pad + 1
    requires AxisRaw(start, step, n, h, o, kept)
    ensures AxisOk(o, kept, a, pad, ds, n, h)
  {
    forall k | 0 <= k < |kept| ensures 1 <= kept[k] <= n && kept[k] - 1 == Source(o + k, a, pad, ds) {
      StartArith(a, pad, step, o + k);
    }
    forall t | 0 <= t < h ensures (o <= t < o + |kept|) <==> 0 <= Source(t, a, pad, ds) < n {
      StartArith(a, pad, step, t);
    }
  }

  lemma StartArith(a: int, pad: int, step: int, t: int)
    ensures a - (step - 1) * pad + 1 + t * step - 1 == t * step + a - pad * (step - 1)
  {
  }

  /** One axis of the resampling in `FilteredStructuralRule.__init__`: the
      positions `arange(start, end + 1, step)` for anchor coordinate `a`,
      split into the count `o` of those below 1 and the `kept` rest. */
  method ResampleAxis(a: int, pad: int, ds: nat, n: nat, h: nat) returns (o: nat, kept: seq<int>)
    ensures AxisOk(o, kept, a, pad, ds, n, h)
  {
    var step := Pow2(ds);
    var virtpad := (step - 1) * pad;
    var start := a - virtpad + 1;
    var end := if n <= start + step * (h - 1) then n else start + step * (h - 1);
    var all := ARange(start, end + 1, step);
    o := CountBelow(all, 1);
    kept := KeepAtLeast(all, 1);
    AxisSource(a, pad, ds, n, h, o, kept);
  }

  /** The body of the loop over levels of `FilteredStructuralRule.__init__`
      for a level whose child level exists: the child's array `g` resampled
      into an `h x w` array of -inf. The code's four assertions hold for all
      inputs, and the result is the child's intended contribution. */
  method ResampleChild(g: Grid, a: Anchor, p: Pyramid, h: nat, w: nat) returns (stmp: Grid)
    requires Rect(g)
    ensures stmp == Contribution(g, a, p, h, w)
  {
    var oy, iy := ResampleAxis(a.ay, p.pady, a.ds, Rows(g), h);
    var ox, ix := ResampleAxis(a.ax, p.padx, a.ds, Cols(g), w);
    var sp := Gather(g, iy, ix);
    var sz := (|iy|, |ix|);
    stmp := Fill(h, w, NegInf);
    assert oy + sz.0 - 1 < h && ox + sz.1 - 1 < w;
    stmp := Place(stmp, h, w, oy, ox, sp, sz.0, sz.1);
    PlacedIsContribution(g, a, p, h, w, oy, ox, iy, ix);
  }

  // ---------------------------------------------------------------------
  // the rule's score
  // ---------------------------------------------------------------------

  /** The shape facts the combination needs: one base value and one target
      size per level, one anchor per child, one rectangular array per level
      for every child. */
  ghost predicate Inputs(base: seq<int>, kids: seq<seq<Grid>>, anchors: seq<Anchor>, size: seq<(int, int)>)
  {
    && |base| == |size|
    && |kids| == |anchors|
    && (forall i :: 0 <= i < |size| ==> size[i].0 >= 0 && size[i].1 >= 0)
    && (forall j :: 0 <= j < |kids| ==> |kids[j]| == |size|)
    && (forall j, l :: 0 <= j < |kids| && 0 <= l < |kids[j]| ==> Rect(kids[j][l]))
  }

  /** Level `i` of the rule after its first `k` children have been added, in
      the code's order: `bias + loc_score` everywhere to start with, then
      either the child's contribution added, or -inf everywhere when the
      child's level `i - interval * ds` is below the pyramid. */
  function LevelAfter(base: seq<int>, kids: seq<seq<Grid>>, anchors: seq<Anchor>, size: seq<(int, int)>,
                      p: Pyramid, i: int, k: nat): (g: Grid)
    requires Inputs(base, kids, anchors, size) && 0 <= i < |size| && k <= |anchors|
    ensures IsGrid(g, size[i].0, size[i].1)
  {
    var h, w := size[i].0 as nat, size[i].1 as nat;
    if k == 0 then Fill(h, w, Fin(base[i]))
    else
      var prev := LevelAfter(base, kids, anchors, size, p, i, k - 1);
      var level := ChildLevel(i, p.interval, anchors[k - 1].ds);
      if level >= 0 then AddGrid(prev, Contribution(kids[k - 1][level], anchors[k - 1], p, h, w), h, w)
      else Fill(h, w, NegInf)
  }

  /** The rule's score at every level. */
  function StructuralScore(base: seq<int>, kids: seq<seq<Grid>>, anchors: seq<Anchor>, size: seq<(int, int)>,
                           p: Pyramid): (score: seq<Grid>)
    requires Inputs(base, kids, anchors, size)
    ensures |score| == |size|
    ensures forall i :: 0 <= i < |size| ==> IsGrid(score[i], size[i].0, size[i].1)
  {
    seq(|size|, i requires 0 <= i < |size| => LevelAfter(base, kids, anchors, size, p, i, |anchors|))
  }

  /** The loops of `FilteredStructuralRule.__init__`: for each child, for
      each level, add the resampled child or set the level to -inf. */
  method CombineStructural(base: seq<int>, kids: seq<seq<Grid>>, anchors: seq<Anchor>, size: seq<(int, int)>,
                           p: Pyramid) returns (score: seq<Grid>)
    requires Inputs(base, kids, anchors, size)
    ensures score == StructuralScore(base, kids, anchors, size, p)
  {
    score := [];
    var i := 0;
    while i < |size|
      invariant 0 <= i <= |size| && |score| == i
      invariant forall l :: 0 <= l < i ==> score[l] == LevelAfter(base, kids, anchors, size, p, l, 0)
    {
      score := score + [Fill(size[i].0 as nat, size[i].1 as nat, Fin(base[i]))];
      i := i + 1;
    }
    var k := 0;
    while k < |anchors|
      invariant 0 <= k <= |anchors| && |score| == |size|
      invariant forall l :: 0 <= l < |size| ==> score[l] == LevelAfter(base, kids, anchors, size, p, l, k)
    {
      score := AddChild(base, kids, anchors, size, p, k, score);
      k := k + 1;
    }
  }

  /** The loop over levels for child `k`: each level gets the resampled child
      added, or becomes -inf when the child's level is below the pyramid. */
  method AddChild(base: seq<int>, kids: seq<seq<Grid>>, anchors: seq<Anchor>, size: seq<(int, int)>,
                  p: Pyramid, k: nat, prev: seq<Grid>) returns (score: seq<Grid>)
    requires Inputs(base, kids, anchors, size) && k < |anchors| && |prev| == |size|
    requires forall l :: 0 <= l < |size| ==> prev[l] == LevelAfter(base, kids, anchors, size, p, l, k)
    ensures |score| == |size|
    ensures forall l :: 0 <= l < |size| ==> score[l] == LevelAfter(base, kids, anchors, size, p, l, k + 1)
  {
    var anchor, symbolScore := anchors[k], kids[k];
    score := prev;
    var i := 0;
    while i < |symbolScore|
      invariant 0 <= i <= |symbolScore| && |score| == |size|
      invariant forall l :: 0 <= l < i ==> score[l] == LevelAfter(base, kids, anchors, size, p, l, k + 1)
      invariant forall l :: i <= l < |size| ==> score[l] == prev[l]
    {
      var h, w := size[i].0 as nat, size[i].1 as nat;
      var level := i - p.interval * anchor.ds;
      if level >= 0 {
        var stmp := ResampleChild(symbolScore[level], anchor, p, h, w);
        score := score[i := AddGrid(score[i], stmp, h, w)];
      } else {
        score := score[i := Fill(h, w, NegInf)];
      }
      i := i + 1;
    }
  }

  // ---------------------------------------------------------------------
  // the meaning of the score, cell by cell
  // ---------------------------------------------------------------------

  /** What child `j` adds at cell `(t, u)` of level `i`: -inf when its level
      is below the pyramid or its anchored position is outside its array,
      its score there otherwise. */
  function ChildTerm(kids: seq<seq<Grid>>, anchors: seq<Anchor>, size: seq<(int, int)>, p: Pyramid,
                     i: int, j: int, t: int, u: int): Score
    requires |kids| == |anchors| && 0 <= j < |anchors|
    requires (forall j :: 0 <= j < |kids| ==> |kids[j]| == |size|)
    requires (forall j, l :: 0 <= j < |kids| && 0 <= l < |kids[j]| ==> Rect(kids[j][l]))
    requires 0 <= i < |size|
  {
    var level := ChildLevel(i, p.interval, anchors[j].ds);
    if level < 0 then NegInf
    else CellOrNegInf(kids[j][level], Source(t, anchors[j].ay, p.pady, anchors[j].ds),
                      Source(u, anchors[j].ax, p.padx, anchors[j].ds))
  }

  /** `bias + loc_score` plus the terms of the first `k` children. */
  function CellSum(base: seq<int>, kids: seq<seq<Grid>>, anchors: seq<Anchor>, size: seq<(int, int)>,
                   p: Pyramid, i: int, k: nat, t: int, u: int): Score
    requires Inputs(base, kids, anchors, size) && 0 <= i < |size| && k <= |anchors|
  {
    if k == 0 then Fin(base[i])
    else Plus(CellSum(base, kids, anchors, size, p, i, k - 1, t, u), ChildTerm(kids, anchors, size, p, i, k - 1, t, u))
  }

  /** Structural additivity: every cell of every level is the base plus the
      anchored child scores, each child read at `Source` in its own level. */
  lemma {:induction false} LevelAfterIsSum(base: seq<int>, kids: seq<seq<Grid>>, anchors: seq<Anchor>,
                                           size: seq<(int, int)>, p: Pyramid, i: int, k: nat, t: int, u: int)
    requires Inputs(base, kids, anchors, size) && 0 <= i < |size| && k <= |anchors|
    requires 0 <= t < size[i].0 && 0 <= u < size[i].1
    ensures LevelAfter(base, kids, anchors, size, p, i, k)[t][u] == CellSum(base, kids, anchors, size, p, i, k, t, u)
  {
    if k > 0 {
      LevelAfterIsSum(base, kids, anchors, size, p, i, k - 1, t, u);
    }
  }

  /** The sum is finite exactly when every term is. */
  lemma {:induction false} CellSumFinite(base: seq<int>, kids: seq<seq<Grid>>, anchors: seq<Anchor>,
                                         size: seq<(int, int)>, p: Pyramid, i: int, k: nat, t: int, u: int)
    requires Inputs(base, kids, anchors, size) && 0 <= i < |size| && k <= |anchors|
    ensures CellSum(base, kids, anchors, size, p, i, k, t, u).Fin? <==>
            forall j :: 0 <= j < k ==> ChildTerm(kids, anchors, size, p, i, j, t, u).Fin?
  {
    if k > 0 {
      CellSumFinite(base, kids, anchors, size, p, i, k - 1, t, u);
    }
  }

  /** A finite cell of a structural rule's score: every child's level exists,
      its anchored position lies inside its array, and its score there is
      finite. */
  lemma FiniteCell(base: seq<int>, kids: seq<seq<Grid>>, anchors: seq<Anchor>, size: seq<(int, int)>,
                   p: Pyramid, i: int, t: int, u: int, j: int)
    requires Inputs(base, kids, anchors, size) && 0 <= i < |size|
    requires 0 <= t < size[i].0 && 0 <= u < size[i].1 && 0 <= j < |anchors|
    requires StructuralScore(base, kids, anchors, size, p)[i][t][u].Fin?
    ensures ChildLevel(i, p.interval, anchors[j].ds) >= 0
    ensures var g: Grid := kids[j][ChildLevel(i, p.interval, anchors[j].ds)];
            var y := Source(t, anchors[j].ay, p.pady, anchors[j].ds);
            var x := Source(u, anchors[j].ax, p.padx, anchors[j].ds);
            0 <= y < Rows(g) && 0 <= x < Cols(g) && g[y][x].Fin?
  {
    LevelAfterIsSum(base, kids, anchors, size, p, i, |anchors|, t, u);
    CellSumFinite(base, kids, anchors, size, p, i, |anchors|, t, u);
    assert ChildTerm(kids, anchors, size, p, i, j, t, u).Fin?;
  }

  /** A child whose level is below the pyramid makes the whole level -inf. */
  lemma MissingOctave(base: seq<int>, kids: seq<seq<Grid>>, anchors: seq<Anchor>, size: seq<(int, int)>,
                      p: Pyramid, i: int, j: int)
    requires Inputs(base, kids, anchors, size) && 0 <= i < |size| && 0 <= j < |anchors|
    requires ChildLevel(i, p.interval, anchors[j].ds) < 0
    ensures forall t, u :: 0 <= t < size[i].0 && 0 <= u < size[i].1 ==>
              StructuralScore(base, kids, anchors, size, p)[i][t][u] == NegInf
  {
    forall t, u | 0 <= t < size[i].0 && 0 <= u < size[i].1
      ensures StructuralScore(base, kids, anchors, size, p)[i][t][u] == NegInf
    {
      LevelAfterIsSum(base, kids, anchors, size, p, i, |anchors|, t, u);
      CellSumFinite(base, kids, anchors, size, p, i, |anchors|, t, u);
      assert ChildTerm(kids, anchors, size, p, i, j, t, u) == NegInf;
    }
  }
}

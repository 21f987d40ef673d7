/** The filtered grammar: every symbol and rule of the grammar together with
    its score array at every pyramid level (`FilteredSymbol`,
    `FilteredStructuralRule`, `FilteredDeformationRule`). The terminal
    correlation, the deformation kernel and the loss adjustment are the
    detector's collaborators; they enter as functions of an environment whose
    shape and value contract (including the kernel's `TransformOk` relation)
    is `EnvValid`. */
module Filtered {
  import opened Scores
  import opened Geometry
  import opened Grammar
  import opened Sizes
  import opened Structural

  /** One level of the deformation kernel's output: the transformed score
      and, per cell, the column `ix` and row `iy` of the child cell it came
      from. */
  datatype Transform = Transform(score: Grid, ix: IGrid, iy: IGrid)

  /** What the filtered model holds while it filters its grammar: the
      pyramid, `model.size`, `model.features.bias`, the terminal response
      `FilterPyramid(pyramid, filter, size)`, the kernel
      `DeformationCost(score, ax, bx, ay, by, 4)` and the optional loss
      adjustment. */
  datatype Env = Env(
    pyramid: Pyramid,
    size: seq<Size>,
    featureBias: int,
    response: Filter -> seq<Grid>,
    kernel: (Grid, int, int, int, int) -> Transform,
    adjustment: Option<(Rule, seq<Grid>) -> seq<Grid>>)

  /** One array per level, level `i` of shape `size[i]`. */
  ghost predicate Shaped<T>(g: seq<seq<seq<T>>>, size: seq<Size>)
  {
    |g| == |size| && forall i :: 0 <= i < |size| ==> IsGrid(g[i], size[i].0, size[i].1)
  }

  /** The cost of a displacement `(dx, dy)` under the deformation weights
      `ax, bx, ay, by` of the code, here the quadratic and linear weights
      `qx, lx, qy, ly`; the deformation score is its negation. */
  function Penalty(qx: int, lx: int, qy: int, ly: int, dx: int, dy: int): int
  {
    qx * dx * dx + lx * dx + qy * dy * dy + ly * dy
  }

  /** The kernel's contract on one input array: the outputs have the input's
      shape, and a finite output cell holds the score of an input cell inside
      the array, minus the penalty of the displacement from that cell. */
  ghost predicate TransformOk(g: Grid, t: Transform, qx: int, lx: int, qy: int, ly: int)
  {
    && Rect(g)
    && IsGrid(t.score, Rows(g), Cols(g))
    && IsGrid(t.ix, Rows(g), Cols(g))
    && IsGrid(t.iy, Rows(g), Cols(g))
    && forall r, c :: 0 <= r < Rows(g) && 0 <= c < Cols(g) && t.score[r][c].Fin? ==>
         && 0 <= t.iy[r][c] < Rows(g) && 0 <= t.ix[r][c] < Cols(g)
         && t.score[r][c] == Minus(g[t.iy[r][c]][t.ix[r][c]], Penalty(qx, lx, qy, ly, c - t.ix[r][c], r - t.iy[r][c]))
  }

  /** The environment's contract: one non-negative size per pyramid level,
      terminal responses of that shape, a kernel keeping `TransformOk`, and
      an adjustment that keeps the shape. */
  ghost predicate EnvValid(env: Env)
  {
    && |env.size| == |env.pyramid.levels|
    && (forall i :: 0 <= i < |env.size| ==> env.size[i].0 >= 0 && env.size[i].1 >= 0)
    && (forall f :: Shaped(env.response(f), env.size))
    && (forall g, qx, lx, qy, ly :: Rect(g) ==> TransformOk(g, env.kernel(g, qx, lx, qy, ly), qx, lx, qy, ly))
    && (env.adjustment.Some? ==>
          forall r, g :: Shaped(g, env.size) ==> Shaped(env.adjustment.value(r, g), env.size))
  }

  lemma ShapedRect(g: seq<Grid>, size: seq<Size>, i: int)
    requires Shaped(g, size) && 0 <= i < |size| && size[i].1 >= 0
    ensures Rect(g[i])
  {
  }

  // ---------------------------------------------------------------------
  // bias and location scores
  // ---------------------------------------------------------------------

  /** The octave bucket of level `l`: 0 below `interval`, 1 below
      `2 * interval`, 2 otherwise. */
  function Bucket(l: int, interval: nat): (k: nat)
    ensures k < 3
  {
    if l < interval then 0 else if l < 2 * interval then 1 else 2
  }

  /** `loc_f`: a 3 x n array of zeros whose row `k` is set to 1 on the slice
      of levels of bucket `k`. */
  function LocMatrix(interval: nat, n: nat): (m: seq<seq<int>>)
    ensures |m| == 3 && forall k :: 0 <= k < 3 ==> |m[k]| == n
  {
    [seq(n, i => if i < interval then 1 else 0),
     seq(n, i => if interval <= i < 2 * interval then 1 else 0),
     seq(n, i => if 2 * interval <= i then 1 else 0)]
  }

  /** `loc_w.dot(loc_f)`: the location score of every level, which is the
      weight of the level's octave bucket. */
  function LocScores(w: seq<int>, interval: nat, n: nat): (r: seq<int>)
    requires |w| == 3
    ensures |r| == n
    ensures forall i :: 0 <= i < n ==> r[i] == w[Bucket(i, interval)]
  {
    var m := LocMatrix(interval, n);
    seq(n, i requires 0 <= i < n => w[0] * m[0][i] + w[1] * m[1][i] + w[2] * m[2][i])
  }

  /** `offset.GetParameters() * features.bias`: a rule's bias term, the
      offset weight times the bias feature. */
  function RuleBias(r: Rule, env: Env): int
    requires |r.offset.block.w| == 1
  {
    r.offset.block.w[0] * env.featureBias
  }

  /** The bias term `FilteredDeformationRule.__init__` computes: the offset
      weight alone, not scaled by the bias feature. */
  function DeformationBiasAsWritten(r: Rule): int
    requires |r.offset.block.w| == 1
  {
    r.offset.block.w[0]
  }

  /** `Def.GetParameters()`: the block's weights, the second (the linear
      horizontal term) negated for a mirrored deformation. */
  function DefParams(d: Def): (p: seq<int>)
    ensures |p| == |d.block.w|
    ensures forall k :: 0 <= k < |p| && k != 1 ==> p[k] == d.block.w[k]
    ensures |p| > 1 ==> p[1] == if d.flip then -d.block.w[1] else d.block.w[1]
  {
    if d.flip && |d.block.w| > 1 then d.block.w[1 := -d.block.w[1]] else d.block.w
  }

  // ---------------------------------------------------------------------
  // the OR of a non-terminal's rules
  // ---------------------------------------------------------------------

  /** The element-wise maximum of two pyramids of score arrays. */
  function MaxLevels(a: seq<Grid>, b: seq<Grid>, size: seq<Size>): (r: seq<Grid>)
    requires Shaped(a, size) && Shaped(b, size)
    requires forall i :: 0 <= i < |size| ==> size[i].0 >= 0 && size[i].1 >= 0
    ensures Shaped(r, size)
    ensures forall i, y, x :: 0 <= i < |size| && 0 <= y < size[i].0 && 0 <= x < size[i].1 ==>
              r[i][y][x] == Max(a[i][y][x], b[i][y][x])
  {
    seq(|size|, i requires 0 <= i < |size| => MaxGrid(a[i], b[i], size[i].0 as nat, size[i].1 as nat))
  }

  ghost predicate AllShaped(ps: seq<seq<Grid>>, size: seq<Size>)
  {
    forall k :: 0 <= k < |ps| ==> Shaped(ps[k], size)
  }

  ghost predicate SizesOk(size: seq<Size>)
  {
    forall i :: 0 <= i < |size| ==> size[i].0 >= 0 && size[i].1 >= 0
  }

  /** The score of a non-terminal: the first rule's, then folded with each
      further rule's by the element-wise maximum. */
  function OrScore(ps: seq<seq<Grid>>, size: seq<Size>): (r: seq<Grid>)
    requires |ps| > 0 && AllShaped(ps, size) && SizesOk(size)
    ensures Shaped(r, size)
    decreases |ps|
  {
    if |ps| == 1 then ps[0] else MaxLevels(OrScore(ps[..|ps| - 1], size), ps[|ps| - 1], size)
  }

  /** Every cell of the OR is at least every rule's cell and equal to the
      cell of some rule. */
  lemma {:induction false} OrIsMax(ps: seq<seq<Grid>>, size: seq<Size>, i: int, y: int, x: int)
    requires |ps| > 0 && AllShaped(ps, size) && SizesOk(size)
    requires 0 <= i < |size| && 0 <= y < size[i].0 && 0 <= x < size[i].1
    ensures forall k :: 0 <= k < |ps| ==> Le(ps[k][i][y][x], OrScore(ps, size)[i][y][x])
    ensures exists k :: 0 <= k < |ps| && OrScore(ps, size)[i][y][x] == ps[k][i][y][x]
    decreases |ps|
  {
    if |ps| > 1 {
      var init := ps[..|ps| - 1];
      OrIsMax(init, size, i, y, x);
      assert forall k :: 0 <= k < |init| ==> init[k] == ps[k];
      var m := OrScore(init, size)[i][y][x];
      var last := ps[|ps| - 1][i][y][x];
      assert OrScore(ps, size)[i][y][x] == Max(m, last);
      if OrScore(ps, size)[i][y][x] == m {
        var k :| 0 <= k < |init| && m == init[k][i][y][x];
        assert OrScore(ps, size)[i][y][x] == ps[k][i][y][x];
      } else {
        assert OrScore(ps, size)[i][y][x] == ps[|ps| - 1][i][y][x];
      }
      forall k | 0 <= k < |ps| ensures Le(ps[k][i][y][x], OrScore(ps, size)[i][y][x]) {
        if k < |ps| - 1 {
          assert Le(ps[k][i][y][x], m);
        }
      }
    }
  }

  /** The loop of `FilteredSymbol.__init__` over `self.rules[1:]`,
      reassigning `self.score` to the maximum with each further rule. */
  method OrCombine(ps: seq<seq<Grid>>, size: seq<Size>) returns (score: seq<Grid>)
    requires |ps| > 0 && AllShaped(ps, size) && SizesOk(size)
    ensures score == OrScore(ps, size)
  {
    score := ps[0];
    assert ps[..1] == [ps[0]];
    var k := 1;
    while k < |ps|
      invariant 1 <= k <= |ps|
      invariant score == OrScore(ps[..k], size)
    {
      var next := [];
      var i := 0;
      while i < |size|
        invariant 0 <= i <= |size| && |next| == i
        invariant forall j :: 0 <= j < i ==> next[j] == MaxGrid(score[j], ps[k][j], size[j].0 as nat, size[j].1 as nat)
      {
        next := next + [MaxGrid(score[i], ps[k][i], size[i].0 as nat, size[i].1 as nat)];
        i := i + 1;
      }
      assert ps[..k + 1][..k] == ps[..k];
      score := next;
      k := k + 1;
    }
    assert ps[..|ps|] == ps;
  }

  // ---------------------------------------------------------------------
  // the filtered grammar
  // ---------------------------------------------------------------------

  datatype FSymbol =
    | FTerminal(filter: Filter, score: seq<Grid>)
    | FNonTerminal(rules: seq<FRule>, score: seq<Grid>)

  /** A filtered rule: the rule it came from, its filtered children, its
      (possibly adjusted) score, the score before adjustment (`None` when
      there is no adjustment) and, for a deformation rule, the kernel's
      displacement fields. */
  datatype FRule =
    | FStructural(rule: Rule, rhs: seq<FSymbol>, score: seq<Grid>, original: Option<seq<Grid>>)
    | FDeformation(rule: Rule, rhs: seq<FSymbol>, score: seq<Grid>, original: Option<seq<Grid>>,
                   ix: seq<IGrid>, iy: seq<IGrid>)

  /** `model.loss_adjustment(rule, score)` when there is one. */
  function Adjust(env: Env, r: Rule, score: seq<Grid>): (a: seq<Grid>)
    requires EnvValid(env) && Shaped(score, env.size)
    ensures Shaped(a, env.size)
    ensures env.adjustment.None? ==> a == score
  {
    match env.adjustment
    case Some(adj) => adj(r, score)
    case None => score
  }

  /** `score_original`: kept only when there is an adjustment. */
  function Original(env: Env, score: seq<Grid>): (o: Option<seq<Grid>>)
    ensures o.Some? <==> env.adjustment.Some?
    ensures o.Some? ==> o.value == score
  {
    if env.adjustment.Some? then Some(score) else None
  }

  /** The per-level base of a structural rule, `bias + loc_score`. */
  function StructuralBase(r: Rule, env: Env): (b: seq<int>)
    requires WellFormedRule(r)
    ensures |b| == |env.size|
    ensures forall i :: 0 <= i < |env.size| ==>
              b[i] == RuleBias(r, env) + r.loc.block.w[Bucket(i, env.pyramid.interval)]
  {
    var loc := LocScores(r.loc.block.w, env.pyramid.interval, |env.size|);
    seq(|env.size|, i requires 0 <= i < |env.size| => RuleBias(r, env) + loc[i])
  }

  /** The kernel's input at level `i` of a deformation rule:
      `bias + loc_score + child score`. */
  function DeformationInput(r: Rule, env: Env, child: seq<Grid>, i: int): (g: Grid)
    requires EnvValid(env) && WellFormedRule(r) && Shaped(child, env.size) && 0 <= i < |env.size|
    ensures IsGrid(g, env.size[i].0, env.size[i].1)
    ensures forall y, x :: 0 <= y < env.size[i].0 && 0 <= x < env.size[i].1 ==>
              g[y][x] == Plus(child[i][y][x], Fin(RuleBias(r, env) + r.loc.block.w[Bucket(i, env.pyramid.interval)]))
  {
    var loc := LocScores(r.loc.block.w, env.pyramid.interval, |env.size|);
    AddScalar(child[i], RuleBias(r, env) + loc[i], env.size[i].0 as nat, env.size[i].1 as nat)
  }

  /** The kernel applied at every level of a deformation rule. */
  function DeformationOut(r: Rule, env: Env, child: seq<Grid>): (t: seq<Transform>)
    requires EnvValid(env) && WellFormedRule(r) && r.Deformation? && Shaped(child, env.size)
    ensures |t| == |env.size|
    ensures forall i :: 0 <= i < |env.size| ==>
              TransformOk(DeformationInput(r, env, child, i), t[i],
                          DefParams(r.df)[0], DefParams(r.df)[1], DefParams(r.df)[2], DefParams(r.df)[3])
  {
    var p := DefParams(r.df);
    seq(|env.size|, i requires 0 <= i < |env.size| =>
      env.kernel(DeformationInput(r, env, child, i), p[0], p[1], p[2], p[3]))
  }

  function ScoreFields(ts: seq<Transform>): (s: seq<Grid>)
    ensures |s| == |ts| && forall i :: 0 <= i < |ts| ==> s[i] == ts[i].score
  {
    seq(|ts|, i requires 0 <= i < |ts| => ts[i].score)
  }

  function IxFields(ts: seq<Transform>): (s: seq<IGrid>)
    ensures |s| == |ts| && forall i :: 0 <= i < |ts| ==> s[i] == ts[i].ix
  {
    seq(|ts|, i requires 0 <= i < |ts| => ts[i].ix)
  }

  function IyFields(ts: seq<Transform>): (s: seq<IGrid>)
    ensures |s| == |ts| && forall i :: 0 <= i < |ts| ==> s[i] == ts[i].iy
  {
    seq(|ts|, i requires 0 <= i < |ts| => ts[i].iy)
  }

  /** The children's score pyramids. */
  function ChildScores(rhs: seq<FSymbol>): (s: seq<seq<Grid>>)
    ensures |s| == |rhs| && forall k :: 0 <= k < |rhs| ==> s[k] == rhs[k].score
  {
    seq(|rhs|, k requires 0 <= k < |rhs| => rhs[k].score)
  }

  function RuleScores(rules: seq<FRule>): (s: seq<seq<Grid>>)
    ensures |s| == |rules| && forall k :: 0 <= k < |rules| ==> s[k] == rules[k].score
  {
    seq(|rules|, k requires 0 <= k < |rules| => rules[k].score)
  }

  /** The shape facts `CombineStructural` needs hold for a filtered rule. */
  lemma StructuralInputs(r: Rule, env: Env, rhs: seq<FSymbol>)
    requires EnvValid(env) && WellFormedRule(r) && r.Structural? && |rhs| == |r.rhs|
    requires forall k :: 0 <= k < |rhs| ==> Shaped(rhs[k].score, env.size)
    ensures Inputs(StructuralBase(r, env), ChildScores(rhs), r.anchor, env.size)
  {
    forall j, l | 0 <= j < |rhs| && 0 <= l < |env.size| ensures Rect(ChildScores(rhs)[j][l]) {
      ShapedRect(rhs[j].score, env.size, l);
    }
  }

  /** `Symbol.Filter`: the filtered symbol and, recursively, its rules. */
  function FilterSymbol(s: Symbol, env: Env): (f: FSymbol)
    requires EnvValid(env) && WellFormedSymbol(s)
    ensures Shaped(f.score, env.size)
    ensures s.Terminal? <==> f.FTerminal?
    ensures s.Terminal? ==> f == FTerminal(s.filter, env.response(s.filter))
    ensures s.NonTerminal? ==> |f.rules| == |s.rules| && |f.rules| > 0
    ensures s.NonTerminal? ==> forall k :: 0 <= k < |s.rules| ==> f.rules[k] == FilterRule(s.rules[k], env)
    decreases s, 1
  {
    match s
    case Terminal(flt) => FTerminal(flt, env.response(flt))
    case NonTerminal(rules) =>
      var frs := seq(|rules|, k requires 0 <= k < |rules| => FilterRule(rules[k], env));
      FNonTerminal(frs, OrScore(RuleScores(frs), env.size))
  }

  /** `Rule.Filter`: the filtered rule, its children filtered first. */
  function FilterRule(r: Rule, env: Env): (f: FRule)
    requires EnvValid(env) && WellFormedRule(r)
    ensures Shaped(f.score, env.size)
    ensures f.rule == r && (r.Structural? <==> f.FStructural?)
    ensures |f.rhs| == |r.rhs| && forall k :: 0 <= k < |r.rhs| ==> f.rhs[k] == FilterSymbol(r.rhs[k], env)
    ensures forall k :: 0 <= k < |f.rhs| ==> Shaped(f.rhs[k].score, env.size)
    ensures f.original.Some? <==> env.adjustment.Some?
    ensures f.original.Some? ==> Shaped(f.original.value, env.size)
    ensures env.adjustment.None? ==> f.score == RawScore(f, env)
    ensures env.adjustment.Some? ==>
              f.original == Some(RawScore(f, env)) && f.score == env.adjustment.value(r, RawScore(f, env))
    ensures f.FDeformation? ==> Shaped(f.ix, env.size) && Shaped(f.iy, env.size)
    decreases r, 1
  {
    var rhs := FilterChildren(r, env);
    RawShaped(r, env, rhs);
    var raw := RawOf(r, env, rhs);
    match r
    case Structural(_, _, _, _) =>
      FStructural(r, rhs, Adjust(env, r, raw), Original(env, raw))
    case Deformation(_, _, _, _) =>
      var outs := DeformationOut(r, env, rhs[0].score);
      FDeformation(r, rhs, Adjust(env, r, raw), Original(env, raw), IxFields(outs), IyFields(outs))
  }

  function FilterChildren(r: Rule, env: Env): (rhs: seq<FSymbol>)
    requires EnvValid(env) && WellFormedRule(r)
    ensures |rhs| == |r.rhs| && forall k :: 0 <= k < |r.rhs| ==> rhs[k] == FilterSymbol(r.rhs[k], env)
    ensures forall k :: 0 <= k < |rhs| ==> Shaped(rhs[k].score, env.size)
    decreases r, 0
  {
    seq(|r.rhs|, k requires 0 <= k < |r.rhs| => FilterSymbol(r.rhs[k], env))
  }

  /** A rule's score before any adjustment, from its filtered children. */
  function RawOf(r: Rule, env: Env, rhs: seq<FSymbol>): seq<Grid>
    requires EnvValid(env) && WellFormedRule(r) && |rhs| == |r.rhs|
    requires forall k :: 0 <= k < |rhs| ==> Shaped(rhs[k].score, env.size)
  {
    match r
    case Structural(_, anchors, _, _) =>
      StructuralInputs(r, env, rhs);
      StructuralScore(StructuralBase(r, env), ChildScores(rhs), anchors, env.size, env.pyramid)
    case Deformation(_, _, _, _) =>
      ScoreFields(DeformationOut(r, env, rhs[0].score))
  }

  lemma RawShaped(r: Rule, env: Env, rhs: seq<FSymbol>)
    requires EnvValid(env) && WellFormedRule(r) && |rhs| == |r.rhs|
    requires forall k :: 0 <= k < |rhs| ==> Shaped(rhs[k].score, env.size)
    ensures Shaped(RawOf(r, env, rhs), env.size)
  {
    if r.Deformation? {
      var outs := DeformationOut(r, env, rhs[0].score);
      forall i | 0 <= i < |env.size| ensures IsGrid(outs[i].score, env.size[i].0, env.size[i].1) {
        var g := DeformationInput(r, env, rhs[0].score, i);
        assert Rows(g) == env.size[i].0;
        assert Rows(g) > 0 ==> Cols(g) == env.size[i].1;
      }
    }
  }

  /** The score a filtered rule has before adjustment. */
  function RawScore(f: FRule, env: Env): seq<Grid>
    requires EnvValid(env) && WellFormedRule(f.rule) && |f.rhs| == |f.rule.rhs|
    requires forall k :: 0 <= k < |f.rhs| ==> Shaped(f.rhs[k].score, env.size)
  {
    RawOf(f.rule, env, f.rhs)
  }
  // ---------------------------------------------------------------------
  // the constructors, step by step
  // ---------------------------------------------------------------------

  /** `FilteredSymbol.__init__`: filter the rules one after another, then
      fold their scores with `OrCombine`. */
  method FilterSymbolM(s: Symbol, env: Env) returns (f: FSymbol)
    requires EnvValid(env) && WellFormedSymbol(s)
    ensures f == FilterSymbol(s, env)
    decreases s, 1
  {
    match s {
      case Terminal(flt) =>
        f := FTerminal(flt, env.response(flt));
      case NonTerminal(rules) =>
        var frs := FilterRulesM(s, env);
        assert frs == FilterSymbol(s, env).rules;
        var score := OrCombine(RuleScores(frs), env.size);
        f := FNonTerminal(frs, score);
    }
  }

  /** `FilteredStructuralRule.__init__` and `FilteredDeformationRule.__init__`:
      filter the children, combine their scores, then adjust. */
  method FilterRuleM(r: Rule, env: Env) returns (f: FRule)
    requires EnvValid(env) && WellFormedRule(r)
    ensures f == FilterRule(r, env)
    decreases r, 1
  {
    var rhs := FilterChildrenM(r, env);
    match r {
      case Structural(_, anchors, _, _) =>
        StructuralInputs(r, env, rhs);
        var score := CombineStructural(StructuralBase(r, env), ChildScores(rhs), anchors, env.size, env.pyramid);
        RawShaped(r, env, rhs);
        f := FStructural(r, rhs, Adjust(env, r, score), Original(env, score));
      case Deformation(_, _, _, _) =>
        var outs := DeformationOut(r, env, rhs[0].score);
        RawShaped(r, env, rhs);
        var score := ScoreFields(outs);
        f := FDeformation(r, rhs, Adjust(env, r, score), Original(env, score), IxFields(outs), IyFields(outs));
    }
  }

  /** `[r.Filter(model) for r in symbol.rules]`. */
  method FilterRulesM(s: Symbol, env: Env) returns (frs: seq<FRule>)
    requires EnvValid(env) && WellFormedSymbol(s) && s.NonTerminal?
    ensures |frs| == |s.rules| && forall j :: 0 <= j < |s.rules| ==> frs[j] == FilterRule(s.rules[j], env)
    decreases s, 0
  {
    frs := [];
    var k := 0;
    while k < |s.rules|
      invariant 0 <= k <= |s.rules| && |frs| == k
      invariant forall j :: 0 <= j < k ==> frs[j] == FilterRule(s.rules[j], env)
    {
      var fr := FilterRuleM(s.rules[k], env);
      frs := frs + [fr];
      k := k + 1;
    }
  }

  /** `[s.Filter(model) for s in rule.rhs]`. */
  method FilterChildrenM(r: Rule, env: Env) returns (rhs: seq<FSymbol>)
    requires EnvValid(env) && WellFormedRule(r)
    ensures rhs == FilterChildren(r, env)
    decreases r, 0
  {
    rhs := [];
    var k := 0;
    while k < |r.rhs|
      invariant 0 <= k <= |r.rhs| && |rhs| == k
      invariant forall j :: 0 <= j < k ==> rhs[j] == FilterSymbol(r.rhs[j], env)
    {
      var child := FilterSymbolM(r.rhs[k], env);
      rhs := rhs + [child];
      k := k + 1;
    }
  }
}

/** The invariant the filtered grammar keeps and that a parse relies on:
    every finite cell of a symbol is explained by one of its rules, and
    every finite cell of a rule by finite cells of its children, found where
    the parse looks for them. */
module FilterFacts {
  import opened Scores
  import opened Geometry
  import opened Grammar
  import opened Sizes
  import opened Structural
  import opened Filtered

  /** Level `l`, cell `(y, x)` lies inside the arrays of `model.size`. */
  ghost predicate InGrid(size: seq<Size>, l: int, y: int, x: int)
  {
    0 <= l < |size| && 0 <= y < size[l].0 && 0 <= x < size[l].1
  }

  /** Cell `(l, y, x)` of a pyramid of arrays shaped by `size` is finite. */
  ghost predicate FiniteAt(g: seq<Grid>, size: seq<Size>, l: int, y: int, x: int)
  {
    Shaped(g, size) && InGrid(size, l, y, x) && g[l][y][x].Fin?
  }

  /** An adjustment that never turns a -inf cell finite. */
  ghost predicate FinitePreserving(env: Env)
  {
    env.adjustment.Some? ==>
      forall r: Rule, g: seq<Grid>, l: int, y: int, x: int ::
        Shaped(g, env.size) && FiniteAt(env.adjustment.value(r, g), env.size, l, y, x) ==>
          FiniteAt(g, env.size, l, y, x)
  }

  /** A filtered rule's score before adjustment. */
  function Unadjusted(fr: FRule): seq<Grid>
  {
    if fr.original.Some? then fr.original.value else fr.score
  }

  ghost predicate CoherentSymbol(fs: FSymbol, env: Env)
    decreases fs, 1
  {
    && Shaped(fs.score, env.size)
    && match fs
       case FTerminal(_, _) => true
       case FNonTerminal(rules, score) =>
         && |rules| > 0
         && (forall k :: 0 <= k < |rules| ==> CoherentRule(rules[k], env))
         && (forall k :: 0 <= k < |rules| ==> Shaped(rules[k].score, env.size))
         && forall l, y, x :: FiniteAt(score, env.size, l, y, x) ==>
              exists k :: 0 <= k < |rules| && rules[k].score[l][y][x] == score[l][y][x]
  }

  ghost predicate CoherentRule(fr: FRule, env: Env)
    decreases fr, 0
  {
    && Shaped(fr.score, env.size)
    && Shaped(Unadjusted(fr), env.size)
    && (forall k :: 0 <= k < |fr.rhs| ==> CoherentSymbol(fr.rhs[k], env))
    && (fr.original.Some? <==> env.adjustment.Some?)
    && (forall l, y, x :: FiniteAt(fr.score, env.size, l, y, x) ==> FiniteAt(Unadjusted(fr), env.size, l, y, x))
    && match fr
       case FStructural(rule, rhs, _, _) =>
         && rule.Structural? && |rule.anchor| == |rhs|
         && forall j, l, y, x :: 0 <= j < |rhs| && FiniteAt(Unadjusted(fr), env.size, l, y, x) ==>
              FiniteAt(rhs[j].score, env.size, ChildLevel(l, env.pyramid.interval, rule.anchor[j].ds),
                       Source(y, rule.anchor[j].ay, env.pyramid.pady, rule.anchor[j].ds),
                       Source(x, rule.anchor[j].ax, env.pyramid.padx, rule.anchor[j].ds))
       case FDeformation(_, rhs, _, _, ixs, iys) =>
         && |rhs| == 1 && Shaped(ixs, env.size) && Shaped(iys, env.size)
         && forall l, y, x :: FiniteAt(Unadjusted(fr), env.size, l, y, x) ==>
              FiniteAt(rhs[0].score, env.size, l, iys[l][y][x], ixs[l][y][x])
  }

  /** A filtered rule's unadjusted score is the one it was computed with. */
  lemma UnadjustedIsRaw(r: Rule, env: Env)
    requires EnvValid(env) && WellFormedRule(r)
    ensures Unadjusted(FilterRule(r, env)) == RawScore(FilterRule(r, env), env)
    ensures Shaped(RawScore(FilterRule(r, env), env), env.size)
  {
    var fr := FilterRule(r, env);
    RawShaped(r, env, fr.rhs);
  }

  /** A finite adjusted cell was finite before adjustment. */
  lemma AdjustedFinite(r: Rule, env: Env)
    requires EnvValid(env) && FinitePreserving(env) && WellFormedRule(r)
    ensures forall l, y, x :: FiniteAt(FilterRule(r, env).score, env.size, l, y, x) ==>
              FiniteAt(Unadjusted(FilterRule(r, env)), env.size, l, y, x)
  {
    UnadjustedIsRaw(r, env);
  }

  /** A finite cell of a structural rule has finite children cells, each at
      its anchor one `ds` octaves finer. */
  lemma StructuralExplained(r: Rule, env: Env)
    requires EnvValid(env) && WellFormedRule(r) && r.Structural?
    ensures var fr := FilterRule(r, env);
            forall j, l, y, x :: 0 <= j < |fr.rhs| && FiniteAt(RawScore(fr, env), env.size, l, y, x) ==>
              FiniteAt(fr.rhs[j].score, env.size, ChildLevel(l, env.pyramid.interval, r.anchor[j].ds),
                       Source(y, r.anchor[j].ay, env.pyramid.pady, r.anchor[j].ds),
                       Source(x, r.anchor[j].ax, env.pyramid.padx, r.anchor[j].ds))
  {
    var fr := FilterRule(r, env);
    var base, kids := StructuralBase(r, env), ChildScores(fr.rhs);
    StructuralInputs(r, env, fr.rhs);
    assert RawScore(fr, env) == StructuralScore(base, kids, r.anchor, env.size, env.pyramid);
    forall j, l, y, x | 0 <= j < |fr.rhs| && FiniteAt(RawScore(fr, env), env.size, l, y, x)
      ensures FiniteAt(kids[j], env.size, ChildLevel(l, env.pyramid.interval, r.anchor[j].ds),
                       Source(y, r.anchor[j].ay, env.pyramid.pady, r.anchor[j].ds),
                       Source(x, r.anchor[j].ax, env.pyramid.padx, r.anchor[j].ds))
    {
      FiniteCell(base, kids, r.anchor, env.size, env.pyramid, l, y, x, j);
      var cl := ChildLevel(l, env.pyramid.interval, r.anchor[j].ds);
      assert IsGrid(kids[j][cl], env.size[cl].0, env.size[cl].1);
    }
  }

  /** A finite cell of a deformation rule has a finite child cell where the
      displacement fields point. */
  lemma DeformationExplained(r: Rule, env: Env)
    requires EnvValid(env) && WellFormedRule(r) && r.Deformation?
    ensures var fr := FilterRule(r, env);
            fr.FDeformation? &&
            forall l, y, x :: FiniteAt(RawScore(fr, env), env.size, l, y, x) ==>
              FiniteAt(fr.rhs[0].score, env.size, l, fr.iy[l][y][x], fr.ix[l][y][x])
  {
    var fr := FilterRule(r, env);
    var child: seq<Grid> := fr.rhs[0].score;
    var outs := DeformationOut(r, env, child);
    assert RawScore(fr, env) == ScoreFields(outs);
    forall l, y, x | FiniteAt(RawScore(fr, env), env.size, l, y, x)
      ensures FiniteAt(child, env.size, l, fr.iy[l][y][x], fr.ix[l][y][x])
    {
      var g := DeformationInput(r, env, child, l);
      var p := DefParams(r.df);
      assert TransformOk(g, outs[l], p[0], p[1], p[2], p[3]);
      assert Rows(g) == env.size[l].0 && Cols(g) == env.size[l].1;
      assert fr.iy[l] == outs[l].iy && fr.ix[l] == outs[l].ix;
      assert g[outs[l].iy[y][x]][outs[l].ix[y][x]].Fin?;
    }
  }

  /** Filtering a symbol keeps the invariant, given a finiteness-preserving
      adjustment. */
  lemma {:induction false} SymbolCoherent(s: Symbol, env: Env)
    requires EnvValid(env) && FinitePreserving(env) && WellFormedSymbol(s)
    ensures CoherentSymbol(FilterSymbol(s, env), env)
    decreases s, 1
  {
    if s.NonTerminal? {
      var fs := FilterSymbol(s, env);
      forall k | 0 <= k < |s.rules| ensures CoherentRule(fs.rules[k], env) {
        RuleCoherent(s.rules[k], env);
      }
      OrExplained(s, env);
    }
  }

  /** Every finite cell of a non-terminal is some rule's score there. */
  lemma OrExplained(s: Symbol, env: Env)
    requires EnvValid(env) && WellFormedSymbol(s) && s.NonTerminal?
    ensures var fs := FilterSymbol(s, env);
            forall l, y, x :: FiniteAt(fs.score, env.size, l, y, x) ==>
              exists k :: 0 <= k < |fs.rules| && fs.rules[k].score[l][y][x] == fs.score[l][y][x]
  {
    var fs := FilterSymbol(s, env);
    var ps := RuleScores(fs.rules);
    assert fs.score == OrScore(ps, env.size);
    forall l, y, x | FiniteAt(fs.score, env.size, l, y, x)
      ensures exists k :: 0 <= k < |fs.rules| && fs.rules[k].score[l][y][x] == fs.score[l][y][x]
    {
      OrIsMax(ps, env.size, l, y, x);
    }
  }

  /** Filtering a rule keeps the invariant. */
  lemma {:induction false} RuleCoherent(r: Rule, env: Env)
    requires EnvValid(env) && FinitePreserving(env) && WellFormedRule(r)
    ensures CoherentRule(FilterRule(r, env), env)
    decreases r, 0
  {
    var fr := FilterRule(r, env);
    forall k | 0 <= k < |fr.rhs| ensures CoherentSymbol(fr.rhs[k], env) {
      SymbolCoherent(r.rhs[k], env);
    }
    UnadjustedIsRaw(r, env);
    AdjustedFinite(r, env);
    if r.Structural? {
      StructuralExplained(r, env);
    } else {
      DeformationExplained(r, env);
    }
  }

  /** `[s + c for s in score]`: every cell of every level raised by `c`. */
  function ShiftLevels(g: seq<Grid>, c: int): (r: seq<Grid>)
    ensures |r| == |g| && forall i :: 0 <= i < |g| ==> |r[i]| == |g[i]|
    ensures forall i, y :: 0 <= i < |g| && 0 <= y < |g[i]| ==> |r[i][y]| == |g[i][y]|
    ensures forall i, y, x :: 0 <= i < |g| && 0 <= y < |g[i]| && 0 <= x < |g[i][y]| ==>
              r[i][y][x] == Plus(g[i][y][x], Fin(c))
  {
    seq(|g|, i requires 0 <= i < |g| =>
      seq(|g[i]|, y requires 0 <= y < |g[i]| =>
        seq(|g[i][y]|, x requires 0 <= x < |g[i][y]| => Plus(g[i][y][x], Fin(c)))))
  }

  /** The loss adjustment adds the constant `c` to every score. */
  ghost predicate UniformShift(env: Env, c: int)
  {
    env.adjustment.Some? && forall r, g :: env.adjustment.value(r, g) == ShiftLevels(g, c)
  }

  /** Every rule of the filtered grammar below `fs` keeps its unadjusted
      score, and its score is that one raised by `c`. */
  ghost predicate ShiftedSymbol(fs: FSymbol, c: int)
    decreases fs, 1
  {
    fs.FNonTerminal? ==> forall k :: 0 <= k < |fs.rules| ==> ShiftedRule(fs.rules[k], c)
  }

  ghost predicate ShiftedRule(fr: FRule, c: int)
    decreases fr, 0
  {
    && fr.original.Some? && fr.score == ShiftLevels(fr.original.value, c)
    && forall k :: 0 <= k < |fr.rhs| ==> ShiftedSymbol(fr.rhs[k], c)
  }

  /** Filtering under a uniform adjustment shifts every rule's score. */
  lemma {:induction false} SymbolShifted(s: Symbol, env: Env, c: int)
    requires EnvValid(env) && UniformShift(env, c) && WellFormedSymbol(s)
    ensures ShiftedSymbol(FilterSymbol(s, env), c)
    decreases s, 1
  {
    if s.NonTerminal? {
      var fs := FilterSymbol(s, env);
      forall k | 0 <= k < |s.rules| ensures ShiftedRule(fs.rules[k], c) {
        RuleShifted(s.rules[k], env, c);
      }
    }
  }

  lemma {:induction false} RuleShifted(r: Rule, env: Env, c: int)
    requires EnvValid(env) && UniformShift(env, c) && WellFormedRule(r)
    ensures ShiftedRule(FilterRule(r, env), c)
    decreases r, 0
  {
    var fr := FilterRule(r, env);
    forall k | 0 <= k < |fr.rhs| ensures ShiftedSymbol(fr.rhs[k], c) {
      SymbolShifted(r.rhs[k], env, c);
    }
  }

  /** A uniform shift keeps -inf cells -inf. */
  lemma ShiftPreservesFinite(env: Env, c: int)
    requires UniformShift(env, c)
    ensures FinitePreserving(env)
  {
  }
}

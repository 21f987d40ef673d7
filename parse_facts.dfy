/** What parsing a filtered grammar guarantees: every finite cell of a
    filtered symbol parses, and a uniform loss adjustment adds up over the
    tree. */
module ParseFacts {
  import opened Scores
  import opened Geometry
  import opened Grammar
  import opened Structural
  import opened Filtered
  import opened FilterFacts
  import opened Parse

  /** The first matching rule is found when some rule matches and every
      rule's cell can be read. */
  lemma {:induction false} SelectRuleFinds(rules: seq<FRule>, k: nat, l: int, y: int, x: int, s: Score, j: int)
    requires k <= j < |rules| && ReadAt(rules[j].score, l, y, x) == Some(s)
    requires forall i :: k <= i < |rules| ==> ReadAt(rules[i].score, l, y, x).Some?
    ensures SelectRule(rules, k, l, y, x, s).Ok? && SelectRule(rules, k, l, y, x, s).value <= j
    decreases j - k
  {
    if ReadAt(rules[k].score, l, y, x) != Some(s) {
      SelectRuleFinds(rules, k + 1, l, y, x, s, j);
    }
  }

  /** Whatever the pruning, any rule scoring `s` at the cell prevents
      `RuleArgmaxNotFound`; the selected rule is the first such one. */
  lemma SelectFinite(fs: FSymbol, env: Env, l: int, y: int, x: int) returns (j: nat)
    requires CoherentSymbol(fs, env) && fs.FNonTerminal? && FiniteAt(fs.score, env.size, l, y, x)
    ensures j < |fs.rules| && SelectRule(fs.rules, 0, l, y, x, fs.score[l][y][x]) == Ok(j)
    ensures CoherentRule(fs.rules[j], env) && FiniteAt(fs.rules[j].score, env.size, l, y, x)
    ensures fs.rules[j].score[l][y][x] == fs.score[l][y][x]
  {
    var rules := fs.rules;
    var k :| 0 <= k < |rules| && rules[k].score[l][y][x] == fs.score[l][y][x];
    forall i | 0 <= i < |rules| ensures ReadAt(rules[i].score, l, y, x) == Some(rules[i].score[l][y][x]) {
    }
    SelectRuleFinds(rules, 0, l, y, x, fs.score[l][y][x], k);
    j := SelectRule(rules, 0, l, y, x, fs.score[l][y][x]).value;
  }

  lemma VirtualRoundTrip(p: int, pad: int, d: nat)
    ensures Virtual(NonVirtual(p, pad, d), pad, d) == p
  {
  }

  /** Where child `j` of a structural rule is read, in raw coordinates. */
  lemma ChildPosition(t: int, a: int, pad: int, ds: nat, ads: nat)
    ensures NonVirtual(AnchorCoord(t, a, ads), pad, ds + ads) == Source(NonVirtual(t, pad, ds), a, pad, ads)
  {
    VirtualRoundTrip(t, pad, ds);
    AnchorNonVirtual(NonVirtual(t, pad, ds), a, pad, ds, ads);
  }

  /** Parsing a coherent symbol at one of its finite cells, with the score
      of that cell, succeeds. */
  lemma {:induction false} CoherentSymbolParses(fs: FSymbol, env: Env, x: int, y: int, l: int, ds: nat)
    requires CoherentSymbol(fs, env)
    requires FiniteAt(fs.score, env.size, l, NonVirtual(y, env.pyramid.pady, ds), NonVirtual(x, env.pyramid.padx, ds))
    ensures ParseSymbol(fs, x, y, l, ds,
              fs.score[l][NonVirtual(y, env.pyramid.pady, ds)][NonVirtual(x, env.pyramid.padx, ds)], env).Ok?
    decreases fs, 0
  {
    if fs.FNonTerminal? {
      var nvy, nvx := NonVirtual(y, env.pyramid.pady, ds), NonVirtual(x, env.pyramid.padx, ds);
      var j := SelectFinite(fs, env, l, nvy, nvx);
      var fr := fs.rules[j];
      assert FiniteAt(Unadjusted(fr), env.size, l, nvy, nvx);
      CoherentRuleParses(fr, env, x, y, l, ds);
      if env.adjustment.Some? {
        assert ReadAt(fr.original.value, l, nvy, nvx) == Some(fr.original.value[l][nvy][nvx]);
      }
    }
  }

  /** Parsing a coherent rule at a cell where its unadjusted score is finite
      yields its children. */
  lemma {:induction false} CoherentRuleParses(fr: FRule, env: Env, x: int, y: int, l: int, ds: nat)
    requires CoherentRule(fr, env)
    requires FiniteAt(Unadjusted(fr), env.size, l, NonVirtual(y, env.pyramid.pady, ds), NonVirtual(x, env.pyramid.padx, ds))
    ensures ParseRule(fr, x, y, l, ds, env).Ok?
    decreases fr, 3
  {
    if fr.FStructural? {
      CoherentStructuralParses(fr, env, x, y, l, ds);
    } else {
      CoherentDeformationParses(fr, env, x, y, l, ds);
    }
  }

  /** A coherent structural rule has as many anchors as children, and every
      child parses. */
  lemma {:induction false} CoherentStructuralParses(fr: FRule, env: Env, x: int, y: int, l: int, ds: nat)
    requires CoherentRule(fr, env) && fr.FStructural?
    requires FiniteAt(Unadjusted(fr), env.size, l, NonVirtual(y, env.pyramid.pady, ds), NonVirtual(x, env.pyramid.padx, ds))
    ensures ParseStructural(fr, x, y, l, ds, env).Ok?
    decreases fr, 1
  {
    assert Anchors(fr) == fr.rule.anchor;
    forall j | 0 <= j < |fr.rhs| ensures ParseChild(fr, j, x, y, l, ds, env).Ok? {
      CoherentChildParses(fr, env, j, x, y, l, ds);
    }
  }

  /** Child `j` of a coherent structural rule parses at its anchor. */
  lemma {:induction false} CoherentChildParses(fr: FRule, env: Env, j: int, x: int, y: int, l: int, ds: nat)
    requires CoherentRule(fr, env) && fr.FStructural? && 0 <= j < |fr.rhs|
    requires FiniteAt(Unadjusted(fr), env.size, l, NonVirtual(y, env.pyramid.pady, ds), NonVirtual(x, env.pyramid.padx, ds))
    ensures j < |Anchors(fr)| && ParseChild(fr, j, x, y, l, ds, env).Ok?
    decreases fr, 0
  {
    var a := fr.rule.anchor[j];
    ChildPosition(y, a.ay, env.pyramid.pady, ds, a.ds);
    ChildPosition(x, a.ax, env.pyramid.padx, ds, a.ds);
    var cx, cy := AnchorCoord(x, a.ax, a.ds), AnchorCoord(y, a.ay, a.ds);
    var cl, cds := ChildLevel(l, env.pyramid.interval, a.ds), ds + a.ds;
    var cny, cnx := NonVirtual(cy, env.pyramid.pady, cds), NonVirtual(cx, env.pyramid.padx, cds);
    assert FiniteAt(fr.rhs[j].score, env.size, cl, cny, cnx);
    assert ReadAt(fr.rhs[j].score, cl, cny, cnx) == Some(fr.rhs[j].score[cl][cny][cnx]);
    CoherentSymbolParses(fr.rhs[j], env, cx, cy, cl, cds);
  }

  /** The child of a coherent deformation rule parses where the
      displacement fields point. */
  lemma {:induction false} CoherentDeformationParses(fr: FRule, env: Env, x: int, y: int, l: int, ds: nat)
    requires CoherentRule(fr, env) && fr.FDeformation?
    requires FiniteAt(Unadjusted(fr), env.size, l, NonVirtual(y, env.pyramid.pady, ds), NonVirtual(x, env.pyramid.padx, ds))
    ensures ParseDeformation(fr, x, y, l, ds, env).Ok?
    decreases fr, 0
  {
    var nvy, nvx := NonVirtual(y, env.pyramid.pady, ds), NonVirtual(x, env.pyramid.padx, ds);
    var iyv, ixv := fr.iy[l][nvy][nvx], fr.ix[l][nvy][nvx];
    assert PyAt(fr.ix, l) == Some(fr.ix[l]) && PyAt(fr.iy, l) == Some(fr.iy[l]);
    assert GridAt(fr.ix[l], nvy, nvx) == Some(ixv) && GridAt(fr.iy[l], nvy, nvx) == Some(iyv);
    var cx, cy := Virtual(ixv, env.pyramid.padx, ds), Virtual(iyv, env.pyramid.pady, ds);
    assert FiniteAt(fr.rhs[0].score, env.size, l, iyv, ixv);
    assert ReadAt(fr.rhs[0].score, l, iyv, ixv) == Some(fr.rhs[0].score[l][iyv][ixv]);
    CoherentSymbolParses(fr.rhs[0], env, cx, cy, l, ds);
  }

  /** The parse of a detection never fails: at any finite cell of a filtered
      symbol, given a loss adjustment that keeps -inf cells -inf (or none),
      `Parse` finds a rule and reaches a leaf on every branch. */
  lemma ParseSucceeds(s: Symbol, env: Env, x: int, y: int, l: int, ds: nat)
    requires EnvValid(env) && FinitePreserving(env) && WellFormedSymbol(s)
    requires FiniteAt(FilterSymbol(s, env).score, env.size, l,
                      NonVirtual(y, env.pyramid.pady, ds), NonVirtual(x, env.pyramid.padx, ds))
    ensures ParseSymbol(FilterSymbol(s, env), x, y, l, ds,
              FilterSymbol(s, env).score[l][NonVirtual(y, env.pyramid.pady, ds)][NonVirtual(x, env.pyramid.padx, ds)],
              env).Ok?
  {
    SymbolCoherent(s, env);
    CoherentSymbolParses(FilterSymbol(s, env), env, x, y, l, ds);
  }

  /** The number of tree nodes (non-leaves) of a parse tree. */
  function InnerCount(n: Node): (k: nat)
    ensures n.Leaf? ==> k == 0
    ensures n.TreeNode? ==> k >= 1
    decreases n, 1
  {
    match n
    case Leaf(_, _, _, _, _, _) => 0
    case TreeNode(_, _, _, _, _, _, children, _) => 1 + InnerSum(children)
  }

  function InnerSum(ns: seq<Node>): nat
    decreases ns, 0
  {
    if ns == [] then 0 else InnerCount(ns[0]) + InnerSum(ns[1..])
  }

  /** Reading a shifted array reads the original shifted, and fails exactly
      where the original does. */
  lemma ReadShift(g: seq<Grid>, c: int, l: int, y: int, x: int)
    ensures ReadAt(ShiftLevels(g, c), l, y, x).Some? <==> ReadAt(g, l, y, x).Some?
    ensures ReadAt(g, l, y, x).Some? ==>
              ReadAt(ShiftLevels(g, c), l, y, x).value == Plus(ReadAt(g, l, y, x).value, Fin(c))
  {
    var h := ShiftLevels(g, c);
    if PyAt(g, l).Some? {
      var i := PyIndex(|g|, l).value;
      assert PyAt(h, l) == Some(h[i]) && PyAt(g, l) == Some(g[i]);
      if PyIndex(|g[i]|, y).Some? {
        var r := PyIndex(|g[i]|, y).value;
        assert PyAt(h[i], y) == Some(h[i][r]) && PyAt(g[i], y) == Some(g[i][r]);
      }
    }
  }

  /** The parent's share of the children's losses, under a uniform shift:
      `c` per tree node below. */
  lemma {:induction false} ChildLossShift(children: seq<Node>, c: int)
    requires forall j :: 0 <= j < |children| && children[j].TreeNode? ==>
               children[j].loss == Some(c * InnerCount(children[j]))
    ensures ChildLoss(children) == c * InnerSum(children)
    decreases children
  {
    if children != [] {
      var tail := children[1..];
      assert forall j :: 0 <= j < |tail| ==> tail[j] == children[j + 1];
      ChildLossShift(tail, c);
      var head := if children[0].TreeNode? then children[0].loss.value else 0;
      assert head == c * InnerCount(children[0]);
      assert ChildLoss(children) == head + ChildLoss(tail);
      MulAdd(c, InnerCount(children[0]), InnerSum(tail));
    }
  }

  lemma MulAdd(c: int, a: int, b: int)
    ensures c * (a + b) == c * a + c * b
  {
  }

  /** Under an adjustment adding `c` to every score, the loss of every tree
      node of a parse is `c` times the number of tree nodes in its subtree:
      each node contributes `c` itself and passes on its children's. */
  lemma {:induction false} UniformLoss(fs: FSymbol, env: Env, c: int, x: int, y: int, l: int, ds: nat, sv: Score, n: Node)
    requires ShiftedSymbol(fs, c) && env.adjustment.Some?
    requires ParseSymbol(fs, x, y, l, ds, sv, env) == Ok(n)
    ensures n.TreeNode? ==> n.loss == Some(c * InnerCount(n))
    decreases fs, 0
  {
    if n.TreeNode? {
      ParsedRule(fs, x, y, l, ds, sv, env);
      RuleLoss(n.rule, env, c, x, y, l, ds, n.children);
      NodeLoss(n, c, l, NonVirtual(y, env.pyramid.pady, ds), NonVirtual(x, env.pyramid.padx, ds), sv);
    }
  }

  /** The loss of one tree node whose rule's score is its original plus `c`,
      given its children's. */
  lemma NodeLoss(n: Node, c: int, l: int, nvy: int, nvx: int, sv: Score)
    requires n.TreeNode? && ShiftedRule(n.rule, c) && ReadAt(n.rule.score, l, nvy, nvx) == Some(sv)
    requires forall j :: 0 <= j < |n.children| && n.children[j].TreeNode? ==>
               n.children[j].loss == Some(c * InnerCount(n.children[j]))
    requires n.loss.Some? && sv.Fin? && ReadAt(n.rule.original.value, l, nvy, nvx).Some?
    requires ReadAt(n.rule.original.value, l, nvy, nvx).value.Fin?
    requires n.loss.value == ChildLoss(n.children) + sv.v - ReadAt(n.rule.original.value, l, nvy, nvx).value.v
    ensures n.loss == Some(c * InnerCount(n))
  {
    ChildLossShift(n.children, c);
    ReadShift(n.rule.original.value, c, l, nvy, nvx);
    LossArith(c, InnerSum(n.children), ReadAt(n.rule.original.value, l, nvy, nvx).value.v, sv.v, n.loss.value);
  }

  lemma LossArith(c: int, sum: int, o: int, s: int, loss: int)
    requires s == o + c && loss == c * sum + s - o
    ensures loss == c * (1 + sum)
  {
  }

  lemma {:induction false} RuleLoss(fr: FRule, env: Env, c: int, x: int, y: int, l: int, ds: nat, children: seq<Node>)
    requires ShiftedRule(fr, c) && env.adjustment.Some?
    requires ParseRule(fr, x, y, l, ds, env) == Ok(children)
    ensures forall j :: 0 <= j < |children| && children[j].TreeNode? ==>
              children[j].loss == Some(c * InnerCount(children[j]))
    decreases fr, 2
  {
    if fr.FStructural? {
      forall j | 0 <= j < |children| && children[j].TreeNode?
        ensures children[j].loss == Some(c * InnerCount(children[j]))
      {
        StructuralChildLoss(fr, env, c, j, x, y, l, ds, children[j]);
      }
    } else {
      DeformationChildLoss(fr, env, c, x, y, l, ds, children);
    }
  }

  lemma {:induction false} StructuralChildLoss(fr: FRule, env: Env, c: int, j: int, x: int, y: int, l: int, ds: nat, n: Node)
    requires ShiftedRule(fr, c) && env.adjustment.Some? && fr.FStructural?
    requires 0 <= j < |fr.rhs| && j < |Anchors(fr)| && ParseChild(fr, j, x, y, l, ds, env) == Ok(n)
    ensures n.TreeNode? ==> n.loss == Some(c * InnerCount(n))
    decreases fr, 0
  {
    var a := Anchors(fr)[j];
    var cx, cy := AnchorCoord(x, a.ax, a.ds), AnchorCoord(y, a.ay, a.ds);
    var cl, cds := ChildLevel(l, env.pyramid.interval, a.ds), ds + a.ds;
    var cs := ReadAt(fr.rhs[j].score, cl, NonVirtual(cy, env.pyramid.pady, cds), NonVirtual(cx, env.pyramid.padx, cds)).value;
    UniformLoss(fr.rhs[j], env, c, cx, cy, cl, cds, cs, n);
  }

  lemma {:induction false} DeformationChildLoss(fr: FRule, env: Env, c: int, x: int, y: int, l: int, ds: nat, children: seq<Node>)
    requires ShiftedRule(fr, c) && env.adjustment.Some? && fr.FDeformation?
    requires ParseDeformation(fr, x, y, l, ds, env) == Ok(children)
    ensures forall j :: 0 <= j < |children| && children[j].TreeNode? ==>
              children[j].loss == Some(c * InnerCount(children[j]))
    decreases fr, 0
  {
    var nvy, nvx := NonVirtual(y, env.pyramid.pady, ds), NonVirtual(x, env.pyramid.padx, ds);
    var cx := Virtual(GridAt(PyAt(fr.ix, l).value, nvy, nvx).value, env.pyramid.padx, ds);
    var cy := Virtual(GridAt(PyAt(fr.iy, l).value, nvy, nvx).value, env.pyramid.pady, ds);
    var cs := ReadAt(fr.rhs[0].score, l, NonVirtual(cy, env.pyramid.pady, ds), NonVirtual(cx, env.pyramid.padx, ds)).value;
    UniformLoss(fr.rhs[0], env, c, cx, cy, l, ds, cs, children[0]);
  }

  /** The loss of a parse of a filtered symbol under `score + c`: `c` per
      tree node, so `9` for a root and eight parts with `c = 1`. */
  lemma ParseLoss(s: Symbol, env: Env, c: int, x: int, y: int, l: int, ds: nat, sv: Score, n: Node)
    requires EnvValid(env) && UniformShift(env, c) && WellFormedSymbol(s)
    requires ParseSymbol(FilterSymbol(s, env), x, y, l, ds, sv, env) == Ok(n)
    ensures n.TreeNode? ==> n.loss == Some(c * InnerCount(n))
  {
    SymbolShifted(s, env, c);
    UniformLoss(FilterSymbol(s, env), env, c, x, y, l, ds, sv, n);
  }
}

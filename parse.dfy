/** Top-down parsing of a detection (`FilteredSymbol.Parse`,
    `FilteredStructuralRule.Parse`, `FilteredDeformationRule.Parse`): from a
    cell of a symbol's score, find the rule that produced it and the cells of
    its children, down to the terminals. */
module Parse {
  import opened Scores
  import opened Geometry
  import opened Grammar
  import opened Filtered

  /** `Leaf` and `TreeNode`; a tree node records the filtered rule selected
      for it, and its loss (`None` without a loss adjustment). */
  datatype Node =
    | Leaf(x: int, y: int, l: int, s: Score, ds: nat, filter: Filter)
    | TreeNode(x: int, y: int, l: int, ds: nat, s: Score, rule: FRule, children: seq<Node>, loss: Option<int>)

  /** How a parse fails: the exception the code raises, or a loss term that
      would not be finite. */
  datatype ParseError =
    | RuleArgmaxNotFound   // no rule scores `s` at the cell
    | IndexError           // a level or cell outside its array
    | AssertionError       // a structural rule with more or fewer anchors than children
    | ValueError           // a deformation rule without exactly one child
    | AttributeError       // a loss adjustment but no `score_original`
    | NonFiniteLoss        // the loss term of a node involves -inf

  datatype Result<T> = Ok(value: T) | Err(error: ParseError)

  /** `score[l].score[y, x]` on a list of numpy arrays. */
  function ReadAt(score: seq<Grid>, l: int, y: int, x: int): (r: Option<Score>)
    ensures 0 <= l < |score| && 0 <= y < |score[l]| && 0 <= x < |score[l][y]| ==> r == Some(score[l][y][x])
  {
    match PyAt(score, l)
    case None => None
    case Some(g) => GridAt(g, y, x)
  }

  /** The first rule from `k` on whose score at the cell is `s`. */
  function SelectRule(rules: seq<FRule>, k: nat, l: int, y: int, x: int, s: Score): (r: Result<nat>)
    ensures r.Ok? ==> k <= r.value < |rules| && ReadAt(rules[r.value].score, l, y, x) == Some(s)
    ensures r.Ok? ==> forall j :: k <= j < r.value ==>
              ReadAt(rules[j].score, l, y, x).Some? && ReadAt(rules[j].score, l, y, x) != Some(s)
    ensures r == Err(RuleArgmaxNotFound) ==> forall j :: k <= j < |rules| ==>
              ReadAt(rules[j].score, l, y, x).Some? && ReadAt(rules[j].score, l, y, x) != Some(s)
    ensures r.Err? ==> r.error == RuleArgmaxNotFound || r.error == IndexError
    ensures r == Err(IndexError) ==> exists j :: k <= j < |rules| && ReadAt(rules[j].score, l, y, x).None?
    decreases |rules| - k
  {
    if k >= |rules| then Err(RuleArgmaxNotFound)
    else match ReadAt(rules[k].score, l, y, x)
      case None => Err(IndexError)
      case Some(v) => if v == s then Ok(k) else SelectRule(rules, k + 1, l, y, x, s)
  }

  /** The anchors of a filtered rule. */
  function Anchors(fr: FRule): seq<Anchor>
  {
    if fr.rule.Structural? then fr.rule.anchor else []
  }

  /** The values of a list of results in order, or the first result's
      error: the children of a node, or their features. */
  function Collect<T>(rs: seq<Result<T>>): (r: Result<seq<T>>)
    ensures r.Ok? <==> forall j :: 0 <= j < |rs| ==> rs[j].Ok?
    ensures r.Ok? ==> |r.value| == |rs| && forall j :: 0 <= j < |rs| ==> rs[j] == Ok(r.value[j])
    ensures r.Err? ==> exists j :: 0 <= j < |rs| && rs[j] == Err(r.error) && forall i :: 0 <= i < j ==> rs[i].Ok?
  {
    if rs == [] then Ok([])
    else if rs[0].Err? then Err(rs[0].error)
    else match Collect(rs[1..])
      case Err(e) => Err(e)
      case Ok(tail) => Ok([rs[0].value] + tail)
  }

  /** `sum(child.loss for child in children if isinstance(child, TreeNode))`;
      under an adjustment every tree node carries a loss. */
  function ChildLoss(children: seq<Node>): int
  {
    if children == [] then 0
    else (match children[0]
          case TreeNode(_, _, _, _, _, _, _, loss) => (if loss.Some? then loss.value else 0)
          case Leaf(_, _, _, _, _, _) => 0)
         + ChildLoss(children[1..])
  }

  /** `FilteredSymbol.Parse`: a leaf for a terminal, whose level must exist
      (its scale is read); for a non-terminal, the first rule scoring `s` at
      the cell, its children, and the loss. */
  function ParseSymbol(fs: FSymbol, x: int, y: int, l: int, ds: nat, s: Score, env: Env): (r: Result<Node>)
    ensures r.Ok? ==> r.value.x == x && r.value.y == y && r.value.l == l && r.value.ds == ds
    ensures r.Ok? ==> (r.value.Leaf? <==> fs.FTerminal?)
    ensures fs.FTerminal? ==> (r.Ok? <==> PyAt(fs.score, l).Some?) && (r.Err? ==> r.error == IndexError)
    ensures r.Ok? && r.value.Leaf? ==> r.value.s == s && r.value.filter == fs.filter
    ensures r.Ok? && r.value.TreeNode? ==> (r.value.loss.None? <==> env.adjustment.None?)
    ensures r.Ok? && env.adjustment.None? ==> r.value.s == s
    ensures r.Ok? && r.value.TreeNode? && r.value.loss.Some? ==>
              s.Fin? && r.value.s == Fin(s.v - r.value.loss.value)
    ensures r.Ok? && r.value.TreeNode? ==>
              var nvy, nvx := NonVirtual(y, env.pyramid.pady, ds), NonVirtual(x, env.pyramid.padx, ds);
              && r.value.rule in fs.rules
              && ReadAt(r.value.rule.score, l, nvy, nvx) == Some(s)
              && (r.value.loss.Some? ==>
                    && r.value.rule.original.Some?
                    && ReadAt(r.value.rule.original.value, l, nvy, nvx).Some?
                    && ReadAt(r.value.rule.original.value, l, nvy, nvx).value.Fin?
                    && r.value.loss.value ==
                         ChildLoss(r.value.children) + s.v - ReadAt(r.value.rule.original.value, l, nvy, nvx).value.v)
    decreases fs, 0
  {
    match fs
    case FTerminal(f, score) => if PyAt(score, l).None? then Err(IndexError) else Ok(Leaf(x, y, l, s, ds, f))
    case FNonTerminal(rules, _) =>
      var nvy, nvx := NonVirtual(y, env.pyramid.pady, ds), NonVirtual(x, env.pyramid.padx, ds);
      match SelectRule(rules, 0, l, nvy, nvx, s)
      case Err(e) => Err(e)
      case Ok(k) =>
        var rule := rules[k];
        match ParseRule(rule, x, y, l, ds, env)
        case Err(e) => Err(e)
        case Ok(children) => MakeNode(x, y, l, ds, s, rule, children, env)
  }

  /** The tree node for the selected rule and its parsed children; under a
      loss adjustment its score becomes the unadjusted one, and its loss
      the children's plus what the adjustment added at this cell. */
  function MakeNode(x: int, y: int, l: int, ds: nat, s: Score, rule: FRule, children: seq<Node>, env: Env): (r: Result<Node>)
    ensures r.Ok? ==> r.value.TreeNode? && r.value.rule == rule && r.value.children == children
  {
    var nvy, nvx := NonVirtual(y, env.pyramid.pady, ds), NonVirtual(x, env.pyramid.padx, ds);
    if env.adjustment.None? then Ok(TreeNode(x, y, l, ds, s, rule, children, None))
    else if rule.original.None? then Err(AttributeError)
    else match ReadAt(rule.original.value, l, nvy, nvx)
      case None => Err(IndexError)
      case Some(o) =>
        if s.Fin? && o.Fin? then
          var loss := ChildLoss(children) + s.v - o.v;
          Ok(TreeNode(x, y, l, ds, Fin(s.v - loss), rule, children, Some(loss)))
        else Err(NonFiniteLoss)
  }

  /** One child of a structural rule: placed at the anchor, `ds` octaves
      finer, its score read at its raw position. */
  function ParseChild(fr: FRule, j: int, x: int, y: int, l: int, ds: nat, env: Env): (r: Result<Node>)
    requires 0 <= j < |fr.rhs| && j < |Anchors(fr)|
    ensures r.Ok? ==> var a := Anchors(fr)[j];
              && r.value.x == AnchorCoord(x, a.ax, a.ds) && r.value.y == AnchorCoord(y, a.ay, a.ds)
              && r.value.l == ChildLevel(l, env.pyramid.interval, a.ds) && r.value.ds == ds + a.ds
    ensures r.Ok? && env.adjustment.None? ==> var a := Anchors(fr)[j];
              ReadAt(fr.rhs[j].score, r.value.l, NonVirtual(r.value.y, env.pyramid.pady, ds + a.ds),
                     NonVirtual(r.value.x, env.pyramid.padx, ds + a.ds)) == Some(r.value.s)
    decreases fr, 0
  {
    var a := Anchors(fr)[j];
    var cx, cy := AnchorCoord(x, a.ax, a.ds), AnchorCoord(y, a.ay, a.ds);
    var cl, cds := ChildLevel(l, env.pyramid.interval, a.ds), ds + a.ds;
    match ReadAt(fr.rhs[j].score, cl, NonVirtual(cy, env.pyramid.pady, cds), NonVirtual(cx, env.pyramid.padx, cds))
    case None => Err(IndexError)
    case Some(cs) => ParseSymbol(fr.rhs[j], cx, cy, cl, cds, cs, env)
  }

  /** `FilteredStructuralRule.Parse` and `FilteredDeformationRule.Parse`: the
      children of a node whose rule is `fr`. */
  function ParseRule(fr: FRule, x: int, y: int, l: int, ds: nat, env: Env): (r: Result<seq<Node>>)
    ensures fr.FStructural? ==> r == ParseStructural(fr, x, y, l, ds, env)
    ensures fr.FDeformation? ==> r == ParseDeformation(fr, x, y, l, ds, env)
    decreases fr, 3
  {
    if fr.FStructural? then ParseStructural(fr, x, y, l, ds, env) else ParseDeformation(fr, x, y, l, ds, env)
  }

  /** `FilteredStructuralRule.Parse`: one child per anchor, in order; it
      succeeds exactly when there are as many anchors as children and every
      child parses. */
  function ParseStructural(fr: FRule, x: int, y: int, l: int, ds: nat, env: Env): (r: Result<seq<Node>>)
    requires fr.FStructural?
    ensures r.Ok? ==> |r.value| == |fr.rhs| == |Anchors(fr)|
    ensures r.Ok? ==> forall j :: 0 <= j < |fr.rhs| ==> ParseChild(fr, j, x, y, l, ds, env) == Ok(r.value[j])
    ensures (|Anchors(fr)| == |fr.rhs| &&
                       forall j :: 0 <= j < |fr.rhs| ==> ParseChild(fr, j, x, y, l, ds, env).Ok?) ==> r.Ok?
    ensures |Anchors(fr)| != |fr.rhs| ==> r == Err(AssertionError)
    decreases fr, 2
  {
    if |Anchors(fr)| != |fr.rhs| then Err(AssertionError)
    else Collect(ChildParses(fr, x, y, l, ds, env))
  }

  /** The parse of every child of a structural rule, in order. */
  function ChildParses(fr: FRule, x: int, y: int, l: int, ds: nat, env: Env): (rs: seq<Result<Node>>)
    requires fr.FStructural? && |Anchors(fr)| == |fr.rhs|
    ensures |rs| == |fr.rhs| && forall j :: 0 <= j < |fr.rhs| ==> rs[j] == ParseChild(fr, j, x, y, l, ds, env)
    decreases fr, 1
  {
    seq(|fr.rhs|, j requires 0 <= j < |fr.rhs| => ParseChild(fr, j, x, y, l, ds, env))
  }

  /** `FilteredDeformationRule.Parse`: the one child sits where the
      displacement fields of the rule point, at the same level. */
  function ParseDeformation(fr: FRule, x: int, y: int, l: int, ds: nat, env: Env): (r: Result<seq<Node>>)
    requires fr.FDeformation?
    ensures r.Ok? ==> |r.value| == 1 == |fr.rhs| && r.value[0].l == l && r.value[0].ds == ds
    ensures r.Ok? ==>
              var nvy, nvx := NonVirtual(y, env.pyramid.pady, ds), NonVirtual(x, env.pyramid.padx, ds);
              && PyAt(fr.ix, l).Some? && PyAt(fr.iy, l).Some?
              && GridAt(PyAt(fr.ix, l).value, nvy, nvx).Some? && GridAt(PyAt(fr.iy, l).value, nvy, nvx).Some?
              && NonVirtual(r.value[0].x, env.pyramid.padx, ds) == GridAt(PyAt(fr.ix, l).value, nvy, nvx).value
              && NonVirtual(r.value[0].y, env.pyramid.pady, ds) == GridAt(PyAt(fr.iy, l).value, nvy, nvx).value
              && ReadAt(fr.rhs[0].score, l, GridAt(PyAt(fr.iy, l).value, nvy, nvx).value,
                        GridAt(PyAt(fr.ix, l).value, nvy, nvx).value).Some?
    ensures r.Ok? && env.adjustment.None? ==>
              var nvy, nvx := NonVirtual(y, env.pyramid.pady, ds), NonVirtual(x, env.pyramid.padx, ds);
              ReadAt(fr.rhs[0].score, l, GridAt(PyAt(fr.iy, l).value, nvy, nvx).value,
                     GridAt(PyAt(fr.ix, l).value, nvy, nvx).value) == Some(r.value[0].s)
    decreases fr, 1
  {
    var nvy, nvx := NonVirtual(y, env.pyramid.pady, ds), NonVirtual(x, env.pyramid.padx, ds);
    match (PyAt(fr.ix, l), PyAt(fr.iy, l))
    case (None, _) => Err(IndexError)
    case (_, None) => Err(IndexError)
    case (Some(ix), Some(iy)) =>
      match (GridAt(ix, nvy, nvx), GridAt(iy, nvy, nvx))
      case (None, _) => Err(IndexError)
      case (_, None) => Err(IndexError)
      case (Some(cnx), Some(cny)) =>
        var cx, cy := Virtual(cnx, env.pyramid.padx, ds), Virtual(cny, env.pyramid.pady, ds);
        if |fr.rhs| != 1 then Err(ValueError)
        else match ReadAt(fr.rhs[0].score, l, NonVirtual(cy, env.pyramid.pady, ds), NonVirtual(cx, env.pyramid.padx, ds))
          case None => Err(IndexError)
          case Some(cs) =>
            match ParseSymbol(fr.rhs[0], cx, cy, l, ds, cs, env)
            case Err(e) => Err(e)
            case Ok(child) => Ok([child])
  }
  // ---------------------------------------------------------------------
  // the parse, step by step
  // ---------------------------------------------------------------------

  /** The selection loop of `FilteredSymbol.Parse`: scan the rules in order
      and stop at the first whose score at the cell is `s`. */
  method SelectRuleM(rules: seq<FRule>, l: int, y: int, x: int, s: Score) returns (r: Result<nat>)
    ensures r == SelectRule(rules, 0, l, y, x, s)
  {
    var k := 0;
    while k < |rules|
      invariant 0 <= k <= |rules|
      invariant SelectRule(rules, 0, l, y, x, s) == SelectRule(rules, k, l, y, x, s)
    {
      var score := ReadAt(rules[k].score, l, y, x);
      if score.None? {
        return Err(IndexError);
      }
      if score.value == s {
        return Ok(k);
      }
      k := k + 1;
    }
    return Err(RuleArgmaxNotFound);
  }

  /** `FilteredSymbol.Parse`, with the rule's children from `ParseRuleM`. */
  method ParseSymbolM(fs: FSymbol, x: int, y: int, l: int, ds: nat, s: Score, env: Env) returns (r: Result<Node>)
    ensures r == ParseSymbol(fs, x, y, l, ds, s, env)
    decreases fs, 0
  {
    match fs {
      case FTerminal(f, score) =>
        if PyAt(score, l).None? {
          r := Err(IndexError);
        } else {
          r := Ok(Leaf(x, y, l, s, ds, f));
        }
      case FNonTerminal(rules, _) =>
        var nvy, nvx := NonVirtual(y, env.pyramid.pady, ds), NonVirtual(x, env.pyramid.padx, ds);
        var selected := SelectRuleM(rules, l, nvy, nvx, s);
        if selected.Err? {
          r := Err(selected.error);
        } else {
          var rule := rules[selected.value];
          var children := ParseRuleM(rule, x, y, l, ds, env);
          if children.Err? {
            r := Err(children.error);
          } else {
            r := MakeNode(x, y, l, ds, s, rule, children.value, env);
          }
        }
    }
  }

  /** The rules' `Parse`. */
  method ParseRuleM(fr: FRule, x: int, y: int, l: int, ds: nat, env: Env) returns (r: Result<seq<Node>>)
    ensures r == ParseRule(fr, x, y, l, ds, env)
    decreases fr, 3
  {
    if fr.FStructural? {
      r := ParseStructuralM(fr, x, y, l, ds, env);
    } else {
      r := ParseDeformationM(fr, x, y, l, ds, env);
    }
  }

  /** `FilteredStructuralRule.Parse`: the assertion on the anchors, then the
      children. */
  method ParseStructuralM(fr: FRule, x: int, y: int, l: int, ds: nat, env: Env) returns (r: Result<seq<Node>>)
    requires fr.FStructural?
    ensures r == ParseStructural(fr, x, y, l, ds, env)
    decreases fr, 2
  {
    if |Anchors(fr)| != |fr.rhs| {
      r := Err(AssertionError);
    } else {
      r := ParseChildrenM(fr, x, y, l, ds, env);
    }
  }

  /** The loop of `FilteredStructuralRule.Parse` over the anchors, appending
      one child each; the first child that fails ends it. */
  method ParseChildrenM(fr: FRule, x: int, y: int, l: int, ds: nat, env: Env) returns (r: Result<seq<Node>>)
    requires fr.FStructural? && |Anchors(fr)| == |fr.rhs|
    ensures r == Collect(ChildParses(fr, x, y, l, ds, env))
    decreases fr, 1
  {
    ghost var rs := ChildParses(fr, x, y, l, ds, env);
    var children: seq<Node> := [];
    var failed: Option<ParseError> := None;
    var j := 0;
    while j < |fr.rhs| && failed.None?
      invariant 0 <= j <= |fr.rhs| && |children| == j
      invariant forall i :: 0 <= i < j ==> rs[i] == Ok(children[i])
      invariant failed.Some? ==> j < |rs| && rs[j] == Err(failed.value)
      decreases |fr.rhs| - j, if failed.None? then 1 else 0
    {
      var child := ParseChildM(fr, j, x, y, l, ds, env);
      if child.Err? {
        failed := Some(child.error);
      } else {
        children := children + [child.value];
        j := j + 1;
      }
    }
    if failed.Some? {
      CollectFirstError(rs, j);
      r := Err(failed.value);
    } else {
      CollectAllOk(rs, children);
      r := Ok(children);
    }
  }

  /** `FilteredDeformationRule.Parse`. */
  method ParseDeformationM(fr: FRule, x: int, y: int, l: int, ds: nat, env: Env) returns (r: Result<seq<Node>>)
    requires fr.FDeformation?
    ensures r == ParseDeformation(fr, x, y, l, ds, env)
    decreases fr, 1
  {
    var nvy, nvx := NonVirtual(y, env.pyramid.pady, ds), NonVirtual(x, env.pyramid.padx, ds);
    var ix, iy := PyAt(fr.ix, l), PyAt(fr.iy, l);
    if ix.None? || iy.None? {
      return Err(IndexError);
    }
    var cnx, cny := GridAt(ix.value, nvy, nvx), GridAt(iy.value, nvy, nvx);
    if cnx.None? || cny.None? {
      return Err(IndexError);
    }
    var cx, cy := Virtual(cnx.value, env.pyramid.padx, ds), Virtual(cny.value, env.pyramid.pady, ds);
    if |fr.rhs| != 1 {
      return Err(ValueError);
    }
    var cs := ReadAt(fr.rhs[0].score, l, NonVirtual(cy, env.pyramid.pady, ds), NonVirtual(cx, env.pyramid.padx, ds));
    if cs.None? {
      return Err(IndexError);
    }
    var child := ParseSymbolM(fr.rhs[0], cx, cy, l, ds, cs.value, env);
    if child.Err? {
      return Err(child.error);
    }
    return Ok([child.value]);
  }

  /** One iteration of the anchor loop. */
  method ParseChildM(fr: FRule, j: int, x: int, y: int, l: int, ds: nat, env: Env) returns (r: Result<Node>)
    requires 0 <= j < |fr.rhs| && j < |Anchors(fr)|
    ensures r == ParseChild(fr, j, x, y, l, ds, env)
    decreases fr, 0
  {
    var a := Anchors(fr)[j];
    var cx, cy := AnchorCoord(x, a.ax, a.ds), AnchorCoord(y, a.ay, a.ds);
    var cl, cds := ChildLevel(l, env.pyramid.interval, a.ds), ds + a.ds;
    var cs := ReadAt(fr.rhs[j].score, cl, NonVirtual(cy, env.pyramid.pady, cds), NonVirtual(cx, env.pyramid.padx, cds));
    if cs.None? {
      r := Err(IndexError);
    } else {
      r := ParseSymbolM(fr.rhs[j], cx, cy, cl, cds, cs.value, env);
    }
  }

  /** A tree node's children are its rule's parse at the same place. */
  lemma ParsedRule(fs: FSymbol, x: int, y: int, l: int, ds: nat, s: Score, env: Env)
    requires ParseSymbol(fs, x, y, l, ds, s, env).Ok? && ParseSymbol(fs, x, y, l, ds, s, env).value.TreeNode?
    ensures var n := ParseSymbol(fs, x, y, l, ds, s, env).value;
            ParseRule(n.rule, x, y, l, ds, env) == Ok(n.children)
  {
  }

  lemma {:induction false} CollectAllOk<T>(rs: seq<Result<T>>, children: seq<T>)
    requires |rs| == |children| && forall i :: 0 <= i < |rs| ==> rs[i] == Ok(children[i])
    ensures Collect(rs) == Ok(children)
  {
    if rs != [] {
      CollectAllOk(rs[1..], children[1..]);
      assert children == [children[0]] + children[1..];
    }
  }

  /** The first error among the children is the parse's error. */
  lemma {:induction false} CollectFirstError<T>(rs: seq<Result<T>>, j: int)
    requires 0 <= j < |rs| && rs[j].Err? && forall i :: 0 <= i < j ==> rs[i].Ok?
    ensures Collect(rs) == Err(rs[j].error)
  {
    if j > 0 {
      CollectFirstError(rs[1..], j - 1);
    }
  }
}

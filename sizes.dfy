/** Size propagation: the `(rows, cols)` of the score array every symbol gets
    at every pyramid level (`Rule.GetFilteredSize`, `Symbol.GetFilteredSize`). */
module Sizes {
  import opened Grammar

  /** `(rows, cols)`, numpy shape order. */
  type Size = (int, int)

  /** `(max(ymax, ycurr), max(xmax, xcurr))`. */
  function MaxSize(a: Size, b: Size): Size
  {
    (if a.0 >= b.0 then a.0 else b.0, if a.1 >= b.1 then a.1 else b.1)
  }

  /** `[(1, 1) for level in pyramid.levels]`. */
  function Ones(n: nat): (r: seq<Size>)
    ensures |r| == n && forall i :: 0 <= i < n ==> r[i] == (1, 1)
  {
    seq(n, i => (1, 1))
  }

  function PointwiseMax(a: seq<Size>, b: seq<Size>): (r: seq<Size>)
    requires |a| == |b|
    ensures |r| == |a| && forall i :: 0 <= i < |a| ==> r[i] == MaxSize(a[i], b[i])
  {
    seq(|a|, i requires 0 <= i < |a| => MaxSize(a[i], b[i]))
  }

  /** Folding the children's size pyramids into `acc`, first child first. */
  function FoldMax(acc: seq<Size>, ps: seq<seq<Size>>): (r: seq<Size>)
    requires forall k :: 0 <= k < |ps| ==> |ps[k]| == |acc|
    ensures |r| == |acc|
    decreases |ps|
  {
    if ps == [] then acc else PointwiseMax(FoldMax(acc, ps[..|ps| - 1]), ps[|ps| - 1])
  }

  /** A terminal's score array is as large as the feature array minus the
      filter plus one, in each dimension. */
  function TerminalSize(f: Filter, p: Pyramid): (r: seq<Size>)
    ensures |r| == |p.levels|
  {
    seq(|p.levels|, i requires 0 <= i < |p.levels| =>
      (p.levels[i].rows - f.block.rows + 1, p.levels[i].cols - f.block.cols + 1))
  }

  function SymbolSize(s: Symbol, p: Pyramid): (r: seq<Size>)
    ensures |r| == |p.levels|
    decreases s
  {
    match s
    case Terminal(f) => TerminalSize(f, p)
    case NonTerminal(rules) =>
      FoldMax(Ones(|p.levels|), seq(|rules|, k requires 0 <= k < |rules| => RuleSize(rules[k], p)))
  }

  function RuleSize(r: Rule, p: Pyramid): (res: seq<Size>)
    ensures |res| == |p.levels|
    decreases r
  {
    FoldMax(Ones(|p.levels|), seq(|r.rhs|, k requires 0 <= k < |r.rhs| => SymbolSize(r.rhs[k], p)))
  }

  /** The fold is the least upper bound of `acc` and the children, taken
      separately in each dimension: it bounds every one of them, and each
      dimension of it is that of `acc` or of one child. */
  lemma {:induction false} FoldMaxIsMax(acc: seq<Size>, ps: seq<seq<Size>>, i: int)
    requires forall k :: 0 <= k < |ps| ==> |ps[k]| == |acc|
    requires 0 <= i < |acc|
    ensures FoldMax(acc, ps)[i].0 >= acc[i].0 && FoldMax(acc, ps)[i].1 >= acc[i].1
    ensures forall k :: 0 <= k < |ps| ==>
      FoldMax(acc, ps)[i].0 >= ps[k][i].0 && FoldMax(acc, ps)[i].1 >= ps[k][i].1
    ensures FoldMax(acc, ps)[i].0 == acc[i].0 || exists k :: 0 <= k < |ps| && FoldMax(acc, ps)[i].0 == ps[k][i].0
    ensures FoldMax(acc, ps)[i].1 == acc[i].1 || exists k :: 0 <= k < |ps| && FoldMax(acc, ps)[i].1 == ps[k][i].1
    decreases |ps|
  {
    if ps != [] {
      var init := ps[..|ps| - 1];
      FoldMaxIsMax(acc, init, i);
      assert forall k :: 0 <= k < |init| ==> init[k] == ps[k];
    }
  }

  /** A non-terminal's entry at each level is at least `(1, 1)`, at least
      every rule's entry, and in each dimension equal to 1 or to some rule's. */
  lemma NonTerminalSize(s: Symbol, p: Pyramid, i: int)
    requires s.NonTerminal? && 0 <= i < |p.levels|
    ensures SymbolSize(s, p)[i].0 >= 1 && SymbolSize(s, p)[i].1 >= 1
    ensures forall k :: 0 <= k < |s.rules| ==>
      SymbolSize(s, p)[i].0 >= RuleSize(s.rules[k], p)[i].0 &&
      SymbolSize(s, p)[i].1 >= RuleSize(s.rules[k], p)[i].1
    ensures SymbolSize(s, p)[i].0 == 1 ||
      exists k :: 0 <= k < |s.rules| && SymbolSize(s, p)[i].0 == RuleSize(s.rules[k], p)[i].0
    ensures SymbolSize(s, p)[i].1 == 1 ||
      exists k :: 0 <= k < |s.rules| && SymbolSize(s, p)[i].1 == RuleSize(s.rules[k], p)[i].1
  {
    var ps := seq(|s.rules|, k requires 0 <= k < |s.rules| => RuleSize(s.rules[k], p));
    assert SymbolSize(s, p) == FoldMax(Ones(|p.levels|), ps);
    FoldMaxIsMax(Ones(|p.levels|), ps, i);
    assert forall k :: 0 <= k < |s.rules| ==> ps[k] == RuleSize(s.rules[k], p);
  }

  /** A rule's entry at each level is at least `(1, 1)`, at least every
      child's entry, and in each dimension equal to 1 or to some child's. */
  lemma RuleSizeIsMax(r: Rule, p: Pyramid, i: int)
    requires 0 <= i < |p.levels|
    ensures RuleSize(r, p)[i].0 >= 1 && RuleSize(r, p)[i].1 >= 1
    ensures forall k :: 0 <= k < |r.rhs| ==>
      RuleSize(r, p)[i].0 >= SymbolSize(r.rhs[k], p)[i].0 &&
      RuleSize(r, p)[i].1 >= SymbolSize(r.rhs[k], p)[i].1
    ensures RuleSize(r, p)[i].0 == 1 ||
      exists k :: 0 <= k < |r.rhs| && RuleSize(r, p)[i].0 == SymbolSize(r.rhs[k], p)[i].0
    ensures RuleSize(r, p)[i].1 == 1 ||
      exists k :: 0 <= k < |r.rhs| && RuleSize(r, p)[i].1 == SymbolSize(r.rhs[k], p)[i].1
  {
    var ps := seq(|r.rhs|, k requires 0 <= k < |r.rhs| => SymbolSize(r.rhs[k], p));
    assert RuleSize(r, p) == FoldMax(Ones(|p.levels|), ps);
    FoldMaxIsMax(Ones(|p.levels|), ps, i);
    assert forall k :: 0 <= k < |r.rhs| ==> ps[k] == SymbolSize(r.rhs[k], p);
  }

  /** The loop of `Symbol.GetFilteredSize` / `Rule.GetFilteredSize` that
      updates `size_pyramid` in place with one child's sizes. */
  method MaxInto(sizes: seq<Size>, child: seq<Size>) returns (res: seq<Size>)
    requires |sizes| == |child|
    ensures res == PointwiseMax(sizes, child)
  {
    res := sizes;
    var i := 0;
    while i < |child|
      invariant 0 <= i <= |child| && |res| == |sizes|
      invariant forall j :: 0 <= j < i ==> res[j] == MaxSize(sizes[j], child[j])
      invariant forall j :: i <= j < |res| ==> res[j] == sizes[j]
    {
      var (ymax, xmax) := res[i];
      var (ycurr, xcurr) := child[i];
      res := res[i := (if ymax >= ycurr then ymax else ycurr, if xmax >= xcurr then xmax else xcurr)];
      i := i + 1;
    }
  }

  /** `Symbol.GetFilteredSize`. */
  method GetSymbolFilteredSize(s: Symbol, p: Pyramid) returns (sizes: seq<Size>)
    ensures sizes == SymbolSize(s, p)
    decreases s
  {
    match s {
      case Terminal(f) =>
        sizes := TerminalSize(f, p);
      case NonTerminal(rules) =>
        ghost var ps := seq(|rules|, k requires 0 <= k < |rules| => RuleSize(rules[k], p));
        sizes := Ones(|p.levels|);
        var k := 0;
        while k < |rules|
          invariant 0 <= k <= |rules|
          invariant sizes == FoldMax(Ones(|p.levels|), ps[..k])
        {
          var ruleSizes := GetRuleFilteredSize(rules[k], p);
          assert |ruleSizes| == |sizes|;
          sizes := MaxInto(sizes, ruleSizes);
          assert ps[..k + 1][..k] == ps[..k];
          k := k + 1;
        }
        assert ps[..|rules|] == ps;
    }
  }

  /** `Rule.GetFilteredSize`. */
  method GetRuleFilteredSize(r: Rule, p: Pyramid) returns (sizes: seq<Size>)
    ensures sizes == RuleSize(r, p)
    decreases r
  {
    ghost var ps := seq(|r.rhs|, k requires 0 <= k < |r.rhs| => SymbolSize(r.rhs[k], p));
    sizes := Ones(|p.levels|);
    var k := 0;
    while k < |r.rhs|
      invariant 0 <= k <= |r.rhs|
      invariant sizes == FoldMax(Ones(|p.levels|), ps[..k])
    {
      var symbolSizes := GetSymbolFilteredSize(r.rhs[k], p);
      assert |symbolSizes| == |sizes|;
      sizes := MaxInto(sizes, symbolSizes);
      assert ps[..k + 1][..k] == ps[..k];
      k := k + 1;
    }
    assert ps[..|r.rhs|] == ps;
  }
}

/** The weighted grammar of a deformable-parts model and the feature pyramid it
    is evaluated on (src/pydro/core.py: Symbol, Rule, StructuralRule,
    DeformationRule, Filter, Offset, Loc, Def). */
module Grammar {

  /** A three-dimensional numpy array `t[y][x][channel]`. */
  type Tensor = seq<seq<seq<int>>>

  ghost predicate IsTensor(t: Tensor, h: int, w: int, d: int)
  {
    |t| == h && forall y :: 0 <= y < |t| ==>
      |t[y]| == w && forall x :: 0 <= x < |t[y]| ==> |t[y][x]| == d
  }

  /** The number of feature channels per cell. */
  const Channels: nat := 32

  /** A learned parameter block; `id` is its identity, the key under
      which training collects its features. */
  datatype Block = Block(id: nat, w: seq<int>)

  /** The block of a filter: a `rows x cols x Channels` weight array. */
  datatype FilterBlock = FilterBlock(id: nat, rows: nat, cols: nat, w: Tensor)

  /** An appearance filter, possibly the mirror image of its block. `size` is
      the declared window size used when cropping features. */
  datatype Filter = Filter(block: FilterBlock, size: (int, int), flip: bool)

  /** The bias block of a rule (one weight). */
  datatype Offset = Offset(block: Block)

  /** The per-octave location block of a rule (three weights). */
  datatype Loc = Loc(block: Block)

  /** The deformation block of a deformation rule (four weights
      `ax, bx, ay, by`), possibly mirrored. */
  datatype Def = Def(block: Block, flip: bool)

  /** Where a structural rule places one right-hand-side child: `(ax, ay)`
      in the child's grid, `ds` octaves finer. */
  datatype Anchor = Anchor(ax: int, ay: int, ds: nat)

  datatype Rule =
    | Structural(rhs: seq<Symbol>, anchor: seq<Anchor>, offset: Offset, loc: Loc)
    | Deformation(rhs: seq<Symbol>, df: Def, offset: Offset, loc: Loc)

  datatype Symbol =
    | Terminal(filter: Filter)
    | NonTerminal(rules: seq<Rule>)

  /** One pyramid level: its feature array is `rows x cols x Channels`. */
  datatype Level = Level(rows: nat, cols: nat, features: Tensor)

  /** The feature pyramid: levels in decreasing scale, `interval` levels per
      octave, and the padding (in cells) of every level. */
  datatype Pyramid = Pyramid(levels: seq<Level>, interval: nat, padx: int, pady: int)

  ghost predicate PyramidValid(p: Pyramid)
  {
    forall i :: 0 <= i < |p.levels| ==>
      IsTensor(p.levels[i].features, p.levels[i].rows, p.levels[i].cols, Channels)
  }

  /** The shape facts the source asserts or relies on: a non-terminal has at
      least one rule (`self.rules[0]`), a structural rule has one anchor per
      child, a deformation rule exactly one child, and the parameter blocks
      have the sizes their `GetParameters` results are used at. */
  ghost predicate WellFormedSymbol(s: Symbol)
  {
    match s
    case Terminal(f) => IsTensor(f.block.w, f.block.rows, f.block.cols, Channels)
    case NonTerminal(rules) =>
      |rules| > 0 && forall k :: 0 <= k < |rules| ==> WellFormedRule(rules[k])
  }

  ghost predicate WellFormedRule(r: Rule)
  {
    && |r.offset.block.w| == 1
    && |r.loc.block.w| == 3
    && (r.Structural? ==> |r.anchor| == |r.rhs|)
    && (r.Deformation? ==> |r.rhs| == 1 && |r.df.block.w| == 4)
    && forall k :: 0 <= k < |r.rhs| ==> WellFormedSymbol(r.rhs[k])
  }
}

# pydro grammar engine, modelled in Dafny

This project models the grammar evaluation and parsing engine of pydro's
deformable-parts detector (`src/pydro/core.py`). In pydro, a detection model
is a weighted grammar: terminals are appearance filters, and rules are either
structural or deformation rules.

The model covers the core's stages:

- **Scoring, bottom up.** pydro fills one score array per symbol and rule at
  every level of the feature pyramid.
  - `GetFilteredSize` computes the array sizes.
  - `FilteredStructuralRule.__init__` shifts and subsamples each anchored
    child's array and adds them together.
  - `FilteredDeformationRule.__init__` prepares the input of the distance
    transform.
  - `FilteredSymbol.__init__` takes the element-wise maximum over a symbol's
    rules (the OR).
- **Parsing, top down.** From a cell of the start symbol, `FilteredSymbol.Parse`
  picks the first rule that scores the cell's value and maps each child's
  coordinates. With a loss adjustment it also keeps the loss-augmented scores.
- **Detection.** `FilteredModel.Parse` keeps the cells above a threshold,
  sorts them by score (stable), and parses each one.
- **Feature vectors.** The feature vectors of a parse tree come from
  `Rule.GetFeatures`, `Def`, `Loc`, `Offset` and `Filter`, including the
  filter mirror permutation `_p`.

How the model represents these:

- **Scores** are `NegInf | Fin(int)`. Arrays are sequences of rows. Python and
  numpy negative indexing is modelled explicitly, and reading outside an array
  gives `IndexError`.
- **State changes.** What the code computes by mutating lists, arrays and dicts
  in loops is a `method` with loop invariants. Each such method is proved equal
  to a specification function. Lemmas state the properties of those functions.
- **Collaborators** enter as functions in the environment `Env`: the terminal
  correlation `FilterPyramid`, the distance-transform kernel `DeformationCost`
  and the optional loss adjustment. `EnvValid` is their shape and value contract (including the kernel's `TransformOk` relation).

Modules, in dependency order:

| module | file | models |
|---|---|---|
| `Scores` | scores.dfy | the score domain, arrays, numpy indexing |
| `Geometry` | geometry.dfy | octave subsampling, virtual padding, child levels |
| `Grammar` | grammar.dfy | symbols, rules, filters, parameter blocks, the pyramid |
| `Sizes` | sizes.dfy | `GetFilteredSize` |
| `Structural` | structural.dfy | the structural-rule combination |
| `Filtered` | filtered.dfy | the filtered grammar: OR, deformation input, loss adjustment |
| `FilterFacts` | filter_facts.dfy | the invariant of the filtered grammar that parsing relies on |
| `Parse` | parse.dfy | `FilteredSymbol.Parse` and the rules' `Parse` |
| `ParseFacts` | parse_facts.dfy | parse success and the loss bookkeeping |
| `Detect` | detect.dfy | `FilteredModel.Parse` |
| `Features` | features.dfy | feature vectors of a parse tree |

## Model

| member | source | states |
|---|---|---|
| Scores.Plus | src/pydro/core.py:475 | a sum is finite exactly when both operands are: -inf absorbs |
| Scores.Max | src/pydro/core.py:611-612 | the maximum bounds both operands and is one of them |
| Scores.Fill | src/pydro/core.py:423 | an `h x w` array holding `v` in every cell |
| Scores.AddGrid | src/pydro/core.py:475 | element-wise sum of two arrays of one shape, with the shape kept |
| Scores.MaxGrid | src/pydro/core.py:611-612 | element-wise maximum, with the shape kept |
| Scores.AddScalar | src/pydro/core.py:330 | a scalar added to every cell, with the shape kept |
| Scores.PyIndex | src/pydro/core.py:651 | an index resolves exactly when `-n <= i < n`, to `i` or `n + i` |
| Scores.PyAt | src/pydro/core.py:507 | `s[i]` inside the sequence, `None` exactly outside `[-n, n)` |
| Scores.GridAt | src/pydro/core.py:507 | `g[y, x]` is the cell inside the array |
| Geometry.Pow2 | src/pydro/core.py:432 | `1 << d` is at least 1 |
| Geometry.Pow2Add | src/pydro/core.py:502-505 | `2^(a+b) = 2^a * 2^b`, the octave shift of a nested child |
| Geometry.NonVirtual | src/pydro/core.py:167-168 | the raw array position `p - pad * (2^d - 1)`; the identity at `d = 0` |
| Geometry.Virtual | src/pydro/core.py:356-357 | the inverse of `NonVirtual` |
| Geometry.ChildLevel | src/pydro/core.py:443 | the child's level `l - interval * ds` is never above `l`, and is `l` for `ds = 0` |
| Geometry.AnchorNonVirtual | src/pydro/core.py:498-507 | an anchored child's raw position from its parent's raw position |
| Sizes.Ones | src/pydro/core.py:212 | one `(1, 1)` per pyramid level |
| Sizes.PointwiseMax | src/pydro/core.py:218-222 | the entry-wise maximum of two size pyramids |
| Sizes.FoldMax | src/pydro/core.py:214-222 | folding the children keeps one entry per level |
| Sizes.TerminalSize | src/pydro/core.py:563-569 | one `features.shape - filter.shape + 1` per level |
| Sizes.SymbolSize | src/pydro/core.py:562-584 | one entry per pyramid level |
| Sizes.RuleSize | src/pydro/core.py:211-224 | one entry per pyramid level |
| Sizes.FoldMaxIsMax | src/pydro/core.py:214-222 | the fold is at least the start and every child, and equals one of them, in each coordinate |
| Sizes.NonTerminalSize | src/pydro/core.py:572-584 | a non-terminal's entry is at least `(1, 1)` and every rule's, and equals 1 or some rule's |
| Sizes.RuleSizeIsMax | src/pydro/core.py:212-224 | a rule's entry is at least `(1, 1)` and every child's, and equals 1 or some child's |
| Sizes.MaxInto | src/pydro/core.py:218-222 | the in-place loop over levels computes `PointwiseMax` |
| Sizes.GetSymbolFilteredSize | src/pydro/core.py:562-584 | the loop computes `SymbolSize` |
| Sizes.GetRuleFilteredSize | src/pydro/core.py:211-224 | the loop computes `RuleSize` |
| Structural.ARange | src/pydro/core.py:456 | `arange(start, stop, step)`: entry `k` is `start + k*step`, and the entries are exactly those below `stop` |
| Structural.CountBelow | src/pydro/core.py:457 | `(s < b).sum()` is at most the length of `s` |
| Structural.SplitIncreasing | src/pydro/core.py:456-458 | on an increasing array the entries below `b` are a prefix of length `oy`, and the kept entries are the rest |
| Structural.AxisReach | src/pydro/core.py:446-456 | target cell `t` gets a position exactly when its would-be position is within the clipped end |
| Structural.AxisLength | src/pydro/core.py:446-456 | never more positions than target cells |
| Structural.Axis | src/pydro/core.py:446-462 | the kept run fits after `oy` in the target (the code's assertions at 469-472), and covers exactly the cells whose source lies inside the child's array |
| Structural.AxisSource | src/pydro/core.py:432-462 | `Axis` for the start the code computes from the anchor, written with the anchored source position |
| Structural.CellOrNegInf | src/pydro/core.py:467-473 | a finite value is a cell inside the child's array |
| Structural.Contribution | src/pydro/core.py:464-475 | what one anchored child adds at every target cell is an `h x w` array |
| Structural.Gather | src/pydro/core.py:464 | `score[iy - 1, :][:, ix - 1]` has one row per entry of `iy` and one column per entry of `ix` |
| Structural.Place | src/pydro/core.py:467-473 | the block written into the -inf array keeps its shape |
| Structural.PlacedIsContribution | src/pydro/core.py:464-473 | placing the gathered block into the -inf array is the child's anchored contribution: source cells inside, -inf outside |
| Structural.ResampleAxis | src/pydro/core.py:430-462 | the axis computation delivers `oy` and the kept run that `AxisOk` states |
| Structural.ResampleChild | src/pydro/core.py:443-475 | the `stmp` of one child at one level is its `Contribution` |
| Structural.LevelAfter | src/pydro/core.py:442-477 | level `i` after the first `k` children keeps the target shape |
| Structural.StructuralScore | src/pydro/core.py:422-477 | one array of the target shape per level |
| Structural.CombineStructural | src/pydro/core.py:428-477 | the in-place loops over children and levels compute `StructuralScore` |
| Structural.AddChild | src/pydro/core.py:442-477 | adding child `k` moves every level from `k` to `k + 1` children |
| Structural.LevelAfterIsSum | src/pydro/core.py:422-475 | structural additivity: each cell is `bias + loc_score` plus every child's anchored term |
| Structural.CellSumFinite | src/pydro/core.py:475 | the sum is finite exactly when every term is |
| Structural.FiniteCell | src/pydro/core.py:443-475 | at a finite cell, every child's level exists and its anchored cell is inside its array and finite |
| Structural.MissingOctave | src/pydro/core.py:476-477 | a child level below 0 makes the whole level -inf |
| Filtered.Bucket | src/pydro/core.py:319-321 | the octave bucket of a level is 0, 1 or 2 |
| Filtered.LocMatrix | src/pydro/core.py:413-416 | `loc_f` is `3 x n` |
| Filtered.LocScores | src/pydro/core.py:419 | `loc_w.dot(loc_f)` at level `i` is the weight of `i`'s bucket |
| Filtered.DefParams | src/pydro/core.py:721-725 | `Def.GetParameters()` is the block's weights, the second negated when flipped |
| Filtered.MaxLevels | src/pydro/core.py:609-614 | the pyramid of element-wise maxima, shaped by `model.size` |
| Filtered.OrScore | src/pydro/core.py:607-614 | a non-terminal's score pyramid is shaped by `model.size` |
| Filtered.OrIsMax | src/pydro/core.py:607-614 | each OR cell is at least every rule's cell there and equals one of them |
| Filtered.OrCombine | src/pydro/core.py:607-614 | the fold reassigning `self.score` computes `OrScore` |
| Filtered.Adjust | src/pydro/core.py:488-490 | the adjusted score keeps its shape, and is the score itself without an adjustment |
| Filtered.Original | src/pydro/core.py:342-343 | `score_original` exists exactly under an adjustment, and is the unadjusted score |
| Filtered.StructuralBase | src/pydro/core.py:410-426 | one `bias * features.bias + loc_score` per level |
| Filtered.DeformationInput | src/pydro/core.py:329-331 | the kernel input is `bias + loc_score + child score`, cell by cell |
| Filtered.DeformationOut | src/pydro/core.py:329-332 | one kernel call per level, on that level's input |
| Filtered.StructuralInputs | src/pydro/core.py:421-428 | a filtered structural rule meets the shape facts the combination needs |
| Filtered.FilterSymbol | src/pydro/core.py:589-614 | a terminal gets the correlation's pyramid; a non-terminal gets every rule filtered, in order; the score is shaped by `model.size` |
| Filtered.FilterRule | src/pydro/core.py:291-344 | a filtered rule keeps its rule and kind, has its children filtered, and keeps `score_original` exactly under an adjustment |
| Filtered.FilterChildren | src/pydro/core.py:408 | `[s.Filter(model) for s in rule.rhs]` |
| Filtered.FilterSymbolM | src/pydro/core.py:589-614 | the constructor computes `FilterSymbol` |
| Filtered.FilterRuleM | src/pydro/core.py:393-490 | the constructors compute `FilterRule` |
| Filtered.FilterRulesM | src/pydro/core.py:605 | the comprehension filters each rule in order |
| Filtered.FilterChildrenM | src/pydro/core.py:306 | the comprehension computes `FilterChildren` |
| FilterFacts.UnadjustedIsRaw | src/pydro/core.py:488-490 | the unadjusted score is the one computed from the children |
| FilterFacts.AdjustedFinite | src/pydro/core.py:488-490 | under a finiteness-preserving adjustment, a finite adjusted cell was finite before |
| FilterFacts.StructuralExplained | src/pydro/core.py:443-477 | a finite cell of a structural rule has a finite cell in every child, at its anchored position |
| FilterFacts.DeformationExplained | src/pydro/core.py:329-340 | a finite cell of a deformation rule has a finite child cell where `Ix`/`Iy` point |
| FilterFacts.SymbolCoherent | src/pydro/core.py:589-614 | filtering a symbol yields the invariant that parsing relies on |
| FilterFacts.OrExplained | src/pydro/core.py:607-614 | every finite cell of a non-terminal is some rule's score there |
| FilterFacts.RuleCoherent | src/pydro/core.py:393-490 | filtering a rule yields the invariant |
| FilterFacts.ShiftLevels | tests/train_tests.py:38 | `score + c` keeps the shape and raises every finite cell by `c` |
| FilterFacts.SymbolShifted | tests/train_tests.py:38 | under a uniform `+c` adjustment, every rule below the symbol has score = original + `c` |
| FilterFacts.RuleShifted | tests/train_tests.py:38 | the same for one rule and its children |
| FilterFacts.ShiftPreservesFinite | src/pydro/core.py:488-490 | a uniform shift never turns -inf finite |
| Parse.ReadAt | src/pydro/core.py:507 | `score[l].score[y, x]` inside the arrays is that cell |
| Parse.SelectRule | src/pydro/core.py:646-657 | the first rule scoring `s` at the cell; every earlier one reads something else; "Rule argmax not found" exactly when none matches; `IndexError` only on a read outside |
| Parse.Collect | src/pydro/core.py:509-518 | the list is Ok exactly when every result is, with their values in order; otherwise the first error (the children's parses here, and their features at core.py:229-230) |
| Parse.ParseSymbol | src/pydro/core.py:621-678 | a node at the given place; a leaf exactly for a terminal, which fails with `IndexError` exactly when its level `l` does not exist; a selected rule scoring `s`; `loss` None exactly without adjustment; loss = children's loss + `s` - original, and `s` reduced by it |
| Parse.MakeNode | src/pydro/core.py:661-676 | the node holds the selected rule and its children |
| Parse.ParseChild | src/pydro/core.py:496-518 | the child sits at `(x*2^ads + ax, y*2^ads + ay)`, level `l - interval*ads`, `ds + ads`, with its score read at the raw position |
| Parse.ParseStructural | src/pydro/core.py:492-520 | `AssertionError` when anchors and children differ in number; otherwise Ok when every child parses, with one child per anchor in anchor order, each its anchor's `ParseChild`, and else the first failing child's error (through `Parse.Collect`) |
| Parse.ParseDeformation | src/pydro/core.py:346-374 | exactly one child, at the same level and `ds`, placed where `Ix`/`Iy` point; the padding round trip is the identity |
| Parse.SelectRuleM | src/pydro/core.py:646-657 | the selection loop computes `SelectRule` |
| Parse.ParseSymbolM | src/pydro/core.py:621-678 | computes `ParseSymbol` |
| Parse.ParseRuleM | src/pydro/core.py:660 | computes `ParseRule` |
| Parse.ParseStructuralM | src/pydro/core.py:492-520 | computes `ParseStructural` |
| Parse.ParseChildrenM | src/pydro/core.py:494-520 | the anchor loop appending to `children` collects the child parses |
| Parse.ParseDeformationM | src/pydro/core.py:346-374 | computes `ParseDeformation` |
| Parse.ParseChildM | src/pydro/core.py:496-518 | one iteration of the anchor loop computes `ParseChild` |
| Parse.ParsedRule | src/pydro/core.py:660-676 | a tree node's children are its rule's parse at the same place |
| Parse.CollectAllOk | src/pydro/core.py:509-518 | all parses Ok give exactly those children |
| Parse.CollectFirstError | src/pydro/core.py:509-518 | the first failing child's error is the parse's error |
| ParseFacts.SelectRuleFinds | src/pydro/core.py:646-657 | a matching rule with readable predecessors is found, at or before it |
| ParseFacts.SelectFinite | src/pydro/core.py:646-657 | at a finite cell of a coherent non-terminal some rule is selected and scores exactly the cell |
| ParseFacts.VirtualRoundTrip | src/pydro/core.py:356-362 | adding the padding and removing it again gives the position back |
| ParseFacts.ChildPosition | src/pydro/core.py:498-507 | the raw position where child `j` is read is its anchored source position |
| ParseFacts.CoherentSymbolParses | src/pydro/core.py:621-678 | parsing a coherent symbol at a finite cell, with the cell's score, succeeds |
| ParseFacts.CoherentRuleParses | src/pydro/core.py:346-374 | a coherent rule parses where its unadjusted score is finite |
| ParseFacts.CoherentStructuralParses | src/pydro/core.py:492-520 | a coherent structural rule parses every child |
| ParseFacts.CoherentChildParses | src/pydro/core.py:496-518 | child `j` of a coherent structural rule parses at its anchor |
| ParseFacts.CoherentDeformationParses | src/pydro/core.py:346-374 | the child of a coherent deformation rule parses where `Ix`/`Iy` point |
| ParseFacts.ParseSucceeds | src/pydro/core.py:621-678 | at any finite cell of a filtered well-formed symbol, under kernels meeting `EnvValid` and an adjustment that keeps -inf cells -inf (`FinitePreserving`), the parse never fails ("Rule argmax not found" cannot happen) |
| ParseFacts.InnerCount | src/pydro/core.py:661 | the number of tree nodes: 0 for a leaf, at least 1 for a tree node |
| ParseFacts.ReadShift | src/pydro/core.py:651 | reading a shifted pyramid reads the original shifted, and fails exactly where the original does |
| ParseFacts.ChildLossShift | src/pydro/core.py:661 | under a `+c` shift the children's summed loss is `c` per tree node below |
| ParseFacts.UniformLoss | src/pydro/core.py:661-664 | under a `+c` adjustment, a parsed tree node's loss is `c` times its tree-node count |
| ParseFacts.NodeLoss | src/pydro/core.py:661-662 | one node's loss under `+c` given its children's |
| ParseFacts.RuleLoss | src/pydro/core.py:660-662 | every tree-node child of a rule's parse has loss `c` per tree node |
| ParseFacts.StructuralChildLoss | src/pydro/core.py:509-518 | the same for one structural child |
| ParseFacts.DeformationChildLoss | src/pydro/core.py:365-372 | the same for the deformation child |
| ParseFacts.ParseLoss | tests/train_tests.py:38 | the loss of a parse of a filtered symbol under `score + c` is `c` times its tree-node count |
| Detect.RowCandsMember | src/pydro/core.py:91-93 | a row's candidates are exactly its cells above the threshold, with their position, level and score |
| Detect.RowCandsDiscovered | src/pydro/core.py:91 | a row's candidates come in column order |
| Detect.GridCandsMember | src/pydro/core.py:91-93 | a level's candidates are exactly its cells above the threshold |
| Detect.GridCandsDiscovered | src/pydro/core.py:91 | `numpy.where` order: row-major |
| Detect.CandsMember | src/pydro/core.py:89-97 | the candidates are exactly the cells of all levels above the threshold |
| Detect.CandsDiscovered | src/pydro/core.py:89-97 | the candidates come level-major, then row, then column |
| Detect.ConcatDiscovered | src/pydro/core.py:94-97 | stacking one level's candidates after the earlier levels' keeps discovery order |
| Detect.Gather | src/pydro/core.py:89-97 | the `hstack` loop computes `Cands` |
| Detect.InsertDesc | src/pydro/core.py:99-100 | one index inserted into the order, which stays within range |
| Detect.InsertPermutes | src/pydro/core.py:99-100 | insertion adds the index and loses nothing |
| Detect.InsertKeepsOrder | src/pydro/core.py:99-100 | inserting the newest index keeps keys descending with ties in index order |
| Detect.SortOrder | src/pydro/core.py:99-101 | `order` holds `n` indices below `n` |
| Detect.SortOrderPermutes | src/pydro/core.py:99-101 | `order` is a permutation of `0 .. n-1` |
| Detect.SortOrderSorted | src/pydro/core.py:99-101 | `order` sorts the scores non-increasingly and keeps equal scores in discovery order (a stable sort) |
| Detect.Reorder | src/pydro/core.py:103-106 | `X[order]`: entry `k` is the candidate at `order[k]` |
| Detect.OrderedPermutes | src/pydro/core.py:99-106 | the parse order takes every candidate exactly once |
| Detect.OrderedSorted | src/pydro/core.py:99-106 | the parse order has non-increasing scores, with ties in discovery order |
| Detect.Emit | src/pydro/core.py:117-141 | the generator yields at most one root per parse; it yields all of them unless a parse fails or returns a leaf, and then stops with fewer (a leaf gives `AttributeError`) |
| Detect.EmitParsed | src/pydro/core.py:130-139 | root `i` comes from parse `i`, a tree node, with its `s` and `loss` |
| Detect.EmitStops | src/pydro/core.py:117-119 | iteration stops at the first parse that fails or is a leaf, with that error |
| Detect.EmitAll | src/pydro/core.py:117-141 | with every parse a tree node, one root per parse and no error |
| Detect.ParseModel | src/pydro/core.py:84-141 | `FilteredModel.Parse` is gather, sort, then parse in order |
| Detect.ParseEach | src/pydro/core.py:117-141 | the loop over sorted candidates computes `Emit` of the parses |
| Detect.CandidateCell | src/pydro/core.py:91-92 | every candidate is a finite cell of the start symbol, with its score |
| Detect.DetectionsComplete | src/pydro/core.py:84-141 | on a well-formed non-terminal start, under an adjustment meeting `FinitePreserving`, one detection per cell above the threshold and no failure; without adjustment the scores are the cells' and non-increasing |
| Detect.EmitComplete | src/pydro/core.py:117-141 | all tree-node parses yield one root each, in order, with the candidates' scores |
| Detect.AllParsed | src/pydro/core.py:117-118 | under an adjustment meeting `FinitePreserving`, every candidate parses to a tree node, carrying its score without adjustment |
| Features.Rev | src/pydro/core.py:162 | `w[:, ::-1]` reverses: same length, entry `i` is the `i`-th from the end |
| Features.DotRev | src/pydro/core.py:162 | reversing both sides leaves a dot product unchanged |
| Features.DotSparse | src/pydro/core.py:754-761 | a vector that is zero except at `k` picks `b[k]` |
| Features.MirrorPermInvolution | src/pydro/core.py:146-152 | `_p` maps the 32 channels onto themselves and is its own inverse |
| Features.MirrorCell | src/pydro/core.py:173 | `v[_p]`: channel `c` takes channel `_p[c]` |
| Features.MirrorCellTwice | src/pydro/core.py:146-152 | permuting a cell twice gives it back |
| Features.MirrorCellDot | src/pydro/core.py:162 | permuting both cells leaves their dot product unchanged |
| Features.Mirror | src/pydro/core.py:162 | `w[:, ::-1, _p]`: rows kept, columns reversed, channels permuted |
| Features.MirrorRow | src/pydro/core.py:162 | one row mirrored: cell `x` is the permuted `x`-th cell from the end |
| Features.MirrorChannels | src/pydro/core.py:173 | `feat[:, :, _p]`: every cell permuted in place |
| Features.FlattenLength | src/pydro/core.py:175 | windows of one shape flatten to vectors of one length |
| Features.MirrorDot | src/pydro/core.py:162 | mirroring both windows leaves the dot of their flattenings unchanged |
| Features.MirrorTwice | src/pydro/core.py:161-162 | mirroring a filter twice gives it back |
| Features.MirrorAdjoint | src/pydro/core.py:161-173 | mirrored weights against a window equal the weights against the mirrored window |
| Features.SliceBound | src/pydro/core.py:170-171 | Python slice bounds: negative counts from the end, clamped to the sequence |
| Features.PySlice | src/pydro/core.py:170-171 | `s[a:b]` is `s[a..b]` inside the sequence, never longer than it, and never fails |
| Features.WindowInside | src/pydro/core.py:170-171 | `features[fy:fy+h, fx:fx+w, :]`: inside the array, `h` rows, row `i` exactly the cells from `(fy + i, fx)` on |
| Features.WindowCells | src/pydro/core.py:170-171 | a window of whole cells has whole cells |
| Features.LeafWindow | src/pydro/core.py:166-171 | the window exists exactly when the leaf's level does; its cells are whole |
| Features.FilterFeatures | src/pydro/core.py:166-175 | `Filter.GetFeatures` corrected: Ok exactly when the level exists, keyed by the filter's block only |
| Features.FilterFeaturesAsWritten | src/pydro/core.py:166-175 | `Filter.GetFeatures` as written: same keys and failure |
| Features.FilterParams | src/pydro/core.py:161-164 | `GetParameters()`: mirroring it for a flipped filter gives the block back |
| Features.FilterScore | src/pydro/core.py:161-175 | the block's weights against the corrected features equal the filter's parameters against the window, also when flipped |
| Features.FlippedFeaturesMissScore | src/pydro/core.py:172-173 | on a flipped 1x2 filter the as-written features give 0 where the window's correlation is 1; the corrected ones give 1 |
| Features.OffsetFeatures | src/pydro/core.py:778-782 | one feature, under the offset's block |
| Features.OffsetScore | src/pydro/core.py:410 | the offset weight against its feature is the bias term `w * features.bias` |
| Features.DeformationBiasMissesFeature | src/pydro/core.py:314 | with weight 1 and bias feature 10, a deformation rule's bias as written is 1 while its features give 10 |
| Features.LocFeatures | src/pydro/core.py:753-764 | one-hot on the octave bucket: index 0 iff `l < interval`, 1 iff `interval <= l < 2*interval`, else 2 |
| Features.LocScore | src/pydro/core.py:317-324 | the location features are column `l` of `loc_f`, and the weights against them give `loc_scores[l]` |
| Features.DefFeatures | src/pydro/core.py:727-739 | `[-dx², -dx, -dy², -dy]`, the second entry negated when flipped, under the block |
| Features.DefScore | src/pydro/core.py:719-739 | the weights against the deformation features are minus the kernel's penalty under `GetParameters()`, also when flipped |
| Features.MergeSpec | src/pydro/core.py:232-234 | merging fails exactly when a key is already there; otherwise both maps' entries are kept |
| Features.MergeInto | src/pydro/core.py:232-234 | the assert-and-store loop over a contributor computes `Merge` |
| Features.MergeAll | src/pydro/core.py:232-245 | failing merges fail with `AssertionError`; successful ones keep the start's keys |
| Features.MergeEach | src/pydro/core.py:232-245 | the loops one after the other compute `MergeAll` |
| Features.UnionHas | src/pydro/core.py:232-245 | a key is in the union exactly when it is in one of the sets |
| Features.DisjointFold | src/pydro/core.py:232-245 | folding two disjoint key sets into one keeps the rest disjoint, and back |
| Features.MergeAllFromEmpty | src/pydro/core.py:232-245 | merging a list into the empty dict succeeds exactly when the key sets are pairwise disjoint, and then holds their union |
| Features.MergeAllSpec | src/pydro/core.py:232-245 | merging a list succeeds exactly when the key sets are pairwise disjoint, and then holds every key |
| Features.MergeAllValues | src/pydro/core.py:232-245 | a successful merge stores the entries of the start and of every contributor, each with its own vector |
| Features.DisjointSnoc | src/pydro/core.py:275-277 | one more key set keeps disjointness exactly when it misses the union of the rest |
| Features.NodeFeatures | src/pydro/core.py:543-551 | `Symbol.GetFeatures`: the only failures are `IndexError`, `AssertionError` and `ValueError` |
| Features.RuleFeatures | src/pydro/core.py:226-247 | `Rule.GetFeatures`: the same three failures |
| Features.Combine | src/pydro/core.py:232-277 | the merge fails only by the disjointness assertion or the one-child unpacking |
| Features.ChildFeatures | src/pydro/core.py:229-230 | one feature map per child, in order; the only failures are the children's |
| Features.NodeFeaturesM | src/pydro/core.py:543-551 | computes `NodeFeatures` |
| Features.RuleFeaturesM | src/pydro/core.py:226-247 | computes `RuleFeatures` |
| Features.CombineM | src/pydro/core.py:232-277 | the dict-filling loops compute `Combine` |
| Features.ChildFeaturesM | src/pydro/core.py:229-230 | the comprehension over the children computes `ChildFeatures` |
| Features.BaseSpec | src/pydro/core.py:232-245 | `Rule.GetFeatures` succeeds exactly when offset, location and children have disjoint keys, and holds all of them |
| Features.CombineSpec | src/pydro/core.py:232-277 | a node's merge succeeds exactly when its contributors are disjoint and a deformation node has one child, and holds every contributor's keys |
| Features.CombineValues | src/pydro/core.py:232-277 | a successful node merge stores the offset's, the location's, every child's and (for a deformation rule) the deformation's vectors under their blocks |
| Features.NodeKeysOk | src/pydro/core.py:226-277 | assembled features are under exactly the tree's blocks |
| Features.ChildKeysOk | src/pydro/core.py:229-230 | the children's features are under their trees' blocks |
| Features.NodeOk | src/pydro/core.py:226-277 | assembly succeeds exactly when every leaf's level exists, every deformation node has one child and no node has two contributors sharing a block |
| Features.ChildOk | src/pydro/core.py:229-230 | the children's features assemble exactly when every child's do |
| Features.NodeValues | src/pydro/core.py:226-277 | a tree node's assembled features store its offset's, its location's, each child's assembled features and its deformation's |
| Features.AssemblyOk | src/pydro/core.py:226-277 | success exactly when assemblable; then one entry per block of the tree and no other, a leaf's being its filter's features and a tree node's those of its offset, location, children and deformation |

## Left out

- Float32 arithmetic: scores are exact integers with -inf, so rounding, NaN and the float `==` of rule selection are not modelled.
- `DeformationCost` (the distance transform) and `FilterPyramid` (the terminal correlation in `src/pydro/_detection.c`) are foreign kernels and are environment inputs. Their behaviour is an assumption, `EnvValid`: the responses and the kernel's outputs have the right shapes, and the kernel's outputs meet `TransformOk`. The kernel's optimality (that its score is the maximum over displacements) is not assumed.
- Filtered.TransformOk: assumes of the kernel that a finite output cell has `Ix`/`Iy` inside the input, and that its score is the input score at (`Iy`, `Ix`) minus the quadratic penalty of that displacement. `FilterFacts.DeformationExplained` and `ParseFacts.ParseSucceeds` rest on this assumption.
- FilterFacts.FinitePreserving: assumes of `loss_adjustment` that it never turns a -inf cell finite. `ParseFacts.ParseSucceeds`, `Detect.DetectionsComplete` and `Detect.AllParsed` require it. Without it, an adjusted cell could be finite while every rule's unadjusted cell is -inf, and the parse would then fail.
- Grammar.WellFormedRule: it is a precondition of the filtering and parse facts. It excludes the `AssertionError` of `assert len(self.rhs) == 1` (core.py:310) for a deformation rule without exactly one child, an anchor list whose length differs from the rhs, and parameter blocks of other sizes than their use needs.
- Grammar.WellFormedSymbol: it is a precondition in the same way, and it excludes the `IndexError` of `self.rules[0]` (core.py:607) for a non-terminal without rules.
- Filtered.DeformationInput: the filtered scores of a deformation rule, and so `Filtered.DeformationOut`, `Filtered.FilterRule` and `Filtered.FilterRuleM`, use the corrected bias `Filtered.RuleBias` (offset weight times `features.bias`). The program as written feeds `offset.GetParameters()` alone (core.py:314, 330). That behaviour is `Filtered.DeformationBiasAsWritten`, and the Findings row says where they differ.
- Features.NodeFeatures: a flipped leaf's features, and so `Features.NodeFeaturesM` and the assembly lemmas, use the corrected `Features.FilterFeatures`, whose window is mirrored like the weights. The program as written only permutes the channels (core.py:172-173). That behaviour is `Features.FilterFeaturesAsWritten`; it has the same keys and the same failures, and the Findings row says where the vectors differ.
- `src/pydro/features.py` (`BuildPyramid`) and `src/pydro/detection.py` are not part of this model. The pyramid levels are given.
- Pixel bounding boxes at core.py:121-128 and 623-628 are float arithmetic on `sbin / scale`. `TreeRoot` and `Leaf` carry no box.
- `weakref` back-pointers, `SetLHS`/`SetSymbol`, and the plain records `Model`, `Block`, `Features` and `Stats`: the model's grammar is a tree of values.
- `GetBlocks` only lists blocks and is not modelled.
- The generator laziness of `FilteredModel.Parse` is not modelled; the detections are a sequence, and parsing stops at the first error.
- Parse.MakeNode: a loss term involving -inf would be inf or NaN in numpy. The model gives `Err(NonFiniteLoss)` instead of a non-finite loss.
- Detect.Emit: a parse that returns a `Leaf` (a terminal start symbol) ends the iteration with `AttributeError`, since `Leaf` has no `rule`.
- Features.NodeFeatures: the asserts `self == node.symbol` and `isinstance(node, Leaf/TreeNode)` of `Symbol.GetFeatures` hold by construction, because a node carries its filter or rule rather than its symbol.
- The iteration order of the dict loops of `Rule.GetFeatures` is not modelled; the result does not depend on it.
- Features.RuleFeatures: the model uses the rule the node stores (`node.rule`), and the kind of that rule decides whether deformation features are added, as the class does in the source.
- ParseFacts.UniformLoss: under a uniform `+c` adjustment, the code sums one `c` per tree node, so the root's loss is `c` times the tree-node count. The documentation expects a total loss of `c` for the whole parse. The per-node sum of core.py:661-676 gives `c` times `ParseFacts.InnerCount`, and the model follows the code. The test's total of 9 fits a per-node sum.

## Findings

| source | as written | input that shows it | evidently intended | confidence | as-written member | corrected member |
|---|---|---|---|---|---|---|
| src/pydro/core.py:314 | `FilteredDeformationRule.__init__` uses `bias = self.offset.GetParameters()`, without the `* model.features.bias` factor that the structural rule applies at core.py:410 and that `Offset.GetFeatures` (core.py:778-782) puts in the feature vector | offset weight `[1]`, `features.bias = 10`: the score adds 1, the features give 10 | the bias term is the offset weight times `features.bias`, as for structural rules | medium, not executed | Filtered.DeformationBiasAsWritten, Features.DeformationBiasMissesFeature | Filtered.RuleBias, Features.OffsetScore |
| src/pydro/core.py:172-173 | for a flipped filter, `Filter.GetFeatures` permutes the window's channels (`feat[:, :, _p]`) but does not reverse its columns, while `Filter.__init__` (core.py:161-162) reverses the columns and permutes the channels of the weights | a flipped 1x2 filter whose block is `[[cell with only channel 31 set, zero cell]]`, over a window with the same two cells: the score is 1, and the as-written features give 0 against the block | the window is mirrored exactly as the weights are (`feat[:, ::-1, _p]`), so the block's weights against the features equal the filter's score | medium, not executed | Features.FilterFeaturesAsWritten, Features.FlippedFeaturesMissScore | Features.FilterFeatures, Features.FilterScore |

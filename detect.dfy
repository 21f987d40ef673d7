/** Detection extraction (`FilteredModel.Parse`): the cells of the start
    symbol scoring above a threshold, in non-increasing score order with
    ties in discovery order, each parsed into a tree. */
module Detect {
  import opened Scores
  import opened Geometry
  import opened Grammar
  import opened Filtered
  import opened FilterFacts
  import opened Parse
  import opened ParseFacts

  /** One entry of the arrays `X`, `Y`, `L`, `S`. */
  datatype Candidate = Candidate(x: int, y: int, l: int, s: int)

  /** `numpy.where(row > threshold)` on row `y` of level `l`: the cells above
      the threshold, left to right. */
  function RowCands(row: seq<Score>, y: int, l: int, t: int): seq<Candidate>
    decreases |row|
  {
    if row == [] then []
    else RowCands(row[..|row| - 1], y, l, t) +
         (if Above(row[|row| - 1], t) then [Candidate(|row| - 1, y, l, row[|row| - 1].v)] else [])
  }

  /** `numpy.where(level.score > threshold)` on level `l`, in row-major order. */
  function GridCands(g: Grid, l: int, t: int): seq<Candidate>
    decreases |g|
  {
    if g == [] then [] else GridCands(g[..|g| - 1], l, t) + RowCands(g[|g| - 1], |g| - 1, l, t)
  }

  /** The candidates of all levels, level after level. */
  function Cands(score: seq<Grid>, t: int): seq<Candidate>
    decreases |score|
  {
    if score == [] then [] else Cands(score[..|score| - 1], t) + GridCands(score[|score| - 1], |score| - 1, t)
  }

  /** Discovery order: level-major, then row, then column. */
  predicate Before(a: Candidate, b: Candidate)
  {
    a.l < b.l || (a.l == b.l && (a.y < b.y || (a.y == b.y && a.x < b.x)))
  }

  predicate Discovered(cs: seq<Candidate>)
  {
    forall i, j :: 0 <= i < j < |cs| ==> Before(cs[i], cs[j])
  }

  lemma ConcatDiscovered(p: seq<Candidate>, q: seq<Candidate>)
    requires Discovered(p) && Discovered(q)
    requires forall a, b :: a in p && b in q ==> Before(a, b)
    ensures Discovered(p + q)
  {
    forall i, j | 0 <= i < j < |p + q| ensures Before((p + q)[i], (p + q)[j]) {
      if j >= |p| && i < |p| {
        assert p[i] in p && q[j - |p|] in q;
      }
    }
  }

  /** A candidate of a row is a cell of that row above the threshold, with
      its score; and every such cell is one. */
  lemma {:induction false} RowCandsMember(row: seq<Score>, y: int, l: int, t: int, c: Candidate)
    ensures c in RowCands(row, y, l, t) <==>
              c.y == y && c.l == l && 0 <= c.x < |row| && Above(row[c.x], t) && c.s == row[c.x].v
    decreases |row|
  {
    if row != [] {
      var init := row[..|row| - 1];
      RowCandsMember(init, y, l, t, c);
      assert forall x :: 0 <= x < |init| ==> init[x] == row[x];
    }
  }

  lemma {:induction false} RowCandsDiscovered(row: seq<Score>, y: int, l: int, t: int)
    ensures Discovered(RowCands(row, y, l, t))
    decreases |row|
  {
    if row != [] {
      var init := row[..|row| - 1];
      RowCandsDiscovered(init, y, l, t);
      var last := if Above(row[|row| - 1], t) then [Candidate(|row| - 1, y, l, row[|row| - 1].v)] else [];
      forall a, b | a in RowCands(init, y, l, t) && b in last ensures Before(a, b) {
        RowCandsMember(init, y, l, t, a);
      }
      ConcatDiscovered(RowCands(init, y, l, t), last);
    }
  }

  lemma {:induction false} GridCandsMember(g: Grid, l: int, t: int, c: Candidate)
    ensures c in GridCands(g, l, t) <==>
              c.l == l && 0 <= c.y < |g| && 0 <= c.x < |g[c.y]| && Above(g[c.y][c.x], t) && c.s == g[c.y][c.x].v
    decreases |g|
  {
    if g != [] {
      var init := g[..|g| - 1];
      GridCandsMember(init, l, t, c);
      RowCandsMember(g[|g| - 1], |g| - 1, l, t, c);
      assert forall y :: 0 <= y < |init| ==> init[y] == g[y];
    }
  }

  lemma {:induction false} GridCandsDiscovered(g: Grid, l: int, t: int)
    ensures Discovered(GridCands(g, l, t))
    decreases |g|
  {
    if g != [] {
      var init := g[..|g| - 1];
      GridCandsDiscovered(init, l, t);
      RowCandsDiscovered(g[|g| - 1], |g| - 1, l, t);
      forall a, b | a in GridCands(init, l, t) && b in RowCands(g[|g| - 1], |g| - 1, l, t) ensures Before(a, b) {
        GridCandsMember(init, l, t, a);
        RowCandsMember(g[|g| - 1], |g| - 1, l, t, b);
      }
      ConcatDiscovered(GridCands(init, l, t), RowCands(g[|g| - 1], |g| - 1, l, t));
    }
  }

  /** The candidates are exactly the cells of all levels above the
      threshold, each with its score. */
  lemma {:induction false} CandsMember(score: seq<Grid>, t: int, c: Candidate)
    ensures c in Cands(score, t) <==>
              && 0 <= c.l < |score| && 0 <= c.y < |score[c.l]| && 0 <= c.x < |score[c.l][c.y]|
              && Above(score[c.l][c.y][c.x], t) && c.s == score[c.l][c.y][c.x].v
    decreases |score|
  {
    if score != [] {
      var init := score[..|score| - 1];
      CandsMember(init, t, c);
      GridCandsMember(score[|score| - 1], |score| - 1, t, c);
      assert forall l :: 0 <= l < |init| ==> init[l] == score[l];
    }
  }

  /** The candidates come in discovery order. */
  lemma {:induction false} CandsDiscovered(score: seq<Grid>, t: int)
    ensures Discovered(Cands(score, t))
    decreases |score|
  {
    if score != [] {
      var init := score[..|score| - 1];
      var g := score[|score| - 1];
      CandsDiscovered(init, t);
      GridCandsDiscovered(g, |score| - 1, t);
      forall a, b | a in Cands(init, t) && b in GridCands(g, |score| - 1, t) ensures Before(a, b) {
        CandsMember(init, t, a);
        GridCandsMember(g, |score| - 1, t, b);
      }
      ConcatDiscovered(Cands(init, t), GridCands(g, |score| - 1, t));
    }
  }

  /** The `hstack` loop over the levels of the start symbol. */
  method Gather(score: seq<Grid>, t: int) returns (cands: seq<Candidate>)
    ensures cands == Cands(score, t)
  {
    cands := [];
    var pos := 0;
    while pos < |score|
      invariant 0 <= pos <= |score|
      invariant cands == Cands(score[..pos], t)
    {
      cands := cands + GridCands(score[pos], pos, t);
      assert score[..pos + 1][..pos] == score[..pos];
      pos := pos + 1;
    }
    assert score[..|score|] == score;
  }

  // ---------------------------------------------------------------------
  // the stable sort by descending score
  // ---------------------------------------------------------------------

  function Keys(cs: seq<Candidate>): (k: seq<int>)
    ensures |k| == |cs| && forall i :: 0 <= i < |cs| ==> k[i] == cs[i].s
  {
    seq(|cs|, i requires 0 <= i < |cs| => cs[i].s)
  }

  function Range(n: nat): (r: seq<nat>)
    ensures |r| == n && forall i :: 0 <= i < n ==> r[i] == i
  {
    seq(n, i => i)
  }

  /** Insert index `i` after every index whose key is at least `key[i]`. */
  function InsertDesc(o: seq<nat>, i: nat, key: seq<int>): (r: seq<nat>)
    requires i < |key| && forall k :: 0 <= k < |o| ==> o[k] < |key|
    ensures |r| == |o| + 1
    ensures forall k :: 0 <= k < |r| ==> r[k] < |key| && (r[k] == i || r[k] in o)
    decreases |o|
  {
    if o == [] then [i]
    else if key[o[0]] >= key[i] then [o[0]] + InsertDesc(o[1..], i, key)
    else [i] + o
  }

  /** Insertion adds `i` and loses nothing. */
  lemma {:induction false} InsertPermutes(o: seq<nat>, i: nat, key: seq<int>)
    requires i < |key| && forall k :: 0 <= k < |o| ==> o[k] < |key|
    ensures multiset(InsertDesc(o, i, key)) == multiset(o) + multiset{i}
    decreases |o|
  {
    if o != [] && key[o[0]] >= key[i] {
      InsertPermutes(o[1..], i, key);
      assert o == [o[0]] + o[1..];
    }
  }

  /** `list(enumerate(S)).sort(key=lambda k: -k[1])`: the first `n` indices,
      by insertion in index order. */
  function SortOrder(key: seq<int>, n: nat): (r: seq<nat>)
    requires n <= |key|
    ensures |r| == n && forall k :: 0 <= k < n ==> r[k] < n
    decreases n
  {
    if n == 0 then [] else InsertDesc(SortOrder(key, n - 1), n - 1, key)
  }

  predicate Desc(o: seq<nat>, key: seq<int>)
    requires forall k :: 0 <= k < |o| ==> o[k] < |key|
  {
    forall a, b :: 0 <= a < b < |o| ==> key[o[a]] >= key[o[b]]
  }

  predicate Stable(o: seq<nat>, key: seq<int>)
    requires forall k :: 0 <= k < |o| ==> o[k] < |key|
  {
    forall a, b :: 0 <= a < b < |o| && key[o[a]] == key[o[b]] ==> o[a] < o[b]
  }

  /** Putting `h` in front keeps the order when its key bounds the rest's,
      and it precedes the equal ones. */
  lemma ConsKeepsOrder(h: nat, rest: seq<nat>, key: seq<int>)
    requires h < |key| && forall k :: 0 <= k < |rest| ==> rest[k] < |key|
    requires Desc(rest, key) && Stable(rest, key)
    requires forall b :: 0 <= b < |rest| ==> key[h] >= key[rest[b]] && (key[h] == key[rest[b]] ==> h < rest[b])
    ensures Desc([h] + rest, key) && Stable([h] + rest, key)
  {
    var r := [h] + rest;
    forall a, b | 0 <= a < b < |r|
      ensures key[r[a]] >= key[r[b]] && (key[r[a]] == key[r[b]] ==> r[a] < r[b])
    {
      assert r[b] == rest[b - 1];
      if a > 0 {
        assert r[a] == rest[a - 1];
      }
    }
  }

  /** The index kept in front bounds everything inserted behind it. */
  lemma HeadBound(o: seq<nat>, i: nat, key: seq<int>)
    requires i < |key| && o != [] && forall k :: 0 <= k < |o| ==> o[k] < i
    requires Desc(o, key) && Stable(o, key) && key[o[0]] >= key[i]
    ensures var rest := InsertDesc(o[1..], i, key);
            forall b :: 0 <= b < |rest| ==>
              key[o[0]] >= key[rest[b]] && (key[o[0]] == key[rest[b]] ==> o[0] < rest[b])
  {
    var tail := o[1..];
    var rest := InsertDesc(tail, i, key);
    forall b | 0 <= b < |rest|
      ensures key[o[0]] >= key[rest[b]] && (key[o[0]] == key[rest[b]] ==> o[0] < rest[b])
    {
      if rest[b] != i {
        var k :| 0 <= k < |tail| && tail[k] == rest[b];
        assert o[k + 1] == rest[b];
      }
    }
  }

  /** Inserting an index larger than all others keeps the keys descending
      and equal keys in index order. */
  lemma {:induction false} InsertKeepsOrder(o: seq<nat>, i: nat, key: seq<int>)
    requires i < |key| && forall k :: 0 <= k < |o| ==> o[k] < i
    requires Desc(o, key) && Stable(o, key)
    ensures Desc(InsertDesc(o, i, key), key) && Stable(InsertDesc(o, i, key), key)
    decreases |o|
  {
    if o != [] && key[o[0]] >= key[i] {
      var tail := o[1..];
      TailOrder(o, i, key);
      InsertKeepsOrder(tail, i, key);
      HeadBound(o, i, key);
      ConsKeepsOrder(o[0], InsertDesc(tail, i, key), key);
      assert InsertDesc(o, i, key) == [o[0]] + InsertDesc(tail, i, key);
    } else if o != [] {
      FrontBound(o, i, key);
      ConsKeepsOrder(i, o, key);
    }
  }

  /** The tail of an ordered sequence of indices is ordered. */
  lemma TailOrder(o: seq<nat>, i: nat, key: seq<int>)
    requires i < |key| && o != [] && forall k :: 0 <= k < |o| ==> o[k] < i
    requires Desc(o, key) && Stable(o, key)
    ensures forall k :: 0 <= k < |o| - 1 ==> o[1..][k] < i
    ensures Desc(o[1..], key) && Stable(o[1..], key)
  {
    var tail := o[1..];
    assert forall k :: 0 <= k < |tail| ==> tail[k] == o[k + 1];
  }

  /** An index whose key exceeds the first key bounds all of them, and is
      larger than all of them. */
  lemma FrontBound(o: seq<nat>, i: nat, key: seq<int>)
    requires i < |key| && o != [] && forall k :: 0 <= k < |o| ==> o[k] < i
    requires Desc(o, key) && key[o[0]] < key[i]
    ensures forall b :: 0 <= b < |o| ==> key[i] >= key[o[b]] && (key[i] == key[o[b]] ==> i < o[b])
  {
    forall b | 0 <= b < |o| ensures key[i] >= key[o[b]] && (key[i] == key[o[b]] ==> i < o[b]) {
      if b > 0 {
        assert key[o[0]] >= key[o[b]];
      }
    }
  }

  lemma {:induction false} SortOrderPermutes(key: seq<int>, n: nat)
    requires n <= |key|
    ensures multiset(SortOrder(key, n)) == multiset(Range(n))
    decreases n
  {
    if n > 0 {
      var o := SortOrder(key, n - 1);
      SortOrderPermutes(key, n - 1);
      InsertPermutes(o, n - 1, key);
      RangeSnoc(n - 1);
    }
  }

  lemma RangeSnoc(n: nat)
    ensures multiset(Range(n + 1)) == multiset(Range(n)) + multiset{n}
  {
    assert Range(n + 1) == Range(n) + [n];
  }

  /** The sort orders the keys from the largest down and keeps equal keys
      in index order. */
  lemma {:induction false} SortOrderSorted(key: seq<int>, n: nat)
    requires n <= |key|
    ensures Desc(SortOrder(key, n), key) && Stable(SortOrder(key, n), key)
    decreases n
  {
    if n > 0 {
      var o := SortOrder(key, n - 1);
      SortOrderSorted(key, n - 1);
      InsertKeepsOrder(o, n - 1, key);
      assert SortOrder(key, n) == InsertDesc(o, n - 1, key);
    }
  }

  /** `X[order]`, `Y[order]`, `L[order]`, `S[order]`. */
  function Reorder(cs: seq<Candidate>, o: seq<nat>): (r: seq<Candidate>)
    requires forall k :: 0 <= k < |o| ==> o[k] < |cs|
    ensures |r| == |o| && forall k :: 0 <= k < |o| ==> r[k] == cs[o[k]]
  {
    seq(|o|, k requires 0 <= k < |o| => cs[o[k]])
  }

  /** The candidates in the order they are parsed. */
  function Ordered(cs: seq<Candidate>): (r: seq<Candidate>)
    ensures |r| == |cs|
  {
    Reorder(cs, SortOrder(Keys(cs), |cs|))
  }

  /** Every position appears in a permutation of `0 .. n - 1`. */
  lemma PositionTaken(o: seq<nat>, n: nat, j: int) returns (k: int)
    requires multiset(o) == multiset(Range(n)) && 0 <= j < n
    ensures 0 <= k < |o| && o[k] == j
  {
    assert Range(n)[j] == j;
    assert j in multiset(o);
    k :| 0 <= k < |o| && o[k] == j;
  }

  /** The parse order takes every candidate exactly once: `order` is a
      permutation of the positions. */
  lemma OrderedPermutes(cs: seq<Candidate>)
    ensures var o := SortOrder(Keys(cs), |cs|);
            multiset(o) == multiset(Range(|cs|)) && forall k :: 0 <= k < |cs| ==> Ordered(cs)[k] == cs[o[k]]
    ensures forall c :: c in Ordered(cs) <==> c in cs
  {
    var o := SortOrder(Keys(cs), |cs|);
    SortOrderPermutes(Keys(cs), |cs|);
    forall c | c in cs ensures c in Ordered(cs) {
      var j :| 0 <= j < |cs| && cs[j] == c;
      var k := PositionTaken(o, |cs|, j);
      assert Ordered(cs)[k] == c;
    }
  }

  /** The parse order puts scores in non-increasing order and keeps equal
      scores in discovery order. */
  lemma OrderedSorted(cs: seq<Candidate>)
    requires Discovered(cs)
    ensures forall a, b :: 0 <= a < b < |cs| ==> Ordered(cs)[a].s >= Ordered(cs)[b].s
    ensures forall a, b :: 0 <= a < b < |cs| && Ordered(cs)[a].s == Ordered(cs)[b].s ==>
              Before(Ordered(cs)[a], Ordered(cs)[b])
  {
    var key := Keys(cs);
    var o := SortOrder(key, |cs|);
    var r := Ordered(cs);
    SortOrderSorted(key, |cs|);
    forall a, b | 0 <= a < b < |cs| ensures r[a].s >= r[b].s {
      assert key[o[a]] >= key[o[b]];
    }
    forall a, b | 0 <= a < b < |cs| && r[a].s == r[b].s ensures Before(r[a], r[b]) {
      assert key[o[a]] == key[o[b]];
      assert o[a] < o[b];
      assert Before(cs[o[a]], cs[o[b]]);
    }
  }

  // ---------------------------------------------------------------------
  // parsing the candidates
  // ---------------------------------------------------------------------

  /** A detection: the parsed tree with its score and loss (the pixel
      bounding box is not part of this model). */
  datatype TreeRoot = TreeRoot(s: Score, child: Node, loss: Option<int>)

  /** `self.start.Parse(x=x, y=y, l=l, s=s, ds=0, model=self)`. */
  function ParseAt(fs: FSymbol, env: Env, c: Candidate): Result<Node>
  {
    ParseSymbol(fs, c.x, c.y, c.l, 0, Fin(c.s), env)
  }

  /** The parse of every candidate, in order. */
  function ParseAll(fs: FSymbol, env: Env, cs: seq<Candidate>): (ps: seq<Result<Node>>)
    ensures |ps| == |cs| && forall i :: 0 <= i < |cs| ==> ps[i] == ParseAt(fs, env, cs[i])
  {
    seq(|cs|, i requires 0 <= i < |cs| => ParseAt(fs, env, cs[i]))
  }

  /** What the generator yields for the parses `ps`, in order, and the error
      that ends the iteration early, if any: a failed parse, or a leaf, which
      has no `rule` to read its window from. */
  function Emit(ps: seq<Result<Node>>): (r: (seq<TreeRoot>, Option<ParseError>))
    ensures |r.0| <= |ps| && (r.1.None? ==> |r.0| == |ps|) && (r.1.Some? ==> |r.0| < |ps|)
    decreases |ps|
  {
    if ps == [] then ([], None)
    else match ps[0]
      case Err(e) => ([], Some(e))
      case Ok(n) =>
        if n.Leaf? then ([], Some(AttributeError))
        else
          var rest := Emit(ps[1..]);
          ([TreeRoot(n.s, n, n.loss)] + rest.0, rest.1)
  }

  /** Detection `i` comes from parse `i`, a tree node, with its score and
      loss. */
  lemma {:induction false} EmitParsed(ps: seq<Result<Node>>)
    ensures var r := Emit(ps);
            forall i :: 0 <= i < |r.0| ==>
              ps[i] == Ok(r.0[i].child) && r.0[i].child.TreeNode? &&
              r.0[i].s == r.0[i].child.s && r.0[i].loss == r.0[i].child.loss
    decreases |ps|
  {
    if ps != [] && ps[0].Ok? && ps[0].value.TreeNode? {
      EmitParsed(ps[1..]);
      assert forall i :: 0 <= i < |ps| - 1 ==> ps[1..][i] == ps[i + 1];
    }
  }

  /** The iteration stops at the first parse that fails or is a leaf, with
      that error. */
  lemma {:induction false} EmitStops(ps: seq<Result<Node>>)
    ensures var r := Emit(ps);
            r.1.Some? ==>
              (ps[|r.0|].Err? && r.1 == Some(ps[|r.0|].error)) ||
              (ps[|r.0|].Ok? && ps[|r.0|].value.Leaf? && r.1 == Some(AttributeError))
    decreases |ps|
  {
    if ps != [] && ps[0].Ok? && ps[0].value.TreeNode? {
      EmitStops(ps[1..]);
      if Emit(ps).1.Some? {
        assert ps[1..][|Emit(ps[1..]).0|] == ps[|Emit(ps).0|];
      }
    }
  }

  /** With every parse a tree node, there is one detection per parse and no
      error. */
  lemma {:induction false} EmitAll(ps: seq<Result<Node>>)
    requires forall i :: 0 <= i < |ps| ==> ps[i].Ok? && ps[i].value.TreeNode?
    ensures Emit(ps).1.None? && |Emit(ps).0| == |ps|
    decreases |ps|
  {
    if ps != [] {
      EmitAll(ps[1..]);
    }
  }

  /** The detections of `FilteredModel.Parse` for the candidates `cs`. */
  function Detections(fs: FSymbol, env: Env, cs: seq<Candidate>): (seq<TreeRoot>, Option<ParseError>)
  {
    Emit(ParseAll(fs, env, cs))
  }

  /** `FilteredModel.Parse`: gather, sort, and parse every candidate from
      the highest score down, with `ds = 0`. */
  method ParseModel(fs: FSymbol, env: Env, threshold: int) returns (roots: seq<TreeRoot>, err: Option<ParseError>)
    ensures (roots, err) == Detections(fs, env, Ordered(Cands(fs.score, threshold)))
  {
    var cands := Gather(fs.score, threshold);
    var order := SortOrder(Keys(cands), |cands|);
    var sorted := Reorder(cands, order);
    var parse := c => ParseAt(fs, env, c);
    roots, err := ParseEach(parse, sorted);
    assert MapParse(parse, sorted) == ParseAll(fs, env, sorted);
  }

  /** `parse` applied to every candidate, in order. */
  function MapParse(parse: Candidate -> Result<Node>, cs: seq<Candidate>): (ps: seq<Result<Node>>)
    ensures |ps| == |cs| && forall i :: 0 <= i < |cs| ==> ps[i] == parse(cs[i])
  {
    seq(|cs|, i requires 0 <= i < |cs| => parse(cs[i]))
  }

  /** The loop of `FilteredModel.Parse` over the sorted candidates, with
      `parse` the start symbol's parse at `ds = 0`; `err` is the exception
      that ends it early. */
  method ParseEach(parse: Candidate -> Result<Node>, cs: seq<Candidate>) returns (roots: seq<TreeRoot>, err: Option<ParseError>)
    ensures roots == Emit(MapParse(parse, cs)).0 && err == Emit(MapParse(parse, cs)).1
  {
    ghost var ps := MapParse(parse, cs);
    roots, err := [], None;
    var i := 0;
    assert ps[i..] == ps;
    while i < |cs| && err.None?
      invariant 0 <= i <= |cs|
      invariant err.None? ==> Emit(ps).0 == roots + Emit(ps[i..]).0 && Emit(ps).1 == Emit(ps[i..]).1
      invariant err.Some? ==> Emit(ps).0 == roots && Emit(ps).1 == err
      decreases |cs| - i, if err.None? then 1 else 0
    {
      var parsed := parse(cs[i]);
      EmitFrom(ps, i);
      if parsed.Err? {
        err := Some(parsed.error);
      } else if parsed.value.Leaf? {
        err := Some(AttributeError);
      } else {
        ghost var rest := Emit(ps[i + 1..]);
        var root := TreeRoot(parsed.value.s, parsed.value, parsed.value.loss);
        AppendAssoc(roots, [root], rest.0);
        roots := roots + [root];
        i := i + 1;
      }
    }
    if err.None? {
      assert ps[i..] == [];
    }
  }

  lemma AppendAssoc<T>(a: seq<T>, b: seq<T>, c: seq<T>)
    ensures a + (b + c) == (a + b) + c
  {
  }

  /** Emitting from position `i` on: the parse there and the emissions after it. */
  lemma EmitFrom(ps: seq<Result<Node>>, i: nat)
    requires i < |ps|
    ensures Emit(ps[i..]) == match ps[i]
      case Err(e) => ([], Some(e))
      case Ok(n) =>
        if n.Leaf? then ([], Some(AttributeError))
        else ([TreeRoot(n.s, n, n.loss)] + Emit(ps[i + 1..]).0, Emit(ps[i + 1..]).1)
  {
    assert ps[i..][0] == ps[i];
    assert ps[i..][1..] == ps[i + 1..];
  }

  lemma NoPadding(p: int, pad: int)
    ensures NonVirtual(p, pad, 0) == p
  {
    assert Pow2(0) == 1;
  }

  /** Every candidate is a finite cell of the start symbol inside its array,
      and parsing it at `ds = 0` reads that cell. */
  lemma CandidateCell(fs: FSymbol, env: Env, t: int, c: Candidate)
    requires Shaped(fs.score, env.size) && c in Cands(fs.score, t)
    ensures FiniteAt(fs.score, env.size, c.l, NonVirtual(c.y, env.pyramid.pady, 0), NonVirtual(c.x, env.pyramid.padx, 0))
    ensures fs.score[c.l][c.y][c.x] == Fin(c.s)
  {
    CandsMember(fs.score, t, c);
    NoPadding(c.y, env.pyramid.pady);
    NoPadding(c.x, env.pyramid.padx);
  }

  /** `FilteredModel.Parse` on a non-terminal start symbol yields one
      detection per cell above the threshold and never fails, under no loss
      adjustment or one that keeps -inf cells -inf; without adjustment the
      detections' scores are the cells' and come in non-increasing order. */
  lemma DetectionsComplete(start: Symbol, env: Env, t: int)
    requires EnvValid(env) && FinitePreserving(env) && WellFormedSymbol(start) && start.NonTerminal?
    ensures var fs := FilterSymbol(start, env);
            var cs := Ordered(Cands(fs.score, t));
            var d := Detections(fs, env, cs);
            && d.1.None? && |d.0| == |cs|
            && (env.adjustment.None? ==> forall i :: 0 <= i < |cs| ==> d.0[i].s == Fin(cs[i].s))
            && (env.adjustment.None? ==> forall a, b :: 0 <= a < b < |cs| ==> Le(d.0[b].s, d.0[a].s))
  {
    var fs := FilterSymbol(start, env);
    var cands := Cands(fs.score, t);
    var cs := Ordered(cands);
    CandsDiscovered(fs.score, t);
    OrderedSorted(cands);
    var ps := ParseAll(fs, env, cs);
    AllParsed(start, env, t, ps);
    EmitComplete(ps, cs, env.adjustment.None?);
  }

  /** Parses that are all tree nodes yield one detection each, in order;
      when they carry the candidates' scores, the detections' scores are
      non-increasing as the candidates' are. */
  lemma EmitComplete(ps: seq<Result<Node>>, cs: seq<Candidate>, exact: bool)
    requires |ps| == |cs|
    requires forall i :: 0 <= i < |cs| ==> ps[i].Ok? && ps[i].value.TreeNode?
    requires exact ==> forall i :: 0 <= i < |cs| ==> ps[i].value.s == Fin(cs[i].s)
    requires forall a, b :: 0 <= a < b < |cs| ==> cs[a].s >= cs[b].s
    ensures Emit(ps).1.None? && |Emit(ps).0| == |cs|
    ensures exact ==> forall i :: 0 <= i < |cs| ==> Emit(ps).0[i].s == Fin(cs[i].s)
    ensures exact ==> forall a, b :: 0 <= a < b < |cs| ==> Le(Emit(ps).0[b].s, Emit(ps).0[a].s)
  {
    EmitAll(ps);
    EmitParsed(ps);
  }

  /** Every candidate of a well-formed start symbol parses to a tree node,
      carrying the candidate's score when there is no adjustment. */
  lemma AllParsed(start: Symbol, env: Env, t: int, ps: seq<Result<Node>>)
    requires EnvValid(env) && FinitePreserving(env) && WellFormedSymbol(start) && start.NonTerminal?
    requires var fs := FilterSymbol(start, env);
             ps == ParseAll(fs, env, Ordered(Cands(fs.score, t)))
    ensures var cs := Ordered(Cands(FilterSymbol(start, env).score, t));
            forall i :: 0 <= i < |cs| ==>
              && ps[i].Ok? && ps[i].value.TreeNode?
              && (env.adjustment.None? ==> ps[i].value.s == Fin(cs[i].s))
  {
    var fs := FilterSymbol(start, env);
    var cands := Cands(fs.score, t);
    var cs := Ordered(cands);
    OrderedPermutes(cands);
    forall i | 0 <= i < |cs| ensures ps[i].Ok? && ps[i].value.TreeNode? {
      assert cs[i] in cands;
      CandidateCell(fs, env, t, cs[i]);
      ParseSucceeds(start, env, cs[i].x, cs[i].y, cs[i].l, 0);
    }
  }
}

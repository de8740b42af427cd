/** The two walks of a tree ensemble: src/aether/ml/export.py. */
module Trees {
  import opened Prelude

  /** A feature value; NaN compares false with everything. */
  datatype Number = NaN | Num(r: real)

  type Row = seq<Number>

  /** Flat node columns, all trees end to end. `add` stands for floating-point addition. */
  datatype Ensemble = Ensemble(
    baseline: real, feature: seq<nat>, threshold: seq<real>, left: seq<nat>, right: seq<nat>, isLeaf: seq<bool>,
    value: seq<real>, missingLeft: seq<bool>, offsets: seq<nat>, add: (real, real) -> real)
  {
    function Trees(): nat {
      if offsets == [] then 0 else |offsets| - 1
    }

    predicate Columns() {
      && |threshold| == |feature| && |left| == |feature| && |right| == |feature|
      && |isLeaf| == |feature| && |value| == |feature| && |missingLeft| == |feature|
    }

    /** Tree `t` is `Lo(t)..Hi(t)` of every column. */
    function Lo(t: nat): nat requires t < Trees() { offsets[t] }

    function Hi(t: nat): nat requires t < Trees() { offsets[t + 1] }

    function Size(t: nat): int requires t < Trees() { Hi(t) - Lo(t) }

    /** A node whose children come after it in its own tree, and whose feature a row has. */
    predicate NodeOk(t: nat, width: nat, node: nat)
      requires Columns() && t < Trees() && node < Size(t) && Hi(t) <= |feature|
    {
      var k := Lo(t) + node;
      && feature[k] < width
      && (!isLeaf[k] ==> node < left[k] < Size(t) && node < right[k] < Size(t))
    }

    predicate TreeOk(t: nat, width: nat) {
      && Columns() && t < Trees() && Lo(t) < Hi(t) <= |feature|
      && forall node: nat :: node < Size(t) ==> NodeOk(t, width, node)
    }

    /** What the exporter writes. */
    predicate WellFormed(width: nat) {
      Columns() && forall t: nat :: t < Trees() ==> TreeOk(t, width)
    }
  }

  // ---- the reference walk ----------------------------------------------

  predicate GoesLeft(m: Ensemble, k: nat, row: Row)
    requires m.Columns() && k < |m.feature| && m.feature[k] < |row|
  {
    match row[m.feature[k]]
    case NaN => m.missingLeft[k]
    case Num(r) => r <= m.threshold[k]
  }

  /** The node after `node` of tree `t`, counted from the start of the tree. */
  function Child(m: Ensemble, t: nat, row: Row, node: nat): (r: nat)
    requires m.TreeOk(t, |row|) && node < m.Size(t) && !m.isLeaf[m.Lo(t) + node]
    ensures node < r < m.Size(t)
  {
    var k := m.Lo(t) + node;
    assert m.NodeOk(t, |row|, node);
    if GoesLeft(m, k, row) then m.left[k] else m.right[k]
  }

  /** The leaf a row reaches from `node`. */
  function Leaf(m: Ensemble, t: nat, row: Row, node: nat): (r: nat)
    requires m.TreeOk(t, |row|) && node < m.Size(t)
    ensures r < m.Size(t) && m.isLeaf[m.Lo(t) + r]
    decreases m.Size(t) - node
  {
    if m.isLeaf[m.Lo(t) + node] then node else Leaf(m, t, row, Child(m, t, row, node))
  }

  /** The baseline plus the leaf values of the first `n` trees, in tree order. */
  function Score(m: Ensemble, row: Row, n: nat): real
    requires m.WellFormed(|row|) && n <= m.Trees()
  {
    if n == 0 then m.baseline
    else
      assert m.TreeOk(n - 1, |row|);
      m.add(Score(m, row, n - 1), m.value[m.Lo(n - 1) + Leaf(m, n - 1, row, 0)])
  }

  /**
   A row may step from inner node `a` to `b`: a number at most the threshold goes left and a greater one
   right; a value that is not a number goes where the node sends missing ones.
   */
  predicate MayStep(m: Ensemble, t: nat, row: Row, a: nat, b: nat)
    requires m.TreeOk(t, |row|) && a < m.Size(t)
  {
    var k := m.Lo(t) + a;
    assert m.NodeOk(t, |row|, a);
    match row[m.feature[k]]
    case Num(x) => (x <= m.threshold[k] && b == m.left[k]) || (x > m.threshold[k] && b == m.right[k])
    case NaN => (m.missingLeft[k] && b == m.left[k]) || (!m.missingLeft[k] && b == m.right[k])
  }

  /** A root-to-leaf path of tree `t`, every step one the row may take. */
  ghost predicate Follows(m: Ensemble, t: nat, row: Row, path: seq<nat>)
    requires m.TreeOk(t, |row|)
  {
    && path != [] && path[0] == 0
    && (forall i :: 0 <= i < |path| ==> path[i] < m.Size(t))
    && (forall i :: 0 <= i < |path| - 1 ==> !m.isLeaf[m.Lo(t) + path[i]] && MayStep(m, t, row, path[i], path[i + 1]))
    && m.isLeaf[m.Lo(t) + path[|path| - 1]]
  }

  /** Every such path ends at the leaf the walks report, so there is only one such end. */
  lemma PathEndsAtLeaf(m: Ensemble, t: nat, row: Row, path: seq<nat>)
    requires m.TreeOk(t, |row|) && Follows(m, t, row, path)
    ensures path[|path| - 1] == Leaf(m, t, row, 0)
  {
    PathSuffix(m, t, row, path, 0);
  }

  lemma StepIsChild(m: Ensemble, t: nat, row: Row, a: nat, b: nat)
    requires m.TreeOk(t, |row|) && a < m.Size(t) && !m.isLeaf[m.Lo(t) + a]
    ensures MayStep(m, t, row, a, b) <==> b == Child(m, t, row, a)
  {
  }

  lemma {:induction false} PathSuffix(m: Ensemble, t: nat, row: Row, path: seq<nat>, i: nat)
    requires m.TreeOk(t, |row|) && Follows(m, t, row, path) && i < |path|
    ensures path[|path| - 1] == Leaf(m, t, row, path[i])
    decreases |path| - i
  {
    hide MayStep, Child;
    if i < |path| - 1 {
      StepIsChild(m, t, row, path[i], path[i + 1]);
      PathSuffix(m, t, row, path, i + 1);
    }
  }

  /** Every row has a path in every tree. */
  lemma {:induction false} PathFrom(m: Ensemble, t: nat, row: Row, node: nat) returns (path: seq<nat>)
    requires m.TreeOk(t, |row|) && node < m.Size(t)
    ensures path != [] && path[0] == node
    ensures forall i :: 0 <= i < |path| ==> path[i] < m.Size(t)
    ensures forall i :: 0 <= i < |path| - 1 ==>
      !m.isLeaf[m.Lo(t) + path[i]] && MayStep(m, t, row, path[i], path[i + 1])
    ensures m.isLeaf[m.Lo(t) + path[|path| - 1]]
    decreases m.Size(t) - node
  {
    hide MayStep;
    if m.isLeaf[m.Lo(t) + node] {
      path := [node];
    } else {
      var next := Child(m, t, row, node);
      StepIsChild(m, t, row, node, next);
      var rest := PathFrom(m, t, row, next);
      path := [node] + rest;
    }
  }

  /** The baseline, and then each of `values` added in order. */
  function AddAll(m: Ensemble, values: seq<real>): real {
    if values == [] then m.baseline else m.add(AddAll(m, values[..|values| - 1]), values[|values| - 1])
  }

  /** The path ends at a leaf of tree `t` with value `v`. */
  ghost predicate Yields(m: Ensemble, t: nat, row: Row, path: seq<nat>, v: real) {
    m.TreeOk(t, |row|) && Follows(m, t, row, path) && v == m.value[m.Lo(t) + path[|path| - 1]]
  }

  /** The score of a row is the baseline and the values its paths end at, tree after tree. */
  lemma {:induction false} ScoreOfPaths(m: Ensemble, row: Row, paths: seq<seq<nat>>, values: seq<real>)
    requires m.WellFormed(|row|) && |paths| == |values| <= m.Trees()
    requires forall t: nat :: t < |paths| ==> Yields(m, t, row, paths[t], values[t])
    ensures Score(m, row, |paths|) == AddAll(m, values)
    decreases |paths|
  {
    hide Follows, Leaf;
    if paths != [] {
      var n := |paths| - 1;
      ScoreOfPaths(m, row, paths[..n], values[..n]);
      assert Yields(m, n, row, paths[n], values[n]);
      PathEndsAtLeaf(m, n, row, paths[n]);
    }
  }

  // ---- one row ---------------------------------------------------------

  method RawOne(m: Ensemble, row: Row) returns (total: real)
    requires m.WellFormed(|row|)
    ensures total == Score(m, row, m.Trees())
  {
    total := m.baseline;
    for t := 0 to m.Trees()
      invariant total == Score(m, row, t)
    {
      assert m.TreeOk(t, |row|);
      var leaf := WalkOne(m, t, row);
      total := m.add(total, m.value[leaf]);
    }
  }

  /** The scalar walk, by absolute node index. */
  method WalkOne(m: Ensemble, t: nat, row: Row) returns (node: nat)
    requires m.TreeOk(t, |row|)
    ensures node == m.Lo(t) + Leaf(m, t, row, 0)
  {
    var base := m.Lo(t);
    node := base;
    while !m.isLeaf[node]
      invariant base <= node < m.Hi(t)
      invariant Leaf(m, t, row, node - base) == Leaf(m, t, row, 0)
      decreases m.Hi(t) - node
    {
      assert m.NodeOk(t, |row|, node - base);
      var seen := row[m.feature[node]];
      var goLeft := if seen.NaN? then m.missingLeft[node] else seen.r <= m.threshold[node];
      node := base + if goLeft then m.left[node] else m.right[node];
    }
  }

  // ---- all rows together -----------------------------------------------

  predicate Rectangular(X: seq<Row>, width: nat) {
    forall i :: 0 <= i < |X| ==> |X[i]| == width
  }

  method Raw(m: Ensemble, X: seq<Row>, width: nat) returns (raw: array<real>)
    requires m.WellFormed(width) && Rectangular(X, width)
    ensures fresh(raw) && raw.Length == |X|
    ensures forall i :: 0 <= i < |X| ==> raw[i] == Score(m, X[i], m.Trees())
  {
    hide Score;
    if |X| == 1 {
      var one := RawOne(m, X[0]);
      raw := new real[1](_ => one);
      return;
    }
    raw := new real[|X|](_ => m.baseline);
    Baseline(m, X, width);
    for t := 0 to m.Trees()
      invariant forall i :: 0 <= i < |X| ==> raw[i] == Score(m, X[i], t)
    {
      assert m.TreeOk(t, width);
      var node := WalkAll(m, t, X, width);
      AddLeaves(m, t, X, width, raw, node);
    }
  }

  lemma Baseline(m: Ensemble, X: seq<Row>, width: nat)
    requires m.WellFormed(width) && Rectangular(X, width)
    ensures forall i :: 0 <= i < |X| ==> Score(m, X[i], 0) == m.baseline
  {
  }

  /** Every row has walked to its leaf. */
  ghost predicate AtLeaves(m: Ensemble, t: nat, X: seq<Row>, width: nat, node: array<nat>)
    requires m.TreeOk(t, width) && Rectangular(X, width)
    reads node
  {
    node.Length == |X| && forall i :: 0 <= i < |X| ==> node[i] == Leaf(m, t, X[i], 0)
  }

  /** `raw += value[lo:hi][node]`. */
  method AddLeaves(m: Ensemble, t: nat, X: seq<Row>, width: nat, raw: array<real>, node: array<nat>)
    requires m.WellFormed(width) && m.TreeOk(t, width) && Rectangular(X, width)
    requires raw.Length == |X| && AtLeaves(m, t, X, width, node)
    requires forall i :: 0 <= i < |X| ==> raw[i] == Score(m, X[i], t)
    modifies raw
    ensures forall i :: 0 <= i < |X| ==> raw[i] == Score(m, X[i], t + 1)
  {
    for r := 0 to |X|
      invariant forall i :: 0 <= i < r ==> raw[i] == Score(m, X[i], t + 1)
      invariant forall i :: r <= i < |X| ==> raw[i] == Score(m, X[i], t)
    {
      raw[r] := m.add(raw[r], m.value[m.Lo(t) + node[r]]);
    }
  }

  ghost predicate InBounds(m: Ensemble, t: nat, X: seq<Row>, node: array<nat>)
    requires t < m.Trees()
    reads node
  {
    node.Length == |X| && forall i :: 0 <= i < |X| ==> node[i] < m.Size(t)
  }

  /** Every row walks together, one level at a time; rows at a leaf stay. */
  method WalkAll(m: Ensemble, t: nat, X: seq<Row>, width: nat) returns (node: array<nat>)
    requires m.TreeOk(t, width) && Rectangular(X, width)
    ensures fresh(node) && AtLeaves(m, t, X, width, node)
  {
    hide Leaf, Child;
    node := new nat[|X|](_ => 0);
    ghost var level := 0;
    while true
      invariant fresh(node) && InBounds(m, t, X, node)
      invariant forall i :: 0 <= i < |X| ==> Leaf(m, t, X[i], node[i]) == Leaf(m, t, X[i], 0)
      invariant forall i :: 0 <= i < |X| ==> m.isLeaf[m.Lo(t) + node[i]] || node[i] >= level
      decreases m.Size(t) - level
    {
      var atLeaf, all := LeafMask(m, t, X, width, node);
      if all {
        forall i | 0 <= i < |X|
          ensures node[i] == Leaf(m, t, X[i], 0)
        {
          LeafOfLeaf(m, t, X[i], node[i]);
        }
        return;
      }
      node := OneLevel(m, t, X, width, node, atLeaf);
      level := level + 1;
    }
  }

  /** `is_leaf[node]`, and whether it holds everywhere. */
  method LeafMask(m: Ensemble, t: nat, X: seq<Row>, width: nat, node: array<nat>) returns (atLeaf: seq<bool>, all: bool)
    requires m.TreeOk(t, width) && InBounds(m, t, X, node)
    ensures |atLeaf| == |X| && forall i :: 0 <= i < |X| ==> atLeaf[i] == m.isLeaf[m.Lo(t) + node[i]]
    ensures all <==> forall i :: 0 <= i < |X| ==> atLeaf[i]
  {
    atLeaf, all := [], true;
    for r := 0 to |X|
      invariant |atLeaf| == r && forall i :: 0 <= i < r ==> atLeaf[i] == m.isLeaf[m.Lo(t) + node[i]]
      invariant all <==> forall i :: 0 <= i < r ==> atLeaf[i]
    {
      var leaf := m.isLeaf[m.Lo(t) + node[r]];
      atLeaf, all := atLeaf + [leaf], all && leaf;
    }
  }

  lemma LeafOfLeaf(m: Ensemble, t: nat, row: Row, node: nat)
    requires m.TreeOk(t, |row|) && node < m.Size(t) && m.isLeaf[m.Lo(t) + node]
    ensures Leaf(m, t, row, node) == node
  {
  }

  /** One iteration: where each row goes next. */
  method OneLevel(m: Ensemble, t: nat, X: seq<Row>, width: nat, node: array<nat>, atLeaf: seq<bool>)
    returns (next: array<nat>)
    requires m.TreeOk(t, width) && Rectangular(X, width)
    requires InBounds(m, t, X, node) && |atLeaf| == |X|
    requires forall i :: 0 <= i < |X| ==> atLeaf[i] == m.isLeaf[m.Lo(t) + node[i]]
    ensures fresh(next) && InBounds(m, t, X, next)
    ensures forall i :: 0 <= i < |X| ==> Leaf(m, t, X[i], next[i]) == Leaf(m, t, X[i], node[i])
    ensures forall i :: 0 <= i < |X| ==> if atLeaf[i] then next[i] == node[i] else next[i] > node[i]
  {
    hide Leaf;
    next := new nat[|X|];
    for r := 0 to |X|
      invariant forall i :: 0 <= i < r ==> next[i] < m.Size(t)
      invariant forall i :: 0 <= i < r ==> Leaf(m, t, X[i], next[i]) == Leaf(m, t, X[i], node[i])
      invariant forall i :: 0 <= i < r ==> if atLeaf[i] then next[i] == node[i] else next[i] > node[i]
    {
      var k := m.Lo(t) + node[r];
      assert m.NodeOk(t, width, node[r]);
      var x := X[r][m.feature[k]];
      var goLeft := if x.NaN? then m.missingLeft[k] else x.r <= m.threshold[k];
      next[r] := if atLeaf[r] then node[r] else if goLeft then m.left[k] else m.right[k];
      NextLeaf(m, t, X[r], node[r]);
    }
  }

  lemma NextLeaf(m: Ensemble, t: nat, row: Row, node: nat)
    requires m.TreeOk(t, |row|) && node < m.Size(t)
    ensures !m.isLeaf[m.Lo(t) + node] ==> Leaf(m, t, row, Child(m, t, row, node)) == Leaf(m, t, row, node)
  {
  }
}

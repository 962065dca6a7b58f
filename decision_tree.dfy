/**
 * `AbstractDecisionTree`: the root initialisation done by `fit`, prediction by walking the tree,
 * `predict`, `predict_train` and the DOT rendering `str_dot`.
 */
module Tree {
  import opened Common
  import opened Text
  import opened Impurity
  import opened Nodes

  // ---------------------------------------------------------------- round(sum / len)

  function Abs(i: int): nat {
    if i < 0 then -i else i
  }

  /**
   * Python's `round(s / n)`: the integer nearest to `s / n`, ties going to the even neighbour.
   * `s / n = q + m / n` with `q` the floor and `0 <= m < n`.
   */
  function RoundHalfEven(s: int, n: int): (k: int)
    requires n > 0
    ensures 2 * Abs(s - k * n) <= n
    ensures 2 * Abs(s - k * n) == n ==> k % 2 == 0
  {
    var q, m := s / n, s % n;
    assert s - q * n == m && s - (q + 1) * n == m - n;
    if 2 * m < n then q
    else if 2 * m > n then q + 1
    else if q % 2 == 0 then q
    else q + 1
  }

  /** Two integers `d` apart have errors `d * n` apart, so at most one of them meets the contract. */
  lemma RoundErrorsApart(s: int, n: int, lo: int, hi: int)
    requires n > 0 && lo < hi
    requires 2 * Abs(s - lo * n) <= n && 2 * Abs(s - hi * n) <= n
    ensures 2 * Abs(s - lo * n) == n && 2 * Abs(s - hi * n) == n && hi == lo + 1
  {
    var d := hi - lo;
    var t := d * n;
    assert t == (d - 1) * n + n && (d - 1) * n >= 0;
    if d >= 2 {
      assert t == (d - 2) * n + 2 * n && (d - 2) * n >= 0;
    }
    var dLo, dHi := s - lo * n, s - hi * n;
    assert dLo == dHi + t;
  }

  /** The two conditions of `RoundHalfEven`'s contract single out one integer. */
  lemma RoundHalfEvenUnique(s: int, n: int, k: int)
    requires n > 0
    requires 2 * Abs(s - k * n) <= n
    requires 2 * Abs(s - k * n) == n ==> k % 2 == 0
    ensures k == RoundHalfEven(s, n)
  {
    var r := RoundHalfEven(s, n);
    if k < r {
      RoundErrorsApart(s, n, k, r);
    } else if k > r {
      RoundErrorsApart(s, n, r, k);
    }
  }

  /** `sum(df_y)`. */
  function LabelSum(y: seq<int>): int {
    if y == [] then 0 else y[0] + LabelSum(y[1..])
  }

  lemma {:induction false} BinaryLabelSum(y: seq<int>)
    requires IsBinary(y)
    ensures LabelSum(y) == Count(y, 1)
  {
    if y != [] {
      BinaryLabelSum(y[1..]);
    }
  }

  /**
   * For 0/1 labels the root's value is the majority label: 1 exactly when the ones are more
   * than half; an exact tie goes to 0, the even neighbour.
   */
  lemma MajorityLabel(y: seq<int>)
    requires y != [] && IsBinary(y)
    ensures RoundHalfEven(LabelSum(y), |y|) == (if 2 * Count(y, 1) > |y| then 1 else 0)
  {
    BinaryLabelSum(y);
    var ones, n := Count(y, 1), |y|;
    CountAll(y, 1);
    var k := if 2 * ones > n then 1 else 0;
    if k == 1 {
      assert 2 * Abs(ones - n) <= n;
      assert 2 * Abs(ones - n) != n;
    } else {
      assert 2 * Abs(ones) <= n;
    }
    RoundHalfEvenUnique(ones, n, k);
  }

  // ---------------------------------------------------------------- __predict_rec

  /**
   * `__predict_rec`: a leaf answers its value; an internal node calls its condition on the record
   * and descends into `children[branch]`. A missing condition is not callable, a missing feature
   * raises, and a branch past the end of `children` raises.
   */
  function PredictRec(x: Record, n: Node): (r: Result<int>)
    ensures IsLeaf(n) ==> r == Success(n.value)
    ensures !IsLeaf(n) && n.condition.None? ==> r == Failure(NotCallable)
    ensures !IsLeaf(n) && n.condition.Some? && EvalCondition(n.condition.value, x).Failure? ==>
      r == Failure(EvalCondition(n.condition.value, x).error)
    ensures (&& !IsLeaf(n) && n.condition.Some? && EvalCondition(n.condition.value, x).Success?
             && EvalCondition(n.condition.value, x).value >= |n.children|) ==> r == Failure(IndexOutOfRange)
    ensures r.Success? ==> IsLeafValue(n, r.value)
    decreases n
  {
    if IsLeaf(n) then Success(n.value)
    else if n.condition.None? then Failure(NotCallable)
    else
      var branch := EvalCondition(n.condition.value, x);
      if branch.Failure? then Failure(branch.error)
      else if branch.value >= |n.children| then Failure(IndexOutOfRange)
      else PredictRec(x, n.children[branch.value])
  }

  /**
   * A comparison that holds sends the record to `children[1]` (`children[True]`), one that fails to
   * `children[0]`; the constant-0 stub always to `children[0]`.
   */
  lemma PredictRoutes(x: Record, n: Node)
    requires |n.children| >= 1 && n.condition.Some?
    requires n.condition.value.ConstantZero? || n.condition.value.feature in x
    ensures n.condition.value.Equals? && x[n.condition.value.feature] != n.condition.value.value ==>
      PredictRec(x, n) == PredictRec(x, n.children[0])
    ensures n.condition.value.Equals? && x[n.condition.value.feature] == n.condition.value.value ==>
      PredictRec(x, n) == if |n.children| >= 2 then PredictRec(x, n.children[1]) else Failure(IndexOutOfRange)
    ensures n.condition.value.AtMost? && !(x[n.condition.value.feature] <= n.condition.value.value) ==>
      PredictRec(x, n) == PredictRec(x, n.children[0])
    ensures n.condition.value.AtMost? && x[n.condition.value.feature] <= n.condition.value.value ==>
      PredictRec(x, n) == if |n.children| >= 2 then PredictRec(x, n.children[1]) else Failure(IndexOutOfRange)
    ensures n.condition.value.ConstantZero? ==> PredictRec(x, n) == PredictRec(x, n.children[0])
  {
  }

  /**
   * A record can be routed through `n`: every internal node on its own path has a condition, the
   * feature it tests, and the child its answer selects.
   */
  ghost predicate Routable(x: Record, n: Node)
    decreases n
  {
    IsLeaf(n) ||
    (&& n.condition.Some?
     && (n.condition.value.ConstantZero? || n.condition.value.feature in x)
     && EvalCondition(n.condition.value, x).value < |n.children|
     && Routable(x, n.children[EvalCondition(n.condition.value, x).value]))
  }

  /**
   * The walk succeeds exactly on a record routable along its own path, and then answers the value
   * of a leaf.
   */
  lemma {:induction false} PredictSucceeds(x: Record, n: Node)
    ensures PredictRec(x, n).Success? <==> Routable(x, n)
    ensures Routable(x, n) ==> IsLeafValue(n, PredictRec(x, n).value)
    decreases n
  {
    if !IsLeaf(n) && n.condition.Some? {
      var b := EvalCondition(n.condition.value, x);
      if b.Success? && b.value < |n.children| {
        PredictSucceeds(x, n.children[b.value]);
      }
    }
  }

  // ---------------------------------------------------------------- DOT rendering

  /** One line of the DOT text: a node with its label, or an edge from a parent to a child. */
  datatype DotLine = NodeLine(id: string, text: string) | EdgeLine(source: string, target: string)

  const DotHeader: string := "digraph DecisionTree {\n\trankdir=TD;\n\tnode [shape=box];\n"
  const DotFooter: string := "}\n"

  /** The node statement for the node with id `id` and label `text`. */
  function NodeStatement(id: string, text: string): string {
    "\t" + id + " [label=\"" + text + "\"];\n"
  }

  function RenderLine(l: DotLine): string {
    match l
    case NodeLine(id, text) => NodeStatement(id, text)
    case EdgeLine(source, target) => "\t" + source + " -> " + target + ";\n"
  }

  function Render(ls: seq<DotLine>): string {
    if ls == [] then "" else RenderLine(ls[0]) + Render(ls[1..])
  }

  lemma {:induction false} RenderConcat(a: seq<DotLine>, b: seq<DotLine>)
    ensures Render(a + b) == Render(a) + Render(b)
  {
    if a != [] {
      assert (a + b)[0] == a[0] && (a + b)[1..] == a[1..] + b;
      RenderConcat(a[1..], b);
    } else {
      assert a + b == b;
    }
  }

  /** The edge line from the parent's id, which only a node with a parent gets (`if parent_id:`). */
  function ParentEdge(parent: string, id: string): seq<DotLine> {
    if parent != "" then [EdgeLine(parent, id)] else []
  }

  /**
   * `traverse(node, parent_id)`: the node's line labelled with its own `str_dot`, the edge from its
   * parent, then the lines of each child in order. The node at position `path` (the branch indices
   * from the root) has id `ident(path)`.
   */
  function DotLines(n: Node, path: seq<nat>, parent: string, ident: seq<nat> -> string, caption: Node -> string): seq<DotLine>
    decreases n, 1
  {
    [NodeLine(ident(path), caption(n))] + ParentEdge(parent, ident(path)) + ChildLines(n, path, |n.children|, ident, caption)
  }

  /** The lines of the first `k` children of the node at `path`. */
  function ChildLines(n: Node, path: seq<nat>, k: nat, ident: seq<nat> -> string, caption: Node -> string): seq<DotLine>
    requires k <= |n.children|
    decreases n, 0, k
  {
    if k == 0 then []
    else ChildLines(n, path, k - 1, ident, caption) + DotLines(n.children[k - 1], path + [k - 1], ident(path), ident, caption)
  }

  /** The node's own line and the edge from its parent, as `traverse` renders them first. */
  function HeadText(text: string, id: string, parent: string): string {
    NodeStatement(id, text) + (if parent != "" then RenderLine(EdgeLine(parent, id)) else "")
  }

  /** `traverse`'s answer taken apart: the node's line, the edge from its parent, the children's lines. */
  lemma RenderDotLines(n: Node, path: seq<nat>, parent: string, ident: seq<nat> -> string, caption: Node -> string)
    ensures Render(DotLines(n, path, parent, ident, caption))
         == HeadText(caption(n), ident(path), parent) + Render(ChildLines(n, path, |n.children|, ident, caption))
  {
    var line := [NodeLine(ident(path), caption(n))];
    var edge := ParentEdge(parent, ident(path));
    RenderConcat(line + edge, ChildLines(n, path, |n.children|, ident, caption));
    RenderConcat(line, edge);
    assert Render(line) == RenderLine(line[0]) by {
      assert line[1..] == [];
    }
    if parent != "" {
      assert edge[1..] == [];
    }
  }

  /** One more child rendered. */
  lemma RenderChildLinesStep(n: Node, path: seq<nat>, k: nat, ident: seq<nat> -> string, caption: Node -> string)
    requires 0 < k <= |n.children|
    ensures Render(ChildLines(n, path, k - 1, ident, caption)) + Render(DotLines(n.children[k - 1], path + [k - 1], ident(path), ident, caption))
         == Render(ChildLines(n, path, k, ident, caption))
  {
    RenderConcat(ChildLines(n, path, k - 1, ident, caption), DotLines(n.children[k - 1], path + [k - 1], ident(path), ident, caption));
  }

  /** The text `traverse` returns for the node at `path`: its own statements, then each child's text in order. */
  function DotText(n: Node, path: seq<nat>, parent: string, ident: seq<nat> -> string, caption: Node -> string): string
    decreases n, 1
  {
    HeadText(caption(n), ident(path), parent) + ChildrenText(n, path, |n.children|, ident, caption)
  }

  /** The texts of the first `k` children of the node at `path`, concatenated. */
  function ChildrenText(n: Node, path: seq<nat>, k: nat, ident: seq<nat> -> string, caption: Node -> string): string
    requires k <= |n.children|
    decreases n, 0, k
  {
    if k == 0 then ""
    else ChildrenText(n, path, k - 1, ident, caption) + DotText(n.children[k - 1], path + [k - 1], ident(path), ident, caption)
  }

  /** The text is the rendering of the DOT lines, one statement per line. */
  lemma {:induction false} DotTextLines(n: Node, path: seq<nat>, parent: string, ident: seq<nat> -> string, caption: Node -> string)
    ensures DotText(n, path, parent, ident, caption) == Render(DotLines(n, path, parent, ident, caption))
    decreases n, 1
  {
    RenderDotLines(n, path, parent, ident, caption);
    ChildrenTextLines(n, path, |n.children|, ident, caption);
  }

  lemma {:induction false} ChildrenTextLines(n: Node, path: seq<nat>, k: nat, ident: seq<nat> -> string, caption: Node -> string)
    requires k <= |n.children|
    ensures ChildrenText(n, path, k, ident, caption) == Render(ChildLines(n, path, k, ident, caption))
    decreases n, 0, k
  {
    if k > 0 {
      var child, childPath := n.children[k - 1], path + [k - 1];
      calc {
        ChildrenText(n, path, k, ident, caption);
        ChildrenText(n, path, k - 1, ident, caption) + DotText(child, childPath, ident(path), ident, caption);
        { ChildrenTextLines(n, path, k - 1, ident, caption);
          DotTextLines(child, childPath, ident(path), ident, caption); }
        Render(ChildLines(n, path, k - 1, ident, caption)) + Render(DotLines(child, childPath, ident(path), ident, caption));
        { RenderChildLinesStep(n, path, k, ident, caption); }
        Render(ChildLines(n, path, k, ident, caption));
      }
    }
  }

  /** `caption` is `str_dot`: every node is labelled with its own text. */
  ghost predicate IsStrDot(caption: Node -> string) {
    forall m {:trigger NodeText(m)} :: caption(m) == NodeText(m)
  }

  /** The nested `traverse`: the node's line, the edge from its parent, then its children's texts. */
  method Traverse(n: Node, path: seq<nat>, parent: string, ident: seq<nat> -> string, ghost caption: Node -> string)
    returns (s: string)
    requires IsStrDot(caption)
    ensures s == DotText(n, path, parent, ident, caption)
    decreases n, 1
  {
    var id := ident(path);
    var text := Nodes.StrDot(n);
    s := NodeStatement(id, text);
    if parent != "" {
      s := s + RenderLine(EdgeLine(parent, id));
    }
    assert s == HeadText(caption(n), id, parent);
    if IsLeaf(n) {
      assert ChildrenText(n, path, 0, ident, caption) == "";
      return;
    }
    var rest := TraverseChildren(n, path, ident, caption);
    s := s + rest;
  }

  /** The loop of `traverse` over the children, appending each child's text in order. */
  method TraverseChildren(n: Node, path: seq<nat>, ident: seq<nat> -> string, ghost caption: Node -> string) returns (s: string)
    requires IsStrDot(caption)
    ensures s == ChildrenText(n, path, |n.children|, ident, caption)
    decreases n, 0
  {
    s := "";
    for i := 0 to |n.children|
      invariant s == ChildrenText(n, path, i, ident, caption)
    {
      var child := Traverse(n.children[i], path + [i], ident(path), ident, caption);
      s := s + child;
    }
  }

  /** The ids of the node lines, in order. */
  function NodeIds(ls: seq<DotLine>): seq<string> {
    if ls == [] then [] else (if ls[0].NodeLine? then [ls[0].id] else []) + NodeIds(ls[1..])
  }

  /** The number of edge lines. */
  function EdgeCount(ls: seq<DotLine>): nat {
    if ls == [] then 0 else (if ls[0].EdgeLine? then 1 else 0) + EdgeCount(ls[1..])
  }

  lemma {:induction false} LineCountsConcat(a: seq<DotLine>, b: seq<DotLine>)
    ensures NodeIds(a + b) == NodeIds(a) + NodeIds(b)
    ensures EdgeCount(a + b) == EdgeCount(a) + EdgeCount(b)
  {
    if a != [] {
      assert (a + b)[0] == a[0] && (a + b)[1..] == a[1..] + b;
      LineCountsConcat(a[1..], b);
    } else {
      assert a + b == b;
    }
  }

  /** The positions of the nodes below `path`, in pre-order. */
  function Paths(n: Node, path: seq<nat>): seq<seq<nat>>
    decreases n, 1
  {
    [path] + ChildPaths(n, path, |n.children|)
  }

  function ChildPaths(n: Node, path: seq<nat>, k: nat): seq<seq<nat>>
    requires k <= |n.children|
    decreases n, 0, k
  {
    if k == 0 then [] else ChildPaths(n, path, k - 1) + Paths(n.children[k - 1], path + [k - 1])
  }

  function MapIds(ident: seq<nat> -> string, ps: seq<seq<nat>>): seq<string> {
    if ps == [] then [] else [ident(ps[0])] + MapIds(ident, ps[1..])
  }

  lemma {:induction false} MapIdsConcat(ident: seq<nat> -> string, a: seq<seq<nat>>, b: seq<seq<nat>>)
    ensures MapIds(ident, a + b) == MapIds(ident, a) + MapIds(ident, b)
  {
    if a != [] {
      assert (a + b)[0] == a[0] && (a + b)[1..] == a[1..] + b;
      MapIdsConcat(ident, a[1..], b);
    } else {
      assert a + b == b;
    }
  }

  lemma {:induction false} MapIdsIndex(ident: seq<nat> -> string, ps: seq<seq<nat>>, i: nat)
    requires i < |ps|
    ensures |MapIds(ident, ps)| == |ps|
    ensures MapIds(ident, ps)[i] == ident(ps[i])
  {
    if i > 0 {
      MapIdsIndex(ident, ps[1..], i - 1);
    } else if |ps| > 1 {
      MapIdsIndex(ident, ps[1..], 0);
    } else {
      assert ps[1..] == [];
    }
  }

  /** The node's own line followed by the edge from its parent. */
  lemma HeadCounts(line: DotLine, edge: seq<DotLine>)
    requires line.NodeLine? && (edge == [] || (|edge| == 1 && edge[0].EdgeLine?))
    ensures NodeIds([line] + edge) == [line.id]
    ensures EdgeCount([line] + edge) == |edge|
  {
    LineCountsConcat([line], edge);
    assert [line][1..] == [];
    if edge != [] {
      assert edge[1..] == [];
    }
  }

  /** The first line is the node's own, then the edge from its parent. */
  lemma DotLinesSplit(n: Node, path: seq<nat>, parent: string, ident: seq<nat> -> string, caption: Node -> string)
    ensures NodeIds(DotLines(n, path, parent, ident, caption)) == [ident(path)] + NodeIds(ChildLines(n, path, |n.children|, ident, caption))
    ensures EdgeCount(DotLines(n, path, parent, ident, caption))
         == (if parent != "" then 1 else 0) + EdgeCount(ChildLines(n, path, |n.children|, ident, caption))
  {
    var line := NodeLine(ident(path), caption(n));
    var edge := ParentEdge(parent, ident(path));
    HeadCounts(line, edge);
    LineCountsConcat([line] + edge, ChildLines(n, path, |n.children|, ident, caption));
  }

  /** The node lines carry the ids of the node positions, in pre-order. */
  lemma {:induction false} DotLinesIds(n: Node, path: seq<nat>, parent: string, ident: seq<nat> -> string, caption: Node -> string)
    ensures NodeIds(DotLines(n, path, parent, ident, caption)) == MapIds(ident, Paths(n, path))
    decreases n, 1
  {
    DotLinesSplit(n, path, parent, ident, caption);
    ChildLinesIds(n, path, |n.children|, ident, caption);
    MapIdsConcat(ident, [path], ChildPaths(n, path, |n.children|));
    assert [path][1..] == [];
  }

  lemma {:induction false} ChildLinesIds(n: Node, path: seq<nat>, k: nat, ident: seq<nat> -> string, caption: Node -> string)
    requires k <= |n.children|
    ensures NodeIds(ChildLines(n, path, k, ident, caption)) == MapIds(ident, ChildPaths(n, path, k))
    decreases n, 0, k
  {
    if k > 0 {
      var child := n.children[k - 1];
      var prev, last := ChildLines(n, path, k - 1, ident, caption), DotLines(child, path + [k - 1], ident(path), ident, caption);
      ChildLinesIds(n, path, k - 1, ident, caption);
      DotLinesIds(child, path + [k - 1], ident(path), ident, caption);
      assert ChildLines(n, path, k, ident, caption) == prev + last;
      assert ChildPaths(n, path, k) == ChildPaths(n, path, k - 1) + Paths(child, path + [k - 1]);
      IdsConcat(prev, last, ChildPaths(n, path, k - 1), Paths(child, path + [k - 1]), ident);
    }
  }

  lemma IdsConcat(a: seq<DotLine>, b: seq<DotLine>, pa: seq<seq<nat>>, pb: seq<seq<nat>>, ident: seq<nat> -> string)
    requires NodeIds(a) == MapIds(ident, pa) && NodeIds(b) == MapIds(ident, pb)
    ensures NodeIds(a + b) == MapIds(ident, pa + pb)
  {
    LineCountsConcat(a, b);
    MapIdsConcat(ident, pa, pb);
  }

  /** Every node has a non-empty id, as the decimal text of an object id is. */
  ghost predicate NonEmptyIds(ident: seq<nat> -> string) {
    forall p :: ident(p) != ""
  }

  /** One edge line per node below the first, plus one to the parent if there is one. */
  lemma {:induction false} DotLinesEdges(n: Node, path: seq<nat>, parent: string, ident: seq<nat> -> string, caption: Node -> string)
    requires NonEmptyIds(ident)
    ensures EdgeCount(DotLines(n, path, parent, ident, caption)) == Size(n) - 1 + (if parent != "" then 1 else 0)
    decreases n, 1
  {
    DotLinesSplit(n, path, parent, ident, caption);
    ChildLinesEdges(n, path, |n.children|, ident, caption);
  }

  lemma {:induction false} ChildLinesEdges(n: Node, path: seq<nat>, k: nat, ident: seq<nat> -> string, caption: Node -> string)
    requires k <= |n.children| && NonEmptyIds(ident)
    ensures EdgeCount(ChildLines(n, path, k, ident, caption)) == ChildrenSize(n, k)
    decreases n, 0, k
  {
    if k > 0 {
      var child := n.children[k - 1];
      var prev, last := ChildLines(n, path, k - 1, ident, caption), DotLines(child, path + [k - 1], ident(path), ident, caption);
      ChildLinesEdges(n, path, k - 1, ident, caption);
      DotLinesEdges(child, path + [k - 1], ident(path), ident, caption);
      LineCountsConcat(prev, last);
    }
  }

  /** `q` starts with `p`. */
  predicate HasPrefix(q: seq<nat>, p: seq<nat>) {
    |p| <= |q| && q[..|p|] == p
  }

  lemma DistinctConcat<T>(a: seq<T>, b: seq<T>)
    requires Distinct(a) && Distinct(b)
    requires forall i, j :: 0 <= i < |a| && 0 <= j < |b| ==> a[i] != b[j]
    ensures Distinct(a + b)
  {
    forall i, j | 0 <= i < j < |a + b|
      ensures (a + b)[i] != (a + b)[j]
    {
      if j < |a| {
        assert (a + b)[i] == a[i] && (a + b)[j] == a[j];
      } else if i >= |a| {
        assert (a + b)[i] == b[i - |a|] && (a + b)[j] == b[j - |a|];
      } else {
        assert (a + b)[i] == a[i] && (a + b)[j] == b[j - |a|];
      }
    }
  }

  /** The positions below `path` all extend `path`, and no position is listed twice. */
  lemma {:induction false} PathsDistinct(n: Node, path: seq<nat>)
    ensures forall i :: 0 <= i < |Paths(n, path)| ==> HasPrefix(Paths(n, path)[i], path)
    ensures Distinct(Paths(n, path))
    decreases n, 1
  {
    var cs := ChildPaths(n, path, |n.children|);
    ChildPathsDistinct(n, path, |n.children|);
    forall j | 0 <= j < |cs|
      ensures path != cs[j]
    {
      assert |cs[j]| > |path|;
    }
    DistinctConcat([path], cs);
    forall i | 0 <= i < |Paths(n, path)|
      ensures HasPrefix(Paths(n, path)[i], path)
    {
      if i > 0 {
        assert Paths(n, path)[i] == cs[i - 1];
      }
    }
  }

  lemma {:induction false} ChildPathsDistinct(n: Node, path: seq<nat>, k: nat)
    requires k <= |n.children|
    ensures forall i :: 0 <= i < |ChildPaths(n, path, k)| ==>
      |ChildPaths(n, path, k)[i]| > |path| && HasPrefix(ChildPaths(n, path, k)[i], path)
      && ChildPaths(n, path, k)[i][|path|] < k
    ensures Distinct(ChildPaths(n, path, k))
    decreases n, 0, k
  {
    if k > 0 {
      var prev := ChildPaths(n, path, k - 1);
      var last := Paths(n.children[k - 1], path + [k - 1]);
      ChildPathsDistinct(n, path, k - 1);
      PathsDistinct(n.children[k - 1], path + [k - 1]);
      forall j | 0 <= j < |last|
        ensures |last[j]| > |path| && HasPrefix(last[j], path) && last[j][|path|] == k - 1
      {
        assert HasPrefix(last[j], path + [k - 1]);
        assert last[j][..|path| + 1] == path + [k - 1];
        assert last[j][..|path|] == (path + [k - 1])[..|path|];
      }
      forall i, j | 0 <= i < |prev| && 0 <= j < |last|
        ensures prev[i] != last[j]
      {
        assert prev[i][|path|] < k - 1;
      }
      DistinctConcat(prev, last);
      var all: seq<seq<nat>> := prev + last;
      forall i | 0 <= i < |all|
        ensures |all[i]| > |path| && HasPrefix(all[i], path) && all[i][|path|] < k
      {
        if i >= |prev| {
          assert all[i] == last[i - |prev|];
        } else {
          assert all[i] == prev[i];
        }
      }
    }
  }

  ghost predicate Injective(ident: seq<nat> -> string) {
    forall p, q :: ident(p) == ident(q) ==> p == q
  }

  /**
   * The body of the DOT text for a tree rooted at `n`: one node line per node, their ids pairwise
   * distinct when the labelling of positions is injective, and one edge line per node but the root,
   * whatever text labels the nodes.
   */
  lemma DotBodyShape(n: Node, ident: seq<nat> -> string, caption: Node -> string)
    requires Injective(ident) && NonEmptyIds(ident)
    ensures |NodeIds(DotLines(n, [], "", ident, caption))| == Size(n)
    ensures Distinct(NodeIds(DotLines(n, [], "", ident, caption)))
    ensures EdgeCount(DotLines(n, [], "", ident, caption)) == Size(n) - 1
  {
    DotLinesIds(n, [], "", ident, caption);
    DotLinesEdges(n, [], "", ident, caption);
    PathsDistinct(n, []);
    PathsSize(n, []);
    var ps := Paths(n, []);
    var ids := NodeIds(DotLines(n, [], "", ident, caption));
    MapIdsIndex(ident, ps, 0);
    forall i, j | 0 <= i < j < |ids|
      ensures ids[i] != ids[j]
    {
      MapIdsIndex(ident, ps, i);
      MapIdsIndex(ident, ps, j);
    }
  }

  lemma {:induction false} PathsSize(n: Node, path: seq<nat>)
    ensures |Paths(n, path)| == Size(n)
    decreases n, 1
  {
    ChildPathsSize(n, path, |n.children|);
  }

  lemma {:induction false} ChildPathsSize(n: Node, path: seq<nat>, k: nat)
    requires k <= |n.children|
    ensures |ChildPaths(n, path, k)| == ChildrenSize(n, k)
    decreases n, 0, k
  {
    if k > 0 {
      ChildPathsSize(n, path, k - 1);
      PathsSize(n.children[k - 1], path + [k - 1]);
    }
  }

  // ---------------------------------------------------------------- the tree object

  /** `set(range(n))`. */
  function RowIndices(n: nat): (r: set<nat>)
    ensures forall i: nat :: i in r <==> i < n
  {
    if n == 0 then {} else RowIndices(n - 1) + {n - 1}
  }

  class DecisionTree {
    const criterion: int
    const typeCriterion: int
    const maxDepth: int
    const minSamplesSplit: int
    /** `self.root`, absent until `fit` has run. */
    var root: Option<Node>
    /** The root's `df_x` and `df_y`, set by `set_df_x` and `set_df_y` in `fit`. */
    var features: Table
    var labels: seq<int>

    constructor (criterion: int, typeCriterion: int, maxDepth: int, minSamplesSplit: int)
      ensures this.criterion == criterion && this.typeCriterion == typeCriterion
      ensures this.maxDepth == maxDepth && this.minSamplesSplit == minSamplesSplit
      ensures root == None
    {
      this.criterion := criterion;
      this.typeCriterion := typeCriterion;
      this.maxDepth := maxDepth;
      this.minSamplesSplit := minSamplesSplit;
      root := None;
      features := Table([]);
      labels := [];
    }

    /**
     * The shared part of `fit`: a leaf root labelled with the rounded mean label, holding every row.
     * No labels: the mean divides by zero and nothing is stored.
     */
    method Fit(x: Table, y: seq<int>) returns (r: Result<()>)
      modifies this
      ensures y == [] ==> r == Failure(ZeroDivision) && root == old(root)
                           && features == old(features) && labels == old(labels)
      ensures y != [] ==> r == Success(())
                           && root == Some(Leaf(RoundHalfEven(LabelSum(y), |y|), RowIndices(|y|)))
                           && features == x && labels == y
    {
      if |y| == 0 {
        return Failure(ZeroDivision);
      }
      var total := 0;
      var i := 0;
      while i < |y|
        invariant 0 <= i <= |y|
        invariant total + LabelSum(y[i..]) == LabelSum(y)
      {
        assert y[i..][1..] == y[i + 1..];
        total := total + y[i];
        i := i + 1;
      }
      assert y[|y|..] == [];
      var value := RoundHalfEven(total, |y|);
      root := Some(Leaf(value, RowIndices(|y|)));
      features := x;
      labels := y;
      return Success(());
    }

    /** `predict` as written: the walk runs and raises as it does, but its answer is dropped. */
    function Predict(x: Record): (r: Result<()>)
      reads this
      ensures root.None? ==> r == Failure(NotFitted)
      ensures root.Some? ==> (r.Success? <==> PredictRec(x, root.value).Success?)
      ensures root.Some? && r.Failure? ==> r.error == PredictRec(x, root.value).error
    {
      if root.None? then Failure(NotFitted)
      else
        var answer := PredictRec(x, root.value);
        if answer.Failure? then Failure(answer.error) else Success(())
    }

    /** `predict` as evidently intended: the label `__predict_rec` found, always the value of a leaf. */
    function PredictLabel(x: Record): (r: Result<int>)
      reads this
      ensures root.None? ==> r == Failure(NotFitted)
      ensures root.Some? ==> r == PredictRec(x, root.value)
      ensures r.Success? ==> root.Some? && IsLeafValue(root.value, r.value)
    {
      if root.None? then Failure(NotFitted) else PredictRec(x, root.value)
    }

    /**
     * `predict_train` consumed to the end: one item per record, in order, until the first record
     * whose prediction raises, which is the last item.
     */
    method PredictTrain(xs: seq<Record>) returns (items: seq<Result<()>>)
      ensures |items| <= |xs|
      ensures forall i :: 0 <= i < |items| ==> items[i] == Predict(xs[i])
      ensures forall i :: 0 <= i < |items| - 1 ==> items[i].Success?
      ensures |items| < |xs| ==> items != [] && items[|items| - 1].Failure?
      ensures (forall i :: 0 <= i < |xs| ==> Predict(xs[i]).Success?) ==> |items| == |xs|
    {
      items := [];
      var i := 0;
      while i < |xs|
        invariant 0 <= i <= |xs| && |items| == i
        invariant forall j :: 0 <= j < i ==> items[j] == Predict(xs[j]) && items[j].Success?
      {
        var item := Predict(xs[i]);
        items := items + [item];
        if item.Failure? {
          return;
        }
        i := i + 1;
      }
    }

    /** `str_dot`: the fixed header, the traversal from the root without a parent, the footer. */
    method StrDot(ident: seq<nat> -> string) returns (r: Result<string>)
      ensures root.None? ==> r == Failure(NotFitted)
      ensures root.Some? ==> r == Success(DotHeader + Render(DotLines(root.value, [], "", ident, NodeText)) + DotFooter)
    {
      if root.None? {
        return Failure(NotFitted);
      }
      var body := Traverse(root.value, [], "", ident, NodeText);
      DotTextLines(root.value, [], "", ident, NodeText);
      return Success(DotHeader + body + DotFooter);
    }
  }

  /**
   * A tree fitted on the single label 1: `predict` answers nothing, while the intended version
   * answers the root's label 1.
   */
  method PredictCounterexample() returns (asWritten: Result<()>, intended: Result<int>)
    ensures asWritten == Success(())
    ensures intended == Success(1)
  {
    var tree := new DecisionTree(0, 0, 0, 0);
    var fitted := tree.Fit(Table([]), [1]);
    assert LabelSum([1]) == 1 by {
      assert [1][1..] == [];
    }
    asWritten := tree.Predict(map[]);
    intended := tree.PredictLabel(map[]);
  }
}

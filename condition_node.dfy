/**
 * The tree node (`ConditionNode`): its fields, `is_leaf`, `get_labels`, the evaluation of its
 * condition on a record, and its textual rendering `str_dot`.
 */
module Nodes {
  import opened Common
  import opened Text

  /** A record to classify: `row[attr_name]` looks a feature up by name. */
  type Record = map<string, real>

  /** A named feature column of the table attached to the root (`df_x`). */
  datatype Column = Column(name: string, values: seq<real>)

  datatype Table = Table(columns: seq<Column>)

  /**
   * The condition a node tests, as a tagged predicate instead of a lambda:
   * `row[feature] == value` (categorical), `row[feature] <= value` (numeric),
   * or the constant `lambda x: 0` returned by the "best" stub.
   */
  datatype Condition =
    | Equals(feature: string, value: real)
    | AtMost(feature: string, value: real)
    | ConstantZero

  /**
   * A node: its predicted label, its optional condition, its ordered children and the row
   * indices that reached it. Every node owns its own children sequence, so the list that
   * Python's default argument shares between default-constructed nodes has no counterpart.
   */
  datatype Node = Node(value: int, condition: Option<Condition>, children: seq<Node>, subset: set<nat>)

  /** A node with no condition, no children and the given label and rows. */
  function Leaf(value: int, subset: set<nat>): Node {
    Node(value, None, [], subset)
  }

  predicate IsLeaf(n: Node) {
    |n.children| == 0
  }

  /**
   * Calling the condition on a record and using the answer as an index into `children`:
   * a comparison gives True (index 1) or False (index 0); the stub gives 0.
   */
  function EvalCondition(c: Condition, x: Record): (r: Result<nat>)
    ensures r.Success? ==> r.value <= 1
    ensures r.Failure? <==> !c.ConstantZero? && c.feature !in x
    ensures r.Failure? ==> !c.ConstantZero? && r.error == MissingFeature(c.feature)
    ensures r.Success? && c.Equals? ==> (r.value == 1 <==> x[c.feature] == c.value)
    ensures r.Success? && c.AtMost? ==> (r.value == 1 <==> x[c.feature] <= c.value)
    ensures c.ConstantZero? ==> r == Success(0)
  {
    match c
    case Equals(f, v) => if f in x then Success(if x[f] == v then 1 else 0) else Failure(MissingFeature(f))
    case AtMost(f, v) => if f in x then Success(if x[f] <= v then 1 else 0) else Failure(MissingFeature(f))
    case ConstantZero => Success(0)
  }

  // ---------------------------------------------------------------- get_labels

  /** The labels at the indices of `subset` below `k`, in ascending index order. */
  function TakeBelow(y: seq<int>, subset: set<nat>, k: nat): seq<int>
    requires k <= |y|
  {
    if k == 0 then [] else TakeBelow(y, subset, k - 1) + (if k - 1 in subset then [y[k - 1]] else [])
  }

  function IndicesBelow(subset: set<nat>, k: nat): set<nat> {
    set i | i in subset && i < k
  }

  lemma {:induction false} TakeBelowLength(y: seq<int>, subset: set<nat>, k: nat)
    requires k <= |y|
    ensures |TakeBelow(y, subset, k)| == |IndicesBelow(subset, k)|
  {
    if k > 0 {
      TakeBelowLength(y, subset, k - 1);
      if k - 1 in subset {
        assert IndicesBelow(subset, k) == IndicesBelow(subset, k - 1) + {k - 1};
      } else {
        assert IndicesBelow(subset, k) == IndicesBelow(subset, k - 1);
      }
    }
  }

  /** The indices of `subset` below `k`, in ascending order: the order in which `TakeBelow` reads them. */
  function IndexListBelow(subset: set<nat>, k: nat): seq<nat> {
    if k == 0 then [] else IndexListBelow(subset, k - 1) + (if k - 1 in subset then [k - 1] else [])
  }

  /** `TakeBelow` reads each index of the subset below `k` once, in ascending order. */
  lemma {:induction false} TakeBelowIndices(y: seq<int>, subset: set<nat>, k: nat)
    requires k <= |y|
    ensures |IndexListBelow(subset, k)| == |TakeBelow(y, subset, k)|
    ensures forall j :: 0 <= j < |IndexListBelow(subset, k)| ==>
      var i := IndexListBelow(subset, k)[j]; i in subset && i < k && TakeBelow(y, subset, k)[j] == y[i]
    ensures forall j, l :: 0 <= j < l < |IndexListBelow(subset, k)| ==>
      IndexListBelow(subset, k)[j] < IndexListBelow(subset, k)[l]
  {
    if k > 0 {
      TakeBelowIndices(y, subset, k - 1);
      var ps, ts := IndexListBelow(subset, k - 1), TakeBelow(y, subset, k - 1);
      if k - 1 in subset {
        assert IndexListBelow(subset, k) == ps + [k - 1];
        assert TakeBelow(y, subset, k) == ts + [y[k - 1]];
      } else {
        assert IndexListBelow(subset, k) == ps;
        assert TakeBelow(y, subset, k) == ts;
      }
    }
  }

  /**
   * `get_labels`: `df_y.take(list(subset_indeces))`. An index past the end raises; otherwise each
   * index of the subset contributes its own label exactly once.
   */
  function GetLabels(y: seq<int>, subset: set<nat>): (r: Result<seq<int>>)
    ensures r.Failure? <==> exists i :: i in subset && i >= |y|
    ensures r.Failure? ==> r.error == IndexOutOfRange
    ensures r.Success? ==> |r.value| == |subset|
    ensures r.Success? ==> exists ps: seq<nat> ::
      && |ps| == |subset|
      && (forall j :: 0 <= j < |ps| ==> ps[j] in subset && r.value[j] == y[ps[j]])
      && (forall j, k :: 0 <= j < k < |ps| ==> ps[j] != ps[k])
  {
    if exists i :: i in subset && i >= |y| then Failure(IndexOutOfRange)
    else
      TakeBelowLength(y, subset, |y|);
      TakeBelowIndices(y, subset, |y|);
      assert IndicesBelow(subset, |y|) == subset;
      var ps := IndexListBelow(subset, |y|);
      var ts := TakeBelow(y, subset, |y|);
      assert forall j :: 0 <= j < |ts| ==> ps[j] in subset && ts[j] == y[ps[j]];
      Success(ts)
  }

  // ---------------------------------------------------------------- shape

  /** Number of nodes of the tree rooted at `n`. */
  function Size(n: Node): nat
    decreases n, 1
  {
    1 + ChildrenSize(n, |n.children|)
  }

  /** Total size of the first `k` children of `n`. */
  function ChildrenSize(n: Node, k: nat): nat
    requires k <= |n.children|
    decreases n, 0, k
  {
    if k == 0 then 0 else ChildrenSize(n, k - 1) + Size(n.children[k - 1])
  }

  /** `v` is the value of some leaf reachable from `n`. */
  ghost predicate IsLeafValue(n: Node, v: int)
    decreases n
  {
    if IsLeaf(n) then v == n.value
    else exists i :: 0 <= i < |n.children| && IsLeafValue(n.children[i], v)
  }

  // ---------------------------------------------------------------- str_dot

  /**
   * The text `str_dot` produces for `n`: the node's value, then for each child `i` a line
   * `"\n\t{i} -> "` followed by the child's own text with every newline re-indented.
   */
  function NodeText(n: Node): string
    decreases n, 1
  {
    IntToString(n.value) + EdgesText(n, |n.children|)
  }

  /** The part of `NodeText(n)` that renders the first `k` children. */
  function EdgesText(n: Node, k: nat): string
    requires k <= |n.children|
    decreases n, 0, k
  {
    if k == 0 then ""
    else EdgesText(n, k - 1) + "\n\t" + NatToString(k - 1) + " -> " + Indent(NodeText(n.children[k - 1]))
  }

  /** `ConditionNode.str_dot`: a leaf renders its value; an internal node appends one edge per child. */
  method StrDot(n: Node) returns (s: string)
    ensures s == NodeText(n)
    decreases n
  {
    if IsLeaf(n) {
      return IntToString(n.value);
    }
    s := IntToString(n.value);
    var i := 0;
    while i < |n.children|
      invariant 0 <= i <= |n.children|
      invariant s == IntToString(n.value) + EdgesText(n, i)
    {
      var branch := NatToString(i);
      var child := StrDot(n.children[i]);
      EdgesTextStep(n, i);
      s := s + "\n\t" + branch + " -> " + Indent(child);
      i := i + 1;
    }
  }

  lemma EdgesTextStep(n: Node, i: nat)
    requires i < |n.children|
    ensures IntToString(n.value) + EdgesText(n, i) + "\n\t" + NatToString(i) + " -> " + Indent(NodeText(n.children[i]))
         == IntToString(n.value) + EdgesText(n, i + 1)
  {
  }

  lemma {:induction false} ChildrenSizeAtLeast(n: Node, k: nat)
    requires k <= |n.children|
    ensures ChildrenSize(n, k) >= k
    decreases k
  {
    if k > 0 {
      ChildrenSizeAtLeast(n, k - 1);
    }
  }

  /** The text of a tree has one line per node: exactly `Size(n) - 1` newlines. */
  lemma {:induction false} NodeTextNewlines(n: Node)
    ensures NewlineCount(NodeText(n)) == Size(n) - 1
    decreases n, 1
  {
    EdgesTextNewlines(n, |n.children|);
    NewlineCountConcat(IntToString(n.value), EdgesText(n, |n.children|));
    IntToStringOneLine(n.value);
    NewlineFreeCount(IntToString(n.value));
  }

  lemma {:induction false} EdgesTextNewlines(n: Node, k: nat)
    requires k <= |n.children|
    ensures NewlineCount(EdgesText(n, k)) == ChildrenSize(n, k)
    decreases n, 0, k
  {
    if k > 0 {
      var child := n.children[k - 1];
      EdgesTextNewlines(n, k - 1);
      NodeTextNewlines(child);
      NatToStringOneLine(k - 1);
      EdgeNewlines(EdgesText(n, k - 1), NatToString(k - 1), NodeText(child));
      assert ChildrenSize(n, k) == ChildrenSize(n, k - 1) + Size(child);
    } else {
      assert EdgesText(n, k) == "" && ChildrenSize(n, k) == 0;
    }
  }

  /** A node is a leaf exactly when its children list is empty, which is exactly when its text is one line, its value. */
  lemma LeafText(n: Node)
    ensures IsLeaf(n) <==> NewlineCount(NodeText(n)) == 0
    ensures IsLeaf(n) ==> NodeText(n) == IntToString(n.value)
  {
    NodeTextNewlines(n);
    ChildrenSizeAtLeast(n, |n.children|);
  }
}

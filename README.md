# Decision tree core, modelled in Dafny

This project models the core of the decision-tree package of an anti-money-laundering
classifier: the tree node `ConditionNode` and the base class `AbstractDecisionTree`.

- **`common.dfy` (module `Common`).** The error kinds the Python code can raise on the modelled paths. `Option` and `Result`.
- **`text.dfy` (module `Text`).** Decimal rendering of integers (`f"{n}"`), re-indentation (`str.replace("\n", "\n\t")`) and newline counting.
- **`condition_node.dfy` (module `Nodes`).** The node as an inductive datatype.
  - The node's condition is a tagged predicate: `==` or `<=` on a named feature, or the constant-0 stub.
  - Also here: `is_leaf`, the evaluation of a condition on a record, `get_labels`, and `str_dot` as a loop that appends one edge per child.
- **`impurity.dfy` (module `Impurity`).**
  - Gini impurity over value counts, with exact rational arithmetic.
  - Information gain with its mask, its side counts and its error cases. Entropy is a parameter.
- **`selection.dfy` (module `Selection`).**
  - The argmax loop over candidate values.
  - Random attribute selection: both as written, and as evidently intended.
  - The "best" stub and the `generate_attribute` dispatcher.
- **`decision_tree.dfy` (module `Tree`).**
  - Python's `round` (half to even).
  - `fit`'s root initialisation, `__predict_rec`, `predict` and `predict_train`.
  - The DOT dump `str_dot`. It is a pre-order traversal written as two mutually recursive methods, proved against a line-level description of the output.
  - The class `DecisionTree` holds `root` and the root's data, and the methods that update them.

Object ids in the DOT dump are a parameter `ident` that gives every node position (its path of
branch indices from the root) a string, standing for `str(id(node))`. The shape lemma assumes
that parameter is injective and never empty.

## Model

| member | source | states |
|---|---|---|
| Nodes.EvalCondition | src/decision_tree/abstract_decision_tree.py:101-104 | Calling a condition gives branch 1 exactly when `row[feature] == value` (categorical) or `row[feature] <= value` (numeric), else 0. The constant-0 stub of line 72 always gives 0. A missing feature raises a `KeyError` naming that feature. |
| Nodes.GetLabels | src/decision_tree/abstract_decision_tree.py:116-117 | `take` fails exactly when some index of the subset is past the end of the labels. Otherwise each index of the subset contributes its own label exactly once: the result is `y` read at an arrangement of the subset's indices without repetition. |
| Nodes.LeafText | src/decision_tree/abstract_decision_tree.py:125-137 | A node is a leaf exactly when its children list is empty, exactly when its text has no newline. A leaf's text is its value. |
| Nodes.StrDot | src/decision_tree/abstract_decision_tree.py:128-137 | The loop builds `NodeText`: the value, then per child `i`, in order, `"\n\t" + str(i) + " -> "` and the child's text re-indented. |
| Nodes.NodeTextNewlines | src/decision_tree/abstract_decision_tree.py:128-137 | A node's text has exactly one newline fewer than the tree has nodes. |
| Nodes.EdgesTextNewlines | src/decision_tree/abstract_decision_tree.py:133-136 | The edges of the first `k` children add as many newlines as those children's subtrees have nodes. |
| Text.IndentNewlines | src/decision_tree/abstract_decision_tree.py:135 | Replacing every newline with a newline and tab keeps the number of newlines. |
| Text.IntToStringOneLine | src/decision_tree/abstract_decision_tree.py:130-134 | The rendering of a value or branch index is non-empty and contains no newline. |
| Impurity.ValueCounts | src/decision_tree/abstract_decision_tree.py:32 | `value_counts`: one count per distinct label, each the number of occurrences of that label. So the counts are positive and add up to the length of the series. The result is empty exactly for the empty series. |
| Impurity.Classes | src/decision_tree/abstract_decision_tree.py:32 | The index of `value_counts`: the distinct labels, each once, and exactly the labels occurring in the series. |
| Impurity.GiniImpurity | src/decision_tree/abstract_decision_tree.py:30-36 | A non-Series argument raises. A series gives `1 - Σ (count / n)²` over its value counts. An empty series gives 1. A non-empty one gives a value in [0, 1) that is 0 exactly when all labels are equal. |
| Impurity.GiniBounds | src/decision_tree/abstract_decision_tree.py:32-33 | `1 - Σ p²` of a non-empty series is in [0, 1), and is 0 if and only if all labels are equal. |
| Impurity.ProportionsCommonDenominator | src/decision_tree/abstract_decision_tree.py:32-33 | `Σ (k/n)²` equals `Σ k² / n²`. |
| Impurity.SquaresBound | src/decision_tree/abstract_decision_tree.py:33 | For positive counts, `Σ k² <= (Σ k)²`, with equality exactly when there is at most one count. |
| Impurity.SingleClassIff | src/decision_tree/abstract_decision_tree.py:32 | A non-empty series has one distinct value exactly when all its labels are equal. |
| Impurity.InformationGain | src/decision_tree/abstract_decision_tree.py:47-59 | An empty column divides by zero. A column shorter than the labels leaves labels without a mask entry, and the aligned indexing raises. Otherwise the result is the weighted gain: `a` and `b` count the whole mask, each side takes the labels its aligned mask entries select, the impurity is chosen by `imp_func` (0 is entropy, anything else Gini), and the base term is taken over all labels. |
| Impurity.Partition | src/decision_tree/abstract_decision_tree.py:55-59 | `a + b == tot == len(column)`. The two sides together are exactly the labels, and on a column as long as the labels they number `a` and `b`. A row is on the mask side exactly when it passes `==` (categorical) or `<=` (numeric). |
| Impurity.DegenerateSplitGain | src/decision_tree/abstract_decision_tree.py:59 | A test that sends every row to the same side gains exactly 0, for any impurity function. |
| Selection.BestValue | src/decision_tree/abstract_decision_tree.py:91-97 | With no candidates the value stays -1. An error of the gain computation (an empty column, or one shorter than the labels) propagates. Otherwise the value is the first candidate of strictly greatest gain, if that gain exceeds -1, and -1 if none does. |
| Selection.SelectedValueUnique | src/decision_tree/abstract_decision_tree.py:91-97 | The selected value is determined by the gains and candidates. |
| Selection.GenerateAttributeRandom | src/decision_tree/abstract_decision_tree.py:74-104 | As written:<br>• A column index out of range raises.<br>• Gains use an `==` mask exactly when `imp_func` is non-zero, and always entropy.<br>• The condition is `==` on a categorical column and `<=` otherwise, with the selected value. |
| Selection.GenerateAttributeRandomIntended | src/decision_tree/abstract_decision_tree.py:74-104 | The same, with gains computed with the column's own mask kind and with the configured impurity. |
| Selection.GenerateAttributeBest | src/decision_tree/abstract_decision_tree.py:61-72 | The stub ignores `imp_func` and returns `lambda x: 0`: every record, whatever its features, goes to `children[0]`. |
| Selection.GenerateAttribute | src/decision_tree/abstract_decision_tree.py:106-114 | `type_criterion == 1` gives the constant-0 stub. Anything else gives the random selection as written. |
| Selection.AsWrittenChoice | src/decision_tree/abstract_decision_tree.py:94 | On the column `[0, 1, 2]` with labels `[0, 1, 0]`, the `<=` masks used as written select 0. Gini stands for the entropy parameter. |
| Selection.IntendedChoice | src/decision_tree/abstract_decision_tree.py:94 | On the same input, the intended `==` masks select 1, the test that separates the classes. Gini stands for the entropy parameter. |
| Selection.Line94Counterexample | src/decision_tree/abstract_decision_tree.py:94 | As written, the selection gives `c == 0`. As intended, it gives `c == 1`. |
| Tree.RoundHalfEven | src/decision_tree/abstract_decision_tree.py:149 | `round(s / n)` is within half of `s / n`. On an exact half it is even. |
| Tree.RoundHalfEvenUnique | src/decision_tree/abstract_decision_tree.py:149 | Those two conditions single out one integer, so they define Python's `round`. |
| Tree.MajorityLabel | src/decision_tree/abstract_decision_tree.py:149 | For 0/1 labels the root value is 1 exactly when the ones are a strict majority. A tie gives 0. |
| Tree.DecisionTree.constructor | src/decision_tree/abstract_decision_tree.py:140-144 | `__init__` stores the criterion, the selection mode, the maximum depth and the minimum split size, and no root yet. |
| Tree.DecisionTree.Fit | src/decision_tree/abstract_decision_tree.py:147-152 | No labels: division by zero, nothing stored. Otherwise:<br>• The root becomes a leaf valued `round(sum(y) / len(y))`, with subset `{0, ..., len(y) - 1}`.<br>• The root's features and labels are stored. |
| Tree.RowIndices | src/decision_tree/abstract_decision_tree.py:150 | `set(range(n))` holds exactly the naturals below `n`. |
| Tree.PredictRec | src/decision_tree/abstract_decision_tree.py:155-162 | A leaf answers its value. A missing condition is not callable. A missing feature raises, and so does a branch past the end of `children`. Every answer is the value of some leaf. |
| Tree.PredictRoutes | src/decision_tree/abstract_decision_tree.py:160-161 | On a node with at least one child, a test that holds descends into `children[1]`, raising when there is no second child. One that fails descends into `children[0]`, and so does the stub. |
| Tree.PredictSucceeds | src/decision_tree/abstract_decision_tree.py:155-162 | The walk succeeds exactly on a record that every internal node on its own path can route: it has a condition, the record has the tested feature, and the selected child exists. It then answers some leaf's value. |
| Tree.DecisionTree.Predict | src/decision_tree/abstract_decision_tree.py:165-166 | As written, `predict` succeeds or raises exactly as the walk does, and answers nothing. |
| Tree.DecisionTree.PredictLabel | src/decision_tree/abstract_decision_tree.py:165-166 | As intended, it answers the walk's result, always a leaf's value. |
| Tree.PredictCounterexample | src/decision_tree/abstract_decision_tree.py:165-166 | A tree fitted on the label 1 answers nothing as written, and 1 as intended. |
| Tree.DecisionTree.PredictTrain | src/decision_tree/abstract_decision_tree.py:169-171 | One item per record, in order, each `predict` of that record. Every item but the last succeeds. Stopping early means the last item raised. |
| Tree.Traverse | src/decision_tree/abstract_decision_tree.py:178-187 | `traverse` builds `DotText`, in order:<br>• the node statement labelled with the node's `str_dot`;<br>• the edge from a non-empty parent id;<br>• each child's text, with this node's id as parent. |
| Tree.TraverseChildren | src/decision_tree/abstract_decision_tree.py:183-186 | The loop over the children appends their texts in order. |
| Tree.DotTextLines | src/decision_tree/abstract_decision_tree.py:178-187 | The traversal text is the rendering of a sequence of DOT lines: the node line, the parent edge, then the children's lines. |
| Tree.DecisionTree.StrDot | src/decision_tree/abstract_decision_tree.py:173-191 | Unfitted: an error. Otherwise the fixed header, then the rendered lines of the traversal from the root with an empty parent id, then the closing brace. |
| Tree.DotBodyShape | src/decision_tree/abstract_decision_tree.py:178-189 | For injective, non-empty ids the DOT body has one node line per node. Their ids are pairwise distinct. There is one edge line per node but the root. |
| Tree.DotLinesIds | src/decision_tree/abstract_decision_tree.py:179-186 | The node lines carry the ids of the node positions in pre-order. |
| Tree.DotLinesEdges | src/decision_tree/abstract_decision_tree.py:181-186 | A subtree has one edge line per node below its top, plus one if it has a parent. |
| Tree.PathsDistinct | src/decision_tree/abstract_decision_tree.py:184-185 | The positions visited below a node all extend its position and are pairwise distinct. |

## Left out

- **Entropy.** `_scaled_entropy` (lines 38-45) computes `log2` on floats. It is a parameter `entropy` of the selection and the gain.
- **Random choice.** `random.randint` (line 78) is replaced by the column index, which is a parameter. An index out of range stands for `randint(0, -1)` on a table without columns.
- **Candidate values and the categorical flag.** The dtype and `nunique` test (line 81) and the quantile computation (lines 84-87) are left out. The flag and the candidates are parameters.
- **Output.** The `print` calls (lines 89, 98-99) and `create_dot_files` (lines 193-201), which writes a file and runs external programs, are left out.
- **Object ids.** Node ids are the parameter `ident`, not the values of `id(node)`. The shape lemma assumes it is injective and never empty, as distinct live objects' decimal ids are.
- **`__str__`.** It returns a constant name (lines 203-204) and is left out. The `ConditionNode` constructor becomes the `Node` datatype. The tree's constructor stores its four settings and no root.
- **Subclasses.** The bodies of `fit` in subclasses are not part of this model. `Fit` models only the root initialisation of the abstract `fit`.
- **Parent links and per-node data.** A node's `parent` link is not kept. `df_x` and `df_y` live only on the tree object: in this file only the abstract `fit` sets them, on the root. Selection and gain take the table and the labels as parameters, standing for the `self.df_x` and `self.df_y` of whichever node they run on.
- **Default children list.** The `children=[]` default is shared between default-constructed nodes (line 20). Each node here owns its own sequence, so that aliasing is not modelled.
- Nodes.GetLabels: the model reads the subset's indices in ascending order. `list(set)` follows CPython's hash-table order (`list({8, 1}) == [8, 1]`), so the order of the labels is not modelled; their multiset is.
- Impurity.InformationGain: rows are aligned by position, as when the table and the labels share one `RangeIndex`. Other indexes, where pandas aligns the mask by label, are not modelled.
- Tree.DecisionTree.Fit: when there are no labels, Python has already bound a fresh node to `self.root` before the division raises. The model keeps the previous root instead.
- Tree.RoundHalfEven: the mean is an exact rational here. Python rounds the float quotient, which can differ for sums beyond 2^53, and `sum(df_y)` adds `int64` values, which wrap past 2^63; `LabelSum` is unbounded.
- Impurity.GiniImpurity: computed on exact rationals, not floats.
- Nodes.EvalCondition: feature values are reals, so NaN and the mixing of ints and floats in pandas are not modelled.
- **Recursion and garbage collection.** Python's recursion limit for deep trees is not modelled, and neither is the reuse of ids by garbage-collected objects.
- **Branch order.** `children` is indexed with the boolean, so a test that holds selects index 1 and one that fails selects index 0.
- **Loop shape in `traverse`.** Its loop over the children is the separate method `Tree.TraverseChildren`, so that the two methods recurse mutually.

## Findings

| source | as written | input that shows it | evidently intended | confidence | as-written member | corrected member |
|---|---|---|---|---|---|---|
| src/decision_tree/abstract_decision_tree.py:94 | `_information_gain(attr_series, value, imp_func)` passes `imp_func` as `is_categorical`. So the mask follows `imp_func` and the impurity is always entropy. | Categorical column `c = [0, 1, 2]`, labels `[0, 1, 0]`, candidates `[0, 1, 2]`, `imp_func = 0`, with Gini impurity passed as the entropy function. The `<=` masks give gains 1/9, 1/9, 0 and select `c == 0`. | Pass `is_categorical` and `imp_func` in their own slots. The `==` masks give 1/9, 4/9, 1/9 and select the separating test `c == 1`. | not executed | Selection.GenerateAttributeRandom | Selection.GenerateAttributeRandomIntended |
| src/decision_tree/abstract_decision_tree.py:166 | `predict` calls `__predict_rec` and drops its answer, so it always returns `None`. | A tree fitted on labels `[1]`, any record: `predict` answers nothing. | `return self.__predict_rec(x, self.root)`, answering 1 here. | not executed | Tree.DecisionTree.Predict | Tree.DecisionTree.PredictLabel |

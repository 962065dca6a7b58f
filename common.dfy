/** Error and result types shared by the decision-tree model. */
module Common {

  /** The exceptions the Python code can raise on the paths this model covers. */
  datatype Error =
    | NotASeries                 // `_gini_impurity` given something that is not a label series
    | ZeroDivision               // `a/tot` with an empty column, `sum(y)/len(y)` with no labels
    | Unalignable                // a boolean mask indexing a label series of another length
    | EmptyRange                 // `random.randint(0, -1)` on a table without columns
    | MissingFeature(name: string) // `row[attr_name]` on a record without that feature
    | NotCallable                // an internal node whose condition is None
    | IndexOutOfRange            // `children[branch]` or `take(...)` past the end
    | NotFitted                  // `self.root` read before `fit` assigned it

  datatype Option<+T> = None | Some(value: T)

  datatype Result<+T> = Success(value: T) | Failure(error: Error)

  /** No element of `s` occurs twice. */
  predicate Distinct<T(==)>(s: seq<T>) {
    forall i, j :: 0 <= i < j < |s| ==> s[i] != s[j]
  }
}

/**
 The immutable radix tree behind both name indexes, seen through what its callers use: a finite map
 from keys to optional values, exact lookup (`in` and `[]`), and longest-prefix search.
 */
module Radix {
  import opened Wrappers

  type Tree = map<string, Option<string>>

  /** The longest key of the tree that the query starts with. */
  function LongestPrefix(t: Tree, query: string): (r: Option<string>)
    ensures r.None? ==> forall k | k in t :: !(k <= query)
    ensures r.Some? ==> r.value in t && r.value <= query && forall k | k in t && k <= query :: k <= r.value
    decreases |query|
  {
    if query in t then Some(query)
    else if query == "" then None
    else
      assert forall k | k in t && k <= query :: k <= query[..|query| - 1] by {
        assert forall k | k in t && k <= query :: |k| == |query| ==> k == query;
      }
      LongestPrefix(t, query[..|query| - 1])
  }
}

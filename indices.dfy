/** Selecting positions of a sequence, the shape shared by the item-link
    list comprehension and the links that survive the loop's filters. */
module Indices {

  /** Position `k` of `ks` holds a smaller value than the later position `l`. */
  predicate Ascending(ks: seq<nat>, k: int, l: int) {
    0 <= k < l < |ks| && ks[k] < ks[l]
  }

  /** The positions below `n` whose flag is set, in increasing order. */
  function IndicesWhere(flags: seq<bool>, n: nat): (ks: seq<nat>)
    requires n <= |flags|
    ensures forall k :: 0 <= k < |ks| ==> ks[k] < n && flags[ks[k]]
    ensures forall k, l :: 0 <= k < l < |ks| ==> Ascending(ks, k, l)
  {
    if n == 0 then []
    else
      var ks := IndicesWhere(flags, n - 1);
      var r := ks + (if flags[n - 1] then [n - 1] else []);
      assert forall k, l :: 0 <= k < l < |r| ==> Ascending(r, k, l) by {
        forall k, l | 0 <= k < l < |r| ensures Ascending(r, k, l) {
          if l < |ks| {
            assert Ascending(ks, k, l);
          }
        }
      }
      r
  }

  /** Every flagged position below the bound is selected. */
  lemma {:induction false} IndicesWhereComplete(flags: seq<bool>, n: nat, j: nat)
    requires j < n <= |flags| && flags[j]
    ensures j in IndicesWhere(flags, n)
  {
    var ks := IndicesWhere(flags, n - 1);
    if j < n - 1 {
      IndicesWhereComplete(flags, n - 1, j);
      assert IndicesWhere(flags, n) == ks + (if flags[n - 1] then [n - 1] else []);
    } else {
      assert IndicesWhere(flags, n) == ks + [n - 1];
    }
  }

  /** The elements of `s` at positions `ks`, in that order. */
  function Pick<T>(s: seq<T>, ks: seq<nat>): (r: seq<T>)
    requires forall k :: 0 <= k < |ks| ==> ks[k] < |s|
    ensures |r| == |ks|
    ensures forall k :: 0 <= k < |ks| ==> r[k] == s[ks[k]]
  {
    if ks == [] then [] else Pick(s, ks[..|ks| - 1]) + [s[ks[|ks| - 1]]]
  }

  /** Looking at one more position appends its element exactly when its
      flag is set. */
  lemma PickWhereStep<T>(s: seq<T>, flags: seq<bool>, n: nat)
    requires n < |flags| <= |s|
    ensures Pick(s, IndicesWhere(flags, n + 1)) ==
            Pick(s, IndicesWhere(flags, n)) + (if flags[n] then [s[n]] else [])
  {
    var ks := IndicesWhere(flags, n);
    if flags[n] {
      assert IndicesWhere(flags, n + 1) == ks + [n];
      assert (ks + [n])[..|ks|] == ks;
    } else {
      assert IndicesWhere(flags, n + 1) == ks;
    }
  }
}

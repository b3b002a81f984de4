/** Order-preserving filtering, the shape of every "collect the matches in
    enumeration order, then take the first" step in the pipeline. */
module Seqs {

  /** The elements of `xs` that satisfy `keep`, in their original order. */
  function Filter<T(!new)>(xs: seq<T>, keep: T -> bool): (r: seq<T>)
    ensures |r| <= |xs|
    ensures r == [] <==> forall i :: 0 <= i < |xs| ==> !keep(xs[i])
    ensures r != [] ==> exists i :: 0 <= i < |xs| && xs[i] == r[0] && IsFirst(xs, keep, i)
  {
    if xs == [] then []
    else if keep(xs[0]) then
      assert IsFirst(xs, keep, 0);
      [xs[0]] + Filter(xs[1..], keep)
    else
      var rest := Filter(xs[1..], keep);
      assert forall i :: 0 <= i < |xs[1..]| ==> xs[1..][i] == xs[i + 1];
      assert rest != [] ==> exists k :: 0 <= k < |xs| && xs[k] == rest[0] && IsFirst(xs, keep, k) by {
        if rest != [] {
          var i :| 0 <= i < |xs[1..]| && xs[1..][i] == rest[0] && IsFirst(xs[1..], keep, i);
          forall j | 0 <= j < i + 1 ensures !keep(xs[j]) {
            if j > 0 {
              assert xs[j] == xs[1..][j - 1];
            }
          }
          assert IsFirst(xs, keep, i + 1);
        }
      }
      rest
  }

  /** Filtering keeps exactly the elements that satisfy `keep`. */
  lemma {:induction false} FilterMembers<T(!new)>(xs: seq<T>, keep: T -> bool)
    ensures forall x :: x in Filter(xs, keep) <==> x in xs && keep(x)
    decreases |xs|
  {
    if xs != [] {
      FilterMembers(xs[1..], keep);
      assert forall x :: x in xs <==> x == xs[0] || x in xs[1..];
    }
  }

  /** Filtering keeps the relative order: the `i`-th and `j`-th kept
      elements come from positions `k < l` of `xs`. */
  lemma {:induction false} FilterOrder<T(!new)>(xs: seq<T>, keep: T -> bool, i: int, j: int) returns (k: int, l: int)
    requires 0 <= i < j < |Filter(xs, keep)|
    ensures 0 <= k < l < |xs| && xs[k] == Filter(xs, keep)[i] && xs[l] == Filter(xs, keep)[j]
    decreases |xs|
  {
    assert xs != [];
    var ys := xs[1..];
    FilterTailLength(xs, keep);
    if keep(xs[0]) && i == 0 {
      k := 0;
      l := FilterKeptHead(xs, keep, j);
    } else if keep(xs[0]) {
      FilterTail(xs, keep, i - 1);
      FilterTail(xs, keep, j - 1);
      var k', l' := FilterOrder(ys, keep, i - 1, j - 1);
      assert ys[k'] == xs[k' + 1] && ys[l'] == xs[l' + 1];
      assert Filter(xs, keep)[i] == Filter(ys, keep)[i - 1];
      assert Filter(xs, keep)[j] == Filter(ys, keep)[j - 1];
      k, l := k' + 1, l' + 1;
    } else {
      FilterTail(xs, keep, i);
      FilterTail(xs, keep, j);
      var k', l' := FilterOrder(ys, keep, i, j);
      assert ys[k'] == xs[k' + 1] && ys[l'] == xs[l' + 1];
      k, l := k' + 1, l' + 1;
    }
  }

  lemma FilterTailLength<T(!new)>(xs: seq<T>, keep: T -> bool)
    requires xs != []
    ensures keep(xs[0]) ==> |Filter(xs, keep)| == |Filter(xs[1..], keep)| + 1
    ensures !keep(xs[0]) ==> |Filter(xs, keep)| == |Filter(xs[1..], keep)|
  {
  }

  /** Past the first element, the kept elements are those of the rest of
      the sequence, shifted by one when the first element is kept. */
  lemma FilterTail<T(!new)>(xs: seq<T>, keep: T -> bool, i: int)
    requires xs != [] && 0 <= i < |Filter(xs[1..], keep)|
    ensures keep(xs[0]) ==> Filter(xs, keep)[i + 1] == Filter(xs[1..], keep)[i]
    ensures !keep(xs[0]) ==> Filter(xs, keep)[i] == Filter(xs[1..], keep)[i]
  {
  }

  /** When the first element is kept it comes first, and every later kept
      element sits at a later position. */
  lemma FilterKeptHead<T(!new)>(xs: seq<T>, keep: T -> bool, j: int) returns (l: int)
    requires xs != [] && keep(xs[0]) && 0 < j < |Filter(xs, keep)|
    ensures 0 < l < |xs| && xs[0] == Filter(xs, keep)[0] && xs[l] == Filter(xs, keep)[j]
  {
    var ys := xs[1..];
    FilterTail(xs, keep, j - 1);
    var x := Filter(ys, keep)[j - 1];
    FilterMembers(ys, keep);
    assert x in ys;
    var m :| 0 <= m < |ys| && ys[m] == x;
    l := m + 1;
  }

  /** `xs[i]` is the first element of `xs` that satisfies `keep`. */
  predicate IsFirst<T>(xs: seq<T>, keep: T -> bool, i: int)
    requires 0 <= i < |xs|
  {
    keep(xs[i]) && forall j :: 0 <= j < i ==> !keep(xs[j])
  }
}

/** Generic list operations behind the React state updates of the original
    code: `Array.prototype.filter`, `map` with a conditional replacement,
    `find`, and the subsequence relation a filter result stands in. */
module Lists {
  import opened Wrappers

  /** `xs.filter(p)`: the elements satisfying `p`, in their original order. */
  function Filter<T(==)>(xs: seq<T>, p: T -> bool): (r: seq<T>)
    ensures |r| <= |xs|
    ensures forall i :: 0 <= i < |r| ==> r[i] in xs && p(r[i])
    ensures forall i :: 0 <= i < |xs| && p(xs[i]) ==> xs[i] in r
  {
    if xs == [] then [] else (if p(xs[0]) then [xs[0]] else []) + Filter(xs[1..], p)
  }

  /** `a` is obtained from `b` by deleting elements, keeping the order. */
  predicate IsSubsequence<T(==)>(a: seq<T>, b: seq<T>)
    decreases |b|
  {
    if a == [] then true
    else if b == [] then false
    else if a[0] == b[0] then IsSubsequence(a[1..], b[1..])
    else IsSubsequence(a, b[1..])
  }

  lemma {:induction false} SubsequenceOfTail<T>(a: seq<T>, b: seq<T>)
    requires b != [] && IsSubsequence(a, b[1..])
    ensures IsSubsequence(a, b)
    decreases |b|, |a|
  {
    if a != [] && a[0] == b[0] {
      // a[1..] is a subsequence of b[1..] because a is: drop the head of b[1..] if needed
      TailOfSubsequence(a, b[1..]);
    }
  }

  lemma {:induction false} TailOfSubsequence<T>(a: seq<T>, b: seq<T>)
    requires a != [] && IsSubsequence(a, b)
    ensures IsSubsequence(a[1..], b)
    decreases |b|, |a|
  {
    assert b != [];
    if a[0] == b[0] {
      SubsequenceOfTail(a[1..], b);
    } else {
      TailOfSubsequence(a, b[1..]);
      SubsequenceOfTail(a[1..], b);
    }
  }

  /** A filter result is a subsequence of its input: order is preserved. */
  lemma {:induction false} FilterIsSubsequence<T>(xs: seq<T>, p: T -> bool)
    ensures IsSubsequence(Filter(xs, p), xs)
    decreases |xs|
  {
    if xs != [] {
      FilterIsSubsequence(xs[1..], p);
      if p(xs[0]) {
        assert Filter(xs, p) == [xs[0]] + Filter(xs[1..], p);
        assert Filter(xs, p)[1..] == Filter(xs[1..], p);
      } else {
        assert Filter(xs, p) == Filter(xs[1..], p);
        SubsequenceOfTail(Filter(xs, p), xs);
      }
    }
  }

  /** A predicate true of every element keeps the whole list. */
  lemma {:induction false} FilterKeepsAll<T>(xs: seq<T>, p: T -> bool)
    requires forall i :: 0 <= i < |xs| ==> p(xs[i])
    ensures Filter(xs, p) == xs
    decreases |xs|
  {
    if xs != [] {
      FilterKeepsAll(xs[1..], p);
    }
  }

  /** The number of elements satisfying `p`. */
  function Count<T>(xs: seq<T>, p: T -> bool): (n: nat)
    ensures n <= |xs|
  {
    if xs == [] then 0 else (if p(xs[0]) then 1 else 0) + Count(xs[1..], p)
  }

  /** `xs.map(x => isTarget(x) ? y : x)`: replace every matching element by `y`. */
  function ReplaceWhere<T>(xs: seq<T>, isTarget: T -> bool, y: T): (r: seq<T>)
    ensures |r| == |xs|
    ensures forall i :: 0 <= i < |xs| ==> r[i] == if isTarget(xs[i]) then y else xs[i]
  {
    seq(|xs|, i requires 0 <= i < |xs| => if isTarget(xs[i]) then y else xs[i])
  }

  /** `xs.find(p)`: the first element satisfying `p`, if any. */
  function FindFirst<T>(xs: seq<T>, p: T -> bool): (r: Option<T>)
    ensures r.None? <==> forall i :: 0 <= i < |xs| ==> !p(xs[i])
    ensures r.Some? ==> exists k :: 0 <= k < |xs| && xs[k] == r.value && p(xs[k])
                          && forall i :: 0 <= i < k ==> !p(xs[i])
  {
    if xs == [] then None
    else if p(xs[0]) then Some(xs[0])
    else
      var r := FindFirst(xs[1..], p);
      assert r.Some? ==> exists k :: 0 <= k < |xs[1..]| && xs[1..][k] == r.value && p(xs[1..][k])
                          && forall i :: 0 <= i < k ==> !p(xs[1..][i]);
      assert r.Some? ==> exists k :: 0 <= k < |xs| && xs[k] == r.value && p(xs[k])
                          && forall i :: 0 <= i < k ==> !p(xs[i]) by {
        if r.Some? {
          var k :| 0 <= k < |xs[1..]| && xs[1..][k] == r.value && p(xs[1..][k])
                   && forall i :: 0 <= i < k ==> !p(xs[1..][i]);
          assert xs[k + 1] == r.value;
          assert forall i :: 0 <= i < k + 1 ==> !p(xs[i]) by {
            forall i | 0 <= i < k + 1 ensures !p(xs[i]) {
              if i > 0 { assert xs[i] == xs[1..][i - 1]; }
            }
          }
        }
      }
      assert r.None? ==> forall i :: 0 <= i < |xs| ==> !p(xs[i]) by {
        if r.None? {
          forall i | 0 <= i < |xs| ensures !p(xs[i]) {
            if i > 0 { assert xs[i] == xs[1..][i - 1]; }
          }
        }
      }
      r
  }

  /** Replacing the targets by a target and then dropping every target
      drops the same elements as dropping the targets straight away. */
  lemma {:induction false} FilterAfterReplace<T>(xs: seq<T>, isTarget: T -> bool, y: T, keep: T -> bool)
    requires isTarget(y) && forall x :: keep(x) == !isTarget(x)
    ensures Filter(ReplaceWhere(xs, isTarget, y), keep) == Filter(xs, keep)
    decreases |xs|
  {
    if xs != [] {
      var r := ReplaceWhere(xs, isTarget, y);
      assert r[1..] == ReplaceWhere(xs[1..], isTarget, y);
      FilterAfterReplace(xs[1..], isTarget, y, keep);
    }
  }

  /** Replacing by a target twice is replacing once. */
  lemma ReplaceWhereIdempotent<T>(xs: seq<T>, isTarget: T -> bool, y: T)
    requires isTarget(y)
    ensures ReplaceWhere(ReplaceWhere(xs, isTarget, y), isTarget, y) == ReplaceWhere(xs, isTarget, y)
  {
  }

  /** A new head the filter rejects leaves the result unchanged. */
  lemma FilterRejectedHead<T>(y: T, xs: seq<T>, keep: T -> bool)
    requires !keep(y)
    ensures Filter([y] + xs, keep) == Filter(xs, keep)
  {
    assert ([y] + xs)[1..] == xs;
  }

  /** A prefix one longer is the prefix and the next element. */
  lemma PrefixSnoc<T>(xs: seq<T>, i: nat)
    requires i < |xs|
    ensures xs[..i + 1] == xs[..i] + [xs[i]]
  {
  }
}

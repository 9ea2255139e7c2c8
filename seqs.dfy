/** Order-preserving filtering of lists, shared by every filter in the model
    (`Array.prototype.filter` in the browser code), and joining of mapped lists. */
module Seqs {

  /** The elements of `xs` that satisfy `p`, in their original order. */
  function Filter<T(!new)>(xs: seq<T>, p: T -> bool): (r: seq<T>)
    ensures |r| <= |xs|
    ensures forall x :: x in r <==> x in xs && p(x)
    ensures (forall x :: x in xs ==> p(x)) ==> r == xs
  {
    if xs == [] then [] else (if p(xs[0]) then [xs[0]] else []) + Filter(xs[1..], p)
  }

  /** Filtering keeps every copy of a passing element and no copy of a failing one. */
  lemma {:induction false} FilterMultiset<T(!new)>(xs: seq<T>, p: T -> bool)
    ensures forall x :: multiset(Filter(xs, p))[x] == if p(x) then multiset(xs)[x] else 0
  {
    if xs != [] {
      FilterMultiset(xs[1..], p);
      assert xs == [xs[0]] + xs[1..];
      assert Filter(xs, p) == (if p(xs[0]) then [xs[0]] else []) + Filter(xs[1..], p);
    }
  }

  /** `xs` can be obtained from `ys` by deleting elements. */
  ghost predicate IsSubsequence<T>(xs: seq<T>, ys: seq<T>)
    decreases |ys|
  {
    xs == [] ||
    (ys != [] &&
     ((xs[0] == ys[0] && IsSubsequence(xs[1..], ys[1..])) || IsSubsequence(xs, ys[1..])))
  }

  /** Filtering keeps the survivors in the order they had. */
  lemma {:induction false} FilterIsSubsequence<T(!new)>(xs: seq<T>, p: T -> bool)
    ensures IsSubsequence(Filter(xs, p), xs)
  {
    if xs != [] {
      FilterIsSubsequence(xs[1..], p);
      if p(xs[0]) {
        assert Filter(xs, p) == [xs[0]] + Filter(xs[1..], p);
        assert Filter(xs, p)[1..] == Filter(xs[1..], p);
      } else {
        assert Filter(xs, p) == Filter(xs[1..], p);
      }
    }
  }

  /** Filtering a concatenation filters each part. */
  lemma {:induction false} FilterConcat<T(!new)>(xs: seq<T>, ys: seq<T>, p: T -> bool)
    ensures Filter(xs + ys, p) == Filter(xs, p) + Filter(ys, p)
  {
    if xs == [] {
      assert xs + ys == ys;
    } else {
      assert (xs + ys)[0] == xs[0];
      assert (xs + ys)[1..] == xs[1..] + ys;
      FilterConcat(xs[1..], ys, p);
    }
  }

  /** Filtering twice with the same predicate changes nothing more. */
  lemma {:induction false} FilterIdempotent<T(!new)>(xs: seq<T>, p: T -> bool)
    ensures Filter(Filter(xs, p), p) == Filter(xs, p)
  {
    var r := Filter(xs, p);
    assert forall x :: x in r ==> p(x);
  }

  /** Splitting by a predicate and its negation loses and invents no element. */
  lemma {:induction false} FilterSplitMultiset<T(!new)>(xs: seq<T>, p: T -> bool, q: T -> bool)
    requires forall i :: 0 <= i < |xs| ==> (q(xs[i]) <==> !p(xs[i]))
    ensures multiset(Filter(xs, p)) + multiset(Filter(xs, q)) == multiset(xs)
  {
    if xs != [] {
      var x, rest := xs[0], xs[1..];
      FilterSplitMultiset(rest, p, q);
      assert xs == [x] + rest;
      MultisetSplitStep(if p(x) then [x] else [], Filter(rest, p),
                        if q(x) then [x] else [], Filter(rest, q), x, rest);
    }
  }

  /** One element joining one side of a split keeps the two sides' union exact. */
  lemma MultisetSplitStep<T>(hp: seq<T>, fp: seq<T>, hq: seq<T>, fq: seq<T>, x: T, rest: seq<T>)
    requires multiset(fp) + multiset(fq) == multiset(rest)
    requires (hp == [x] && hq == []) || (hp == [] && hq == [x])
    ensures multiset(hp + fp) + multiset(hq + fq) == multiset([x] + rest)
  {
  }

  /** No element failing `p` stands before an element satisfying `p`. */
  ghost predicate PartitionedBy<T>(xs: seq<T>, p: T -> bool)
  {
    forall i, j :: 0 <= i < j < |xs| && p(xs[j]) ==> p(xs[i])
  }

  /** When no element satisfies `p`, filtering by `p` leaves nothing. */
  lemma FilterNone<T(!new)>(xs: seq<T>, p: T -> bool)
    requires forall x :: x in xs ==> !p(x)
    ensures Filter(xs, p) == []
  {
    if Filter(xs, p) != [] {
      assert Filter(xs, p)[0] in Filter(xs, p);
    }
  }

  /** The index of the first element failing `p`, or the length when none does. */
  function FirstFailing<T>(xs: seq<T>, p: T -> bool): (k: nat)
    ensures k <= |xs|
    ensures forall i :: 0 <= i < k ==> p(xs[i])
    ensures k < |xs| ==> !p(xs[k])
  {
    if xs == [] || !p(xs[0]) then 0 else 1 + FirstFailing(xs[1..], p)
  }

  /** A list partitioned by `p` is its `p`-part followed by the rest:
      the arrangement is fixed once each part's order is. */
  lemma PartitionedIsSplit<T(!new)>(xs: seq<T>, p: T -> bool, q: T -> bool)
    requires forall x :: q(x) <==> !p(x)
    requires PartitionedBy(xs, p)
    ensures xs == Filter(xs, p) + Filter(xs, q)
  {
    var k := FirstFailing(xs, p);
    var front, back := xs[..k], xs[k..];
    assert xs == front + back;
    assert forall x :: x in front ==> p(x) && !q(x);
    assert forall x :: x in back ==> !p(x) && q(x) by {
      forall x | x in back ensures !p(x) {
        var i :| 0 <= i < |back| && back[i] == x;
        assert xs[k + i] == x;
      }
    }
    assert Filter(xs, p) == front by {
      FilterConcat(front, back, p);
      FilterNone(back, p);
      assert Filter(front, p) == front;
      assert front + [] == front;
    }
    assert Filter(xs, q) == back by {
      FilterConcat(front, back, q);
      FilterNone(front, q);
      assert Filter(back, q) == back;
      assert [] + back == back;
    }
  }

  /** The images of `xs` under `f`, joined in order. */
  function ConcatMap<T, U>(xs: seq<T>, f: T -> seq<U>): seq<U>
  {
    if xs == [] then [] else ConcatMap(xs[..|xs| - 1], f) + f(xs[|xs| - 1])
  }

  /** Joining a concatenation joins each part. */
  lemma {:induction false} ConcatMapConcat<T, U>(xs: seq<T>, ys: seq<T>, f: T -> seq<U>)
    ensures ConcatMap(xs + ys, f) == ConcatMap(xs, f) + ConcatMap(ys, f)
    decreases |ys|
  {
    if ys == [] {
      assert xs + ys == xs;
    } else {
      var all, shorter := xs + ys, ys[..|ys| - 1];
      assert all[..|all| - 1] == xs + shorter;
      assert all[|all| - 1] == ys[|ys| - 1];
      ConcatMapConcat(xs, shorter, f);
    }
  }

  lemma SplitAt<T>(xs: seq<T>, i: nat)
    requires i < |xs|
    ensures xs[..i] + [xs[i]] == xs[..i + 1]
    ensures xs[..i + 1] + xs[i + 1..] == xs
  {
  }

  lemma SliceOfFront<T>(s: seq<T>, t: seq<T>, i: nat, j: nat)
    requires i <= j <= |s|
    ensures (s + t)[i..j] == s[i..j]
  {
  }

  lemma SliceOfLast<T>(s: seq<T>, t: seq<T>)
    ensures (s + t)[|s|..|s| + |t|] == t
  {
  }

  lemma TailOfConcat<T>(s: seq<T>, t: seq<T>)
    requires s != []
    ensures (s + t)[0] == s[0] && (s + t)[1..] == s[1..] + t
  {
  }

  lemma ConcatAssoc<T>(a: seq<T>, b: seq<T>, c: seq<T>)
    ensures a + (b + c) == (a + b) + c
  {
  }
}

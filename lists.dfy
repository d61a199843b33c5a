/** Generic facts about sequences, stated over a predicate or relation
    passed as a value so that proofs about them do not unfold it. */
module Lists {
  import opened Wrappers

  /** `[f(x) for x in xs]` where `f` may fail: the first element it rejects
      gives the error `err(x)`. */
  function Traverse<A, B, E>(xs: seq<A>, f: A -> Option<B>, err: A -> E): (r: Result<seq<B>, E>)
    ensures r.Success? ==> |r.value| == |xs|
  {
    if xs == [] then Success([])
    else match f(xs[0])
      case None => Failure(err(xs[0]))
      case Some(y) =>
        match Traverse(xs[1..], f, err)
        case Failure(e) => Failure(e)
        case Success(ys) => Success([y] + ys)
  }

  /** Element `i` of the result is `f` of element `i`. */
  lemma {:induction false} TraverseValues<A, B, E>(xs: seq<A>, f: A -> Option<B>, err: A -> E)
    requires Traverse(xs, f, err).Success?
    ensures forall i :: 0 <= i < |xs| ==> f(xs[i]) == Some(Traverse(xs, f, err).value[i])
  {
    if xs != [] {
      var rest := xs[1..];
      TraverseValues(rest, f, err);
      var r, ys := Traverse(xs, f, err).value, Traverse(rest, f, err).value;
      forall i | 1 <= i < |xs|
        ensures f(xs[i]) == Some(r[i])
      {
        assert xs[i] == rest[i - 1] && r[i] == ys[i - 1];
      }
    }
  }

  /** It succeeds exactly when `f` accepts every element. */
  lemma {:induction false} TraverseOk<A, B, E>(xs: seq<A>, f: A -> Option<B>, err: A -> E)
    ensures Traverse(xs, f, err).Success? <==> forall i :: 0 <= i < |xs| ==> f(xs[i]).Some?
  {
    if xs != [] {
      var rest := xs[1..];
      TraverseOk(rest, f, err);
      assert forall i :: 1 <= i < |xs| ==> xs[i] == rest[i - 1];
    }
  }

  /** A failure is the error of an element `f` rejects. */
  lemma {:induction false} TraverseError<A, B, E>(xs: seq<A>, f: A -> Option<B>, err: A -> E)
    requires Traverse(xs, f, err).Failure?
    ensures exists i :: 0 <= i < |xs| && f(xs[i]).None? && Traverse(xs, f, err).error == err(xs[i])
  {
    if f(xs[0]).Some? {
      var rest := xs[1..];
      TraverseError(rest, f, err);
      var j :| 0 <= j < |rest| && f(rest[j]).None? && Traverse(rest, f, err).error == err(rest[j]);
      assert rest[j] == xs[j + 1];
    }
  }

  /** `p` holds of every element of `xs`, checked from the end. */
  predicate All<T>(xs: seq<T>, p: T -> bool) {
    xs == [] || (All(xs[..|xs| - 1], p) && p(xs[|xs| - 1]))
  }

  lemma {:induction false} AllEach<T>(xs: seq<T>, p: T -> bool)
    ensures All(xs, p) <==> forall i :: 0 <= i < |xs| ==> p(xs[i])
  {
    if xs != [] {
      var init := xs[..|xs| - 1];
      AllEach(init, p);
      assert forall i :: 0 <= i < |init| ==> init[i] == xs[i];
    }
  }

  /** `xs` and `ys` have the same length and `rel` relates them position by
      position. */
  predicate Pairwise<A, B>(xs: seq<A>, ys: seq<B>, rel: (A, B) -> bool) {
    |xs| == |ys| && forall k :: 0 <= k < |xs| ==> rel(xs[k], ys[k])
  }

  lemma PairwiseSnoc<A, B>(xs: seq<A>, ys: seq<B>, x: A, y: B, rel: (A, B) -> bool)
    requires Pairwise(xs, ys, rel) && rel(x, y)
    ensures Pairwise(xs + [x], ys + [y], rel)
  {
    forall k | 0 <= k < |xs| + 1
      ensures rel((xs + [x])[k], (ys + [y])[k])
    {
      if k < |xs| {
        assert (xs + [x])[k] == xs[k] && (ys + [y])[k] == ys[k];
      }
    }
  }

  lemma PairwiseCons<A, B>(x: A, y: B, xs: seq<A>, ys: seq<B>, rel: (A, B) -> bool)
    requires rel(x, y) && Pairwise(xs, ys, rel)
    ensures Pairwise([x] + xs, [y] + ys, rel)
  {
    forall k | 0 <= k < |xs| + 1
      ensures rel(([x] + xs)[k], ([y] + ys)[k])
    {
      if k > 0 {
        assert ([x] + xs)[k] == xs[k - 1] && ([y] + ys)[k] == ys[k - 1];
      }
    }
  }

  lemma AppendAssoc<T>(a: seq<T>, b: seq<T>, c: seq<T>)
    ensures a + (b + c) == (a + b) + c
  {
  }

  /** A slice of a suffix is a slice of the whole. */
  lemma SliceOfSuffix<T>(s: seq<T>, i: nat, j: nat)
    requires i <= j <= |s|
    ensures s[i..][..j - i] == s[i..j]
  {
  }

  /** A slice one longer adds the next element. */
  lemma SliceSnoc<T>(s: seq<T>, i: nat, j: nat)
    requires i <= j < |s|
    ensures s[i..j + 1] == s[i..j] + [s[j]]
  {
  }

  /** No element occurs twice. */
  predicate Distinct<T(==)>(s: seq<T>) {
    forall i, j :: 0 <= i < j < |s| ==> s[i] != s[j]
  }

  /** A new element appended keeps the elements distinct. */
  lemma DistinctSnoc<T>(s: seq<T>, x: T)
    requires Distinct(s) && x !in s
    ensures Distinct(s + [x])
  {
    var t := s + [x];
    forall i, j | 0 <= i < j < |t|
      ensures t[i] != t[j]
    {
      if j < |s| {
        assert t[i] == s[i] && t[j] == s[j];
      } else {
        assert t[i] == s[i] && t[j] == x;
      }
    }
  }

  /** The first of distinct elements is not among the rest, which are
      distinct. */
  lemma DistinctTail<T>(s: seq<T>)
    requires Distinct(s) && s != []
    ensures Distinct(s[1..]) && s[0] !in s[1..]
  {
    forall i, j | 0 <= i < j < |s| - 1
      ensures s[1..][i] != s[1..][j]
    {
      assert s[1..][i] == s[i + 1] && s[1..][j] == s[j + 1];
    }
  }

  /** Two runs of distinct elements with none in common are distinct
      together. */
  lemma DistinctAppend<T>(a: seq<T>, b: seq<T>)
    requires Distinct(a) && Distinct(b)
    requires forall i, j :: 0 <= i < |a| && 0 <= j < |b| ==> a[i] != b[j]
    ensures Distinct(a + b)
  {
    var t := a + b;
    forall i, j | 0 <= i < j < |t|
      ensures t[i] != t[j]
    {
      if j < |a| {
        assert t[i] == a[i] && t[j] == a[j];
      } else if i < |a| {
        assert t[i] == a[i] && t[j] == b[j - |a|];
      } else {
        assert t[i] == b[i - |a|] && t[j] == b[j - |a|];
      }
    }
  }

  /** A non-empty sequence is its front followed by its last element. */
  lemma FrontAndLast<T>(s: seq<T>)
    requires s != []
    ensures s == s[..|s| - 1] + [s[|s| - 1]]
  {
  }

  /** Three elements put in front one at a time. */
  lemma ConsThree<T>(a: T, b: T, c: T, r: seq<T>)
    ensures [a] + ([b] + ([c] + r)) == [a, b, c] + r
  {
  }

  /** The middle of three concatenated sequences. */
  lemma SliceMiddle<T>(x: seq<T>, p: seq<T>, y: seq<T>)
    ensures (x + p + y)[|x|..|x| + |p|] == p
  {
  }

  lemma AppendNil<T>(s: seq<T>)
    ensures s + [] == s && [] + s == s
  {
  }

  /** Three elements in front, the third put in front of the rest first. */
  lemma TwoThenOne<T>(a: T, b: T, c: T, r: seq<T>)
    ensures [a, b, c] + r == [a, b] + ([c] + r)
  {
  }

  /** Two elements put in front one at a time. */
  lemma ConsTwo<T>(a: T, b: T, r: seq<T>)
    ensures [a] + ([b] + r) == [a, b] + r
  {
  }

  /** A common prefix cancels. */
  lemma CancelLeft<T>(a: seq<T>, x: seq<T>, y: seq<T>)
    requires a + x == a + y
    ensures x == y
  {
    assert x == (a + x)[|a|..] && y == (a + y)[|a|..];
  }

  /** A common prefix and a common suffix cancel. */
  lemma CancelAround<T>(a: seq<T>, x: seq<T>, y: seq<T>, b: seq<T>)
    requires a + x + b == a + y + b
    ensures x == y
  {
    assert |x| == |y|;
    assert x == (a + x + b)[|a|..|a| + |x|] && y == (a + y + b)[|a|..|a| + |y|];
  }
}

/** Values that may be absent and computations that may fail. */
module Wrappers {
  datatype Option<+T> = None | Some(value: T)

  datatype Result<+T, +E> = Ok(value: T) | Err(error: E) {
    predicate IsFailure() {
      Err?
    }

    function PropagateFailure<U>(): Result<U, E>
      requires Err?
    {
      Err(error)
    }

    function Extract(): T
      requires Ok?
    {
      value
    }
  }
}

/** Facts about lists as bags. */
module Bags {
  function Without<T>(s: seq<T>, k: nat): (r: seq<T>)
    requires k < |s|
  {
    s[..k] + s[k + 1..]
  }

  lemma {:induction false} TakeOut<T>(s: seq<T>, k: nat)
    requires k < |s|
    ensures multiset(s) == multiset(Without(s, k)) + multiset{s[k]}
    ensures |Without(s, k)| == |s| - 1
  {
    assert s == s[..k] + [s[k]] + s[k + 1..];
  }

  /** Equal elements have equal images. */
  ghost predicate SameImages<A(!new), B(!new)>(a: seq<A>, fa: seq<B>, b: seq<A>, fb: seq<B>) {
    && |a| == |fa| && |b| == |fb|
    && forall i, j :: 0 <= i < |a| && 0 <= j < |b| && a[i] == b[j] ==> fa[i] == fb[j]
  }

  lemma {:induction false} ImagesWithout<A(!new), B(!new)>(a: seq<A>, fa: seq<B>, b: seq<A>, fb: seq<B>, k: nat)
    requires SameImages(a, fa, b, fb) && 0 < |a| && k < |b|
    ensures SameImages(Without(a, 0), Without(fa, 0), Without(b, k), Without(fb, k))
  {
    var b', fb' := Without(b, k), Without(fb, k);
    forall j | 0 <= j < |b'|
      ensures var m := if j < k then j else j + 1; b'[j] == b[m] && fb'[j] == fb[m]
    {
    }
    forall i, j | 0 <= i < |a| - 1 && 0 <= j < |b'| && Without(a, 0)[i] == b'[j]
      ensures Without(fa, 0)[i] == fb'[j]
    {
      assert Without(a, 0)[i] == a[i + 1] && Without(fa, 0)[i] == fa[i + 1];
    }
  }

  /** Applying one function to the elements of two permutations gives permutations. */
  lemma {:induction false} ImagesPermute<A(!new), B(!new)>(a: seq<A>, fa: seq<B>, b: seq<A>, fb: seq<B>)
    requires SameImages(a, fa, b, fb)
    requires multiset(a) == multiset(b)
    ensures multiset(fa) == multiset(fb)
    decreases a, 1
  {
    assert |a| == |multiset(a)| == |b|;
    if a == [] {
      assert fa == [] && fb == [];
    } else {
      assert a[0] in multiset(b);
      var k :| 0 <= k < |b| && b[k] == a[0];
      RemoveBoth(a, fa, b, fb, k);
    }
  }

  lemma {:induction false} RemoveBoth<A(!new), B(!new)>(a: seq<A>, fa: seq<B>, b: seq<A>, fb: seq<B>, k: nat)
    requires SameImages(a, fa, b, fb)
    requires multiset(a) == multiset(b)
    requires 0 < |a| == |b| && k < |b| && b[k] == a[0]
    ensures multiset(fa) == multiset(fb)
    decreases a, 0
  {
    TakeOut(a, 0);
    TakeOut(b, k);
    TakeOut(fa, 0);
    TakeOut(fb, k);
    ImagesWithout(a, fa, b, fb, k);
    assert fa[0] == fb[k];
    hide Without, SameImages;
    assert multiset(Without(a, 0)) == multiset(a) - multiset{a[0]};
    assert multiset(Without(b, k)) == multiset(b) - multiset{b[k]};
    ImagesPermute(Without(a, 0), Without(fa, 0), Without(b, k), Without(fb, k));
  }
}

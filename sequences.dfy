/**
 * The list idioms the contracts repeat over Soroban `Vec`s: a linear scan for
 * an equal element, a filtered rebuild that drops every occurrence of one
 * value, and the "all distinct" property.
 */
module Sequences {

  /** `s` rebuilt without any element equal to `x`; the others keep their order. */
  function Without<T(==)>(s: seq<T>, x: T): seq<T>
    decreases |s|
  {
    if s == [] then []
    else Without(s[..|s| - 1], x) + (if s[|s| - 1] == x then [] else [s[|s| - 1]])
  }

  predicate NoDuplicates<T(==)>(s: seq<T>) {
    forall i, j :: 0 <= i < j < |s| ==> s[i] != s[j]
  }

  /** Filtering distributes over concatenation: this is "order is preserved". */
  lemma {:induction false} WithoutConcat<T>(a: seq<T>, b: seq<T>, x: T)
    ensures Without(a + b, x) == Without(a, x) + Without(b, x)
    decreases |b|
  {
    if b == [] {
      assert a + b == a;
    } else {
      var b' := b[..|b| - 1];
      assert (a + b)[..|a + b| - 1] == a + b';
      assert (a + b)[|a + b| - 1] == b[|b| - 1];
      WithoutConcat(a, b', x);
    }
  }

  /** Every occurrence of `x` is dropped and every other element keeps its multiplicity. */
  lemma {:induction false} WithoutMultiset<T>(s: seq<T>, x: T)
    ensures multiset(Without(s, x)) == multiset(s)[x := 0]
    decreases |s|
  {
    if s != [] {
      var init := s[..|s| - 1];
      WithoutMultiset(init, x);
      assert s == init + [s[|s| - 1]];
    }
  }

  /** Consequences of WithoutMultiset that callers use directly. */
  lemma WithoutMembers<T>(s: seq<T>, x: T)
    ensures x !in Without(s, x)
    ensures forall y :: y != x ==> (y in Without(s, x) <==> y in s)
    ensures |Without(s, x)| == |s| - multiset(s)[x]
  {
    WithoutMultiset(s, x);
    assert |multiset(Without(s, x))| == |Without(s, x)|;
    forall y | y != x
      ensures y in Without(s, x) <==> y in s
    {
      assert y in multiset(Without(s, x)) <==> y in multiset(s);
    }
  }

  /** Removing an absent value rebuilds the same list. */
  lemma {:induction false} WithoutAbsent<T>(s: seq<T>, x: T)
    requires x !in s
    ensures Without(s, x) == s
    decreases |s|
  {
    if s != [] {
      var init := s[..|s| - 1];
      assert x !in init;
      WithoutAbsent(init, x);
      assert s == init + [s[|s| - 1]];
    }
  }

  /** Appending keeps a list duplicate-free exactly when the new element is new. */
  lemma NoDuplicatesSnoc<T>(s: seq<T>, x: T)
    ensures NoDuplicates(s + [x]) <==> NoDuplicates(s) && x !in s
  {
    var t := s + [x];
    if NoDuplicates(t) {
      assert forall i, j :: 0 <= i < j < |s| ==> s[i] == t[i] && s[j] == t[j];
      forall k | 0 <= k < |s|
        ensures s[k] != x
      {
        assert t[k] == s[k] && t[|s|] == x;
      }
    }
    if NoDuplicates(s) && x !in s {
      forall i, j | 0 <= i < j < |t|
        ensures t[i] != t[j]
      {
        if j < |s| {
          assert t[i] == s[i] && t[j] == s[j];
        } else {
          assert t[i] == s[i] && t[j] == x;
        }
      }
    }
  }

  /** Prepending keeps a list duplicate-free exactly when the new element is new. */
  lemma NoDuplicatesCons<T>(x: T, s: seq<T>)
    ensures NoDuplicates([x] + s) <==> NoDuplicates(s) && x !in s
  {
    var t := [x] + s;
    if NoDuplicates(t) {
      forall i, j | 0 <= i < j < |s|
        ensures s[i] != s[j]
      {
        assert t[i + 1] == s[i] && t[j + 1] == s[j];
      }
      forall k | 0 <= k < |s|
        ensures s[k] != x
      {
        assert t[k + 1] == s[k] && t[0] == x;
      }
    }
    if NoDuplicates(s) && x !in s {
      forall i, j | 0 <= i < j < |t|
        ensures t[i] != t[j]
      {
        if i == 0 {
          assert t[j] == s[j - 1];
        } else {
          assert t[i] == s[i - 1] && t[j] == s[j - 1];
        }
      }
    }
  }

  /** Filtering a duplicate-free list leaves it duplicate-free. */
  lemma {:induction false} WithoutKeepsNoDuplicates<T>(s: seq<T>, x: T)
    requires NoDuplicates(s)
    ensures NoDuplicates(Without(s, x))
    decreases |s|
  {
    if s != [] {
      var init, last := s[..|s| - 1], s[|s| - 1];
      assert s == init + [last];
      NoDuplicatesSnoc(init, last);
      WithoutKeepsNoDuplicates(init, x);
      if last != x {
        WithoutMembers(init, x);
        NoDuplicatesSnoc(Without(init, x), last);
      }
    }
  }

  /** A linear scan, as `for i in 0..v.len() { if v.get(i) == x { .. } }`. */
  /** A prefix one longer is the prefix followed by the next element. */
  lemma TakeSnoc<T>(s: seq<T>, i: nat)
    requires i < |s|
    ensures s[..i + 1] == s[..i] + [s[i]]
  {
  }

  /** One step of growing `base + ids[..n]`: the list for `n - 1` with `ids[n - 1]` appended. */
  lemma SnocStep<T>(base: seq<T>, ids: seq<T>, n: nat, before: seq<T>, after: seq<T>)
    requires 0 < n <= |ids|
    requires before == base + ids[..n - 1] && after == before + [ids[n - 1]]
    ensures after == base + ids[..n]
  {
    assert ids[..n] == ids[..n - 1] + [ids[n - 1]];
  }

  method LinearContains<T(==)>(s: seq<T>, x: T) returns (found: bool)
    ensures found == (x in s)
  {
    var i := 0;
    while i < |s|
      invariant 0 <= i <= |s|
      invariant x !in s[..i]
    {
      if s[i] == x {
        return true;
      }
      assert s[..i + 1] == s[..i] + [s[i]];
      i := i + 1;
    }
    assert s[..i] == s;
    return false;
  }

  /**
   * The filtered rebuild: every element different from `x` is pushed onto a
   * fresh list, and `found` records whether `x` was seen.
   */
  method FilterOut<T(==)>(s: seq<T>, x: T) returns (kept: seq<T>, found: bool)
    ensures kept == Without(s, x)
    ensures found == (x in s)
  {
    kept, found := [], false;
    var i := 0;
    while i < |s|
      invariant 0 <= i <= |s|
      invariant kept == Without(s[..i], x)
      invariant found == (x in s[..i])
    {
      assert s[..i + 1][..i] == s[..i];
      assert s[..i + 1] == s[..i] + [s[i]];
      if s[i] == x {
        found := true;
      } else {
        kept := kept + [s[i]];
      }
      i := i + 1;
    }
    assert s[..i] == s;
  }
}

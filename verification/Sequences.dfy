/** Facts about finite sequences that several components share. */
module Sequences {

  datatype Option<+T> = None | Some(value: T)

  /** True iff no element occurs twice. */
  ghost predicate NoDup<T>(s: seq<T>) {
    forall i, j :: 0 <= i < j < |s| ==> s[i] != s[j]
  }

  /** Every element of `a` is one of `b`. */
  ghost predicate Within<T>(a: seq<T>, b: seq<T>) {
    forall i :: 0 <= i < |a| ==> a[i] in b
  }

  /** The elements of `s` that satisfy `keep`, in their order. */
  function Filter<T>(s: seq<T>, keep: T -> bool): seq<T> {
    if s == [] then []
    else if keep(s[|s| - 1]) then Filter(s[..|s| - 1], keep) + [s[|s| - 1]]
    else Filter(s[..|s| - 1], keep)
  }

  /** The test for being different from `x`. */
  function Differs<T(==)>(x: T): T -> bool {
    y => y != x
  }

  /** `s` with every occurrence of `x` removed. */
  function Without<T(==)>(s: seq<T>, x: T): seq<T> {
    Filter(s, Differs(x))
  }

  /** The first position of `x` in `s`. */
  function IndexOf<T(==)>(s: seq<T>, x: T): (i: nat)
    requires x in s
    ensures i < |s| && s[i] == x && x !in s[..i]
  {
    if s[0] == x then 0 else 1 + IndexOf(s[1..], x)
  }

  /** An element that differs from all before it is found at its own position. */
  lemma {:induction false} IndexOfFirst<T>(s: seq<T>, i: nat)
    requires i < |s| && forall j :: 0 <= j < i ==> s[j] != s[i]
    ensures IndexOf(s, s[i]) == i
  {
    if i > 0 {
      IndexOfFirst(s[1..], i - 1);
    }
  }

  /** `s` with `x` put in front of position `i`. */
  function InsertAt<T>(s: seq<T>, i: nat, x: T): seq<T>
    requires i <= |s|
  {
    s[..i] + [x] + s[i..]
  }

  lemma FilterEmpty<T>(keep: T -> bool)
    ensures Filter([], keep) == []
  {
  }

  lemma FilterSnoc<T>(s: seq<T>, x: T, keep: T -> bool)
    ensures Filter(s + [x], keep) == if keep(x) then Filter(s, keep) + [x] else Filter(s, keep)
  {
    assert (s + [x])[..|s|] == s;
  }

  /** Extending a prefix by the next element. */
  lemma FilterPrefix<T>(s: seq<T>, i: nat, keep: T -> bool)
    requires i < |s|
    ensures Filter(s[..i + 1], keep) ==
            if keep(s[i]) then Filter(s[..i], keep) + [s[i]] else Filter(s[..i], keep)
  {
    assert s[..i + 1] == s[..i] + [s[i]];
    FilterSnoc(s[..i], s[i], keep);
  }

  lemma {:induction false} FilterAppend<T>(a: seq<T>, b: seq<T>, keep: T -> bool)
    ensures Filter(a + b, keep) == Filter(a, keep) + Filter(b, keep)
  {
    if b == [] {
      assert a + b == a;
    } else {
      var c, x := b[..|b| - 1], b[|b| - 1];
      assert a + b == (a + c) + [x] && b == c + [x];
      FilterSnoc(a + c, x, keep);
      FilterAppend(a, c, keep);
    }
  }

  lemma {:induction false} FilterMember<T>(s: seq<T>, keep: T -> bool, x: T)
    ensures x in Filter(s, keep) <==> x in s && keep(x)
  {
    if s != [] {
      assert s == s[..|s| - 1] + [s[|s| - 1]];
      FilterMember(s[..|s| - 1], keep, x);
    }
  }

  lemma {:induction false} FilterNoDup<T>(s: seq<T>, keep: T -> bool)
    requires NoDup(s)
    ensures NoDup(Filter(s, keep))
  {
    if s != [] {
      var t, x := s[..|s| - 1], s[|s| - 1];
      FilterNoDup(t, keep);
      FilterMember(t, keep, x);
    }
  }

  lemma {:induction false} FilterWithin<T>(s: seq<T>, keep: T -> bool)
    ensures Within(Filter(s, keep), s)
  {
    if s != [] {
      FilterWithin(s[..|s| - 1], keep);
    }
  }

  lemma WithinTransitive<T>(a: seq<T>, b: seq<T>, c: seq<T>)
    requires Within(a, b) && Within(b, c)
    ensures Within(a, c)
  {
  }

  /** Removing the same element from both keeps one inside the other. */
  lemma WithoutWithin<T>(a: seq<T>, b: seq<T>, x: T)
    requires Within(a, b)
    ensures Within(Without(a, x), Without(b, x))
  {
    var a', b' := Without(a, x), Without(b, x);
    forall i | 0 <= i < |a'| ensures a'[i] in b' {
      FilterMember(a, Differs(x), a'[i]);
      FilterMember(b, Differs(x), a'[i]);
    }
  }

  /** Filters that agree on the elements give the same list. */
  lemma {:induction false} FilterSame<T>(s: seq<T>, p: T -> bool, q: T -> bool)
    requires forall i :: 0 <= i < |s| ==> p(s[i]) == q(s[i])
    ensures Filter(s, p) == Filter(s, q)
  {
    if s != [] {
      FilterSame(s[..|s| - 1], p, q);
    }
  }

  /** Filtering twice is filtering by both tests. */
  lemma {:induction false} FilterTwice<T>(s: seq<T>, p: T -> bool, q: T -> bool, both: T -> bool)
    requires forall i :: 0 <= i < |s| ==> both(s[i]) == (p(s[i]) && q(s[i]))
    ensures Filter(Filter(s, p), q) == Filter(s, both)
  {
    if s != [] {
      var t, x := s[..|s| - 1], s[|s| - 1];
      FilterTwice(t, p, q, both);
      if p(x) {
        FilterSnoc(Filter(t, p), x, q);
      }
    }
  }

  lemma {:induction false} FilterAll<T>(s: seq<T>, keep: T -> bool)
    requires forall i :: 0 <= i < |s| ==> keep(s[i])
    ensures Filter(s, keep) == s
  {
    if s != [] {
      FilterAll(s[..|s| - 1], keep);
      assert s == s[..|s| - 1] + [s[|s| - 1]];
    }
  }

  lemma {:induction false} FilterNone<T>(s: seq<T>, keep: T -> bool)
    requires forall i :: 0 <= i < |s| ==> !keep(s[i])
    ensures Filter(s, keep) == []
  {
    if s != [] {
      FilterNone(s[..|s| - 1], keep);
    }
  }

  lemma WithoutAbsent<T>(s: seq<T>, x: T)
    requires x !in s
    ensures Without(s, x) == s
  {
    FilterAll(s, Differs(x));
  }

  lemma WithoutInsert<T>(s: seq<T>, i: nat, x: T)
    requires i <= |s|
    ensures Without(InsertAt(s, i, x), x) == Without(s, x)
  {
    FilterAppend(s[..i] + [x], s[i..], Differs(x));
    FilterSnoc(s[..i], x, Differs(x));
    FilterAppend(s[..i], s[i..], Differs(x));
    assert s[..i] + s[i..] == s;
  }

  lemma WithoutTwice<T>(s: seq<T>, x: T)
    ensures Without(Without(s, x), x) == Without(s, x)
  {
    FilterTwice(s, Differs(x), Differs(x), Differs(x));
  }

  lemma InsertNoDup<T>(s: seq<T>, i: nat, x: T)
    requires i <= |s| && NoDup(s) && x !in s
    ensures NoDup(InsertAt(s, i, x))
  {
  }
}

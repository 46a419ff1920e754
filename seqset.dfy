/** Sequences used as insertion-ordered sets. The download queue keeps its
    `order` array this way, and the content script's selection is a JavaScript
    `Set`, which iterates in insertion order. */
module SeqSet {

  predicate Distinct<T(==,!new)>(s: seq<T>) {
    forall i, j :: 0 <= i < j < |s| ==> s[i] != s[j]
  }

  /** The elements of `s` as a set. */
  function Elems<T(!new)>(s: seq<T>): set<T> {
    set x | x in s
  }

  /** `s.filter(e => e !== x)`: drops every occurrence of `x`, keeps the rest in order. */
  function Without<T(==,!new)>(s: seq<T>, x: T): (r: seq<T>)
    ensures forall e :: e in r <==> e in s && e != x
    ensures |r| <= |s|
    ensures Distinct(s) ==> Distinct(r)
    ensures x !in s ==> r == s
  {
    RemoveAll(s, {x})
  }

  /** `s.filter(e => !xs.has(e))`. */
  function RemoveAll<T(==,!new)>(s: seq<T>, xs: set<T>): (r: seq<T>)
    ensures forall e :: e in r <==> e in s && e !in xs
    ensures |r| <= |s|
    ensures Distinct(s) ==> Distinct(r)
    ensures (forall e :: e in s ==> e !in xs) ==> r == s
  {
    if s == [] then []
    else if s[0] in xs then RemoveAll(s[1..], xs)
    else [s[0]] + RemoveAll(s[1..], xs)
  }

  /** Filtering distributes over concatenation: what survives keeps its relative order. */
  lemma {:induction false} RemoveAllAppend<T(!new)>(a: seq<T>, b: seq<T>, xs: set<T>)
    ensures RemoveAll(a + b, xs) == RemoveAll(a, xs) + RemoveAll(b, xs)
  {
    if a != [] {
      assert (a + b)[0] == a[0] && (a + b)[1..] == a[1..] + b;
      RemoveAllAppend(a[1..], b, xs);
      if a[0] !in xs {
        calc {
          RemoveAll(a + b, xs);
          [a[0]] + RemoveAll(a[1..] + b, xs);
          [a[0]] + (RemoveAll(a[1..], xs) + RemoveAll(b, xs));
          ([a[0]] + RemoveAll(a[1..], xs)) + RemoveAll(b, xs);
        }
      }
    } else {
      assert a + b == b;
    }
  }

  /** Removing the ids of a set one after the other is one filter by the whole set. */
  lemma {:induction false} WithoutAfterRemoveAll<T(!new)>(s: seq<T>, xs: set<T>, x: T)
    ensures Without(RemoveAll(s, xs), x) == RemoveAll(s, xs + {x})
  {
    if s != [] {
      WithoutAfterRemoveAll(s[1..], xs, x);
    }
  }

  /** JavaScript `Set.prototype.add`: an element already present keeps its place. */
  function Add<T(==,!new)>(s: seq<T>, x: T): (r: seq<T>)
    ensures forall e :: e in r <==> e in s || e == x
    ensures Distinct(s) ==> Distinct(r)
    ensures x in s ==> r == s
  {
    if x in s then s else s + [x]
  }

  /** `Add` of each element of `xs` in turn. */
  function AddAll<T(==,!new)>(s: seq<T>, xs: seq<T>): (r: seq<T>)
    ensures forall e :: e in r <==> e in s || e in xs
    ensures Distinct(s) ==> Distinct(r)
    ensures |s| <= |r| && r[..|s|] == s
  {
    if xs == [] then s else Add(AddAll(s, xs[..|xs| - 1]), xs[|xs| - 1])
  }

  /** `Array.prototype.indexOf`: the first position of `x`, or -1. */
  function IndexOf<T(==,!new)>(s: seq<T>, x: T): (i: int)
    ensures -1 <= i < |s|
    ensures i == -1 <==> x !in s
    ensures 0 <= i ==> s[i] == x && x !in s[..i]
  {
    if s == [] then -1
    else if s[0] == x then 0
    else
      var k := IndexOf(s[1..], x);
      assert k >= 0 ==> s[1..][..k] == s[1..k + 1];
      if k == -1 then -1 else k + 1
  }

  /** Appending leaves the first position of every element already present. */
  lemma {:induction false} IndexOfAppend<T(!new)>(s: seq<T>, x: T, y: T)
    ensures IndexOf(s + [x], y) == if y in s then IndexOf(s, y) else if y == x then |s| else -1
  {
    if s != [] {
      assert (s + [x])[1..] == s[1..] + [x];
      IndexOfAppend(s[1..], x, y);
    } else {
      assert s + [x] == [x];
    }
  }

  function RemoveAt<T>(s: seq<T>, i: nat): (r: seq<T>)
    requires i < |s|
    ensures |r| == |s| - 1
  {
    s[..i] + s[i + 1..]
  }

  function InsertAt<T>(s: seq<T>, i: nat, x: T): (r: seq<T>)
    requires i <= |s|
    ensures |r| == |s| + 1 && r[i] == x
  {
    s[..i] + [x] + s[i..]
  }

  /** Taking an element out and putting it back elsewhere is a permutation. */
  lemma MoveIsPermutation<T>(s: seq<T>, i: nat, j: nat)
    requires i < |s| && j <= |s| - 1
    ensures multiset(InsertAt(RemoveAt(s, i), j, s[i])) == multiset(s)
  {
    var t := RemoveAt(s, i);
    assert s == s[..i] + [s[i]] + s[i + 1..];
    assert t == t[..j] + t[j..];
    calc {
      multiset(InsertAt(t, j, s[i]));
      multiset(t[..j]) + multiset{s[i]} + multiset(t[j..]);
      multiset(t) + multiset{s[i]};
      multiset(s[..i]) + multiset(s[i + 1..]) + multiset{s[i]};
      multiset(s);
    }
  }

  /** A permutation of a duplicate-free sequence is duplicate-free. */
  lemma PermutationKeepsDistinct<T(!new)>(s: seq<T>, t: seq<T>)
    requires Distinct(s) && multiset(s) == multiset(t)
    ensures Distinct(t)
  {
    forall i, j | 0 <= i < j < |t|
      ensures t[i] != t[j]
    {
      if t[i] == t[j] {
        assert t == t[..i] + [t[i]] + t[i + 1..j] + [t[j]] + t[j + 1..];
        assert multiset(t)[t[i]] >= 2;
        DistinctCountsOnce(s, t[i]);
        assert false;
      }
    }
  }

  lemma {:induction false} DistinctCountsOnce<T(!new)>(s: seq<T>, x: T)
    requires Distinct(s)
    ensures multiset(s)[x] <= 1
  {
    if s != [] {
      assert s == [s[0]] + s[1..];
      assert Distinct(s[1..]);
      DistinctCountsOnce(s[1..], x);
      if x == s[0] {
        assert x !in s[1..];
      }
    }
  }
}

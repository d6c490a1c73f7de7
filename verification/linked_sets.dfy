/**
 Insertion-ordered, duplicate-free sequences: the `LinkedHashSet` a vertex keeps
 its edges in, and the order-preserving stream filter its queries use.
 */
module LinkedSets {

  /** No element occurs twice. */
  ghost predicate NoDup<T>(s: seq<T>) {
    forall i, j | 0 <= i < j < |s| :: s[i] != s[j]
  }

  /** `a` is `b` with some elements dropped and the rest kept in order. */
  ghost predicate IsSubsequence<T>(a: seq<T>, b: seq<T>)
    decreases |b|
  {
    if a == [] then true
    else if b == [] then false
    else if a[0] == b[0] then IsSubsequence(a[1..], b[1..])
    else IsSubsequence(a, b[1..])
  }

  /** `LinkedHashSet.add`: appends `x` unless it is already there. */
  function Insert<T(==,!new)>(s: seq<T>, x: T): (r: seq<T>)
    ensures forall y :: y in r <==> y in s || y == x
    ensures s <= r
    ensures NoDup(s) ==> NoDup(r)
    ensures x in s ==> r == s
  {
    if x in s then s else s + [x]
  }

  /** The elements of `s` that are not in `drop`, in their order in `s`:
      `LinkedHashSet.remove`, once per element of `drop`. */
  function Without<T(==,!new)>(s: seq<T>, drop: set<T>): (r: seq<T>)
    ensures forall y :: y in r <==> y in s && y !in drop
    ensures |r| <= |s|
    ensures NoDup(s) ==> NoDup(r)
    ensures (forall y | y in s :: y !in drop) ==> r == s
  {
    if s == [] then []
    else if s[0] in drop then Without(s[1..], drop)
    else [s[0]] + Without(s[1..], drop)
  }

  /** `stream().filter(keep)`: the elements of `s` that pass `keep`, in order. */
  function Select<T(!new)>(s: seq<T>, keep: T -> bool): (r: seq<T>)
    ensures forall y :: y in r <==> y in s && keep(y)
    ensures |r| <= |s|
    ensures (forall i | 0 <= i < |s| :: keep(s[i])) ==> r == s
    ensures forall y :: multiset(r)[y] == (if keep(y) then multiset(s)[y] else 0)
  {
    if s == [] then []
    else
      var rest := Select(s[1..], keep);
      assert multiset(s) == multiset{s[0]} + multiset(s[1..]) by {
        assert s == [s[0]] + s[1..];
      }
      if keep(s[0]) then [s[0]] + rest else rest
  }

  /** The set of elements of a sequence. */
  function Elements<T>(s: seq<T>): set<T> {
    set x | x in s
  }

  /** The elements of a non-empty sequence are its first and the rest's. */
  lemma ElementsCons<T>(s: seq<T>)
    requires s != []
    ensures Elements(s) == {s[0]} + Elements(s[1..])
  {
    assert s == [s[0]] + s[1..];
  }

  /** Filtering keeps the passing elements in their order. */
  lemma {:induction false} SelectKeepsOrder<T(!new)>(s: seq<T>, keep: T -> bool)
    ensures IsSubsequence(Select(s, keep), s)
  {
    if s != [] {
      SelectKeepsOrder(s[1..], keep);
      if keep(s[0]) {
        assert Select(s, keep)[0] == s[0];
        assert Select(s, keep)[1..] == Select(s[1..], keep);
      }
    }
  }

  /** A subsequence of a duplicate-free sequence is duplicate-free. */
  lemma {:induction false} SubsequenceKeepsNoDup<T>(a: seq<T>, b: seq<T>)
    requires IsSubsequence(a, b) && NoDup(b)
    ensures NoDup(a)
    decreases |b|
  {
    if a != [] && b != [] {
      assert NoDup(b[1..]);
      SubsequenceKeepsNoDup(if a[0] == b[0] then a[1..] else a, b[1..]);
      if a[0] == b[0] {
        SubsequenceKeepsElements(a[1..], b[1..]);
        forall j | 0 < j < |a| ensures a[0] != a[j] {
          assert a[1..][j - 1] == a[j];
          assert a[j] in b[1..];
          var k :| 0 <= k < |b[1..]| && b[1..][k] == a[j];
          assert b[k + 1] == a[j];
        }
      }
    }
  }

  /** Every element of a subsequence is an element of the whole. */
  lemma {:induction false} SubsequenceKeepsElements<T>(a: seq<T>, b: seq<T>)
    requires IsSubsequence(a, b)
    ensures forall y | y in a :: y in b
    decreases |b|
  {
    if a != [] && b != [] {
      if a[0] == b[0] {
        SubsequenceKeepsElements(a[1..], b[1..]);
        assert forall y | y in a :: y == a[0] || y in a[1..];
      } else {
        SubsequenceKeepsElements(a, b[1..]);
      }
    }
  }

  /** Removal keeps the surviving elements in their order. */
  lemma {:induction false} WithoutKeepsOrder<T(!new)>(s: seq<T>, drop: set<T>)
    ensures IsSubsequence(Without(s, drop), s)
  {
    if s != [] {
      WithoutKeepsOrder(s[1..], drop);
      if s[0] !in drop {
        assert Without(s, drop)[0] == s[0];
        assert Without(s, drop)[1..] == Without(s[1..], drop);
      }
    }
  }

  /** Removing one set of elements and then another is removing their union. */
  lemma {:induction false} WithoutTwice<T(!new)>(s: seq<T>, a: set<T>, b: set<T>)
    ensures Without(Without(s, a), b) == Without(s, a + b)
  {
    if s != [] {
      WithoutTwice(s[1..], a, b);
      if s[0] !in a {
        assert Without(s, a) == [s[0]] + Without(s[1..], a);
        assert Without(s, a)[1..] == Without(s[1..], a);
      }
    }
  }

  /** Removing the element just appended, and nothing else, restores the
      sequence. */
  lemma {:induction false} WithoutLast<T(!new)>(s: seq<T>, x: T)
    requires x !in s
    ensures Without(s + [x], {x}) == s
  {
    if s == [] {
      assert s + [x] == [x];
    } else {
      var t := s + [x];
      assert t[0] == s[0] && t[1..] == s[1..] + [x];
      WithoutLast(s[1..], x);
      assert Without(t, {x}) == [s[0]] + Without(s[1..] + [x], {x});
      assert s == [s[0]] + s[1..];
    }
  }

  /** Removing every element leaves nothing. */
  lemma WithoutEverything<T(!new)>(s: seq<T>, drop: set<T>)
    requires forall y | y in s :: y in drop
    ensures Without(s, drop) == []
  {
  }
}

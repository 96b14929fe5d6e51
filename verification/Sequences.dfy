/** Inserting into and removing from a sequence, and what that does to its elements. */
module Sequences {
  function Inserted<T>(s: seq<T>, k: int, x: T): seq<T>
    requires 0 <= k <= |s|
  {
    s[..k] + [x] + s[k..]
  }

  function Without<T>(s: seq<T>, k: int): seq<T>
    requires 0 <= k < |s|
  {
    s[..k] + s[k + 1..]
  }

  lemma InsertedAt<T>(s: seq<T>, k: int, x: T)
    requires 0 <= k <= |s|
    ensures forall y :: y in Inserted(s, k, x) <==> y == x || y in s
  {
    forall y | y in s ensures y in Inserted(s, k, x) {
      var i :| 0 <= i < |s| && s[i] == y;
      assert Inserted(s, k, x)[if i < k then i else i + 1] == y;
    }
    assert Inserted(s, k, x)[k] == x;
  }

  lemma InsertedDistinct<T>(s: seq<T>, k: int, x: T)
    requires 0 <= k <= |s| && x !in s
    requires forall i, j :: 0 <= i < j < |s| ==> s[i] != s[j]
    ensures forall i, j :: 0 <= i < j < |s| + 1 ==> Inserted(s, k, x)[i] != Inserted(s, k, x)[j]
  {
    var r := Inserted(s, k, x);
    forall i | 0 <= i < |r| ensures r[i] == if i < k then s[i] else if i == k then x else s[i - 1] {
    }
  }

  lemma WithoutOne<T>(s: seq<T>, k: int)
    requires 0 <= k < |s| && forall i, j :: 0 <= i < j < |s| ==> s[i] != s[j]
    ensures forall y :: y in Without(s, k) <==> y in s && y != s[k]
    ensures forall i, j :: 0 <= i < j < |s| - 1 ==> Without(s, k)[i] != Without(s, k)[j]
  {
    var r := Without(s, k);
    forall i | 0 <= i < |r| ensures r[i] == (if i < k then s[i] else s[i + 1]) && r[i] != s[k] {
    }
    forall y | y in s && y != s[k] ensures y in r {
      var i :| 0 <= i < |s| && s[i] == y;
      assert r[if i < k then i else i - 1] == y;
    }
  }

  ghost predicate Distinct<T>(s: seq<T>) {
    forall i, j :: 0 <= i < j < |s| ==> s[i] != s[j]
  }

  /** The first position of `x`, or `|s|`. */
  function IndexOf<T(==)>(s: seq<T>, x: T): (k: nat)
    ensures k <= |s| && (k < |s| <==> x in s) && (k < |s| ==> s[k] == x)
    ensures x !in s[..k]
  {
    if s == [] || s[0] == x then 0 else
      var k := IndexOf(s[1..], x);
      assert s[..k + 1] == [s[0]] + s[1..][..k];
      k + 1
  }

  /** `s` with one occurrence of `x` taken out, as list_delete takes a node out. */
  function Removed<T(==)>(s: seq<T>, x: T): seq<T> {
    if x in s then Without(s, IndexOf(s, x)) else s
  }

  lemma RemovedOne<T>(s: seq<T>, x: T)
    requires Distinct(s)
    ensures Distinct(Removed(s, x)) && forall y :: y in Removed(s, x) <==> y in s && y != x
  {
    if x in s { WithoutOne(s, IndexOf(s, x)); }
  }

  lemma SplitDistinct<T>(s: seq<T>, k: int)
    requires Distinct(s) && 0 <= k <= |s|
    ensures Distinct(s[..k]) && Distinct(s[k..])
    ensures forall y :: y in s <==> y in s[..k] || y in s[k..]
    ensures forall y :: !(y in s[..k] && y in s[k..])
  {
    assert s == s[..k] + s[k..];
  }

  lemma WithoutIndex<T>(s: seq<T>, k: int)
    requires 0 <= k < |s|
    ensures forall j :: 0 <= j < |s| - 1 ==> Without(s, k)[j] == s[if j < k then j else j + 1]
  {
  }

  lemma InsertedIndex<T>(s: seq<T>, k: int, x: T)
    requires 0 <= k <= |s|
    ensures forall j :: 0 <= j <= |s| ==> Inserted(s, k, x)[j] == if j < k then s[j] else if j == k then x else s[j - 1]
  {
    var r := Inserted(s, k, x);
    forall j | 0 <= j < |r| ensures r[j] == if j < k then s[j] else if j == k then x else s[j - 1] {
    }
  }

  lemma InsertedBag<T>(s: seq<T>, k: int, x: T)
    requires 0 <= k <= |s|
    ensures multiset(Inserted(s, k, x)) == multiset(s) + multiset{x}
  {
    assert s == s[..k] + s[k..];
  }

  lemma WithoutBag<T>(s: seq<T>, k: int)
    requires 0 <= k < |s|
    ensures multiset(s) == multiset(Without(s, k)) + multiset{s[k]}
  {
    assert s == s[..k] + [s[k]] + s[k + 1..];
  }

  lemma AppendDistinct<T>(s: seq<T>, x: T)
    requires Distinct(s) && x !in s
    ensures Distinct(s + [x]) && forall y :: y in s + [x] <==> y in s || y == x
  {
  }

  lemma RotateDistinct<T>(s: seq<T>)
    requires Distinct(s) && s != []
    ensures Distinct(s[1..] + [s[0]]) && forall y :: y in s[1..] + [s[0]] <==> y in s
  {
    assert s == [s[0]] + s[1..];
  }

  lemma TailDistinct<T>(s: seq<T>)
    requires Distinct(s) && s != []
    ensures Distinct(s[1..]) && forall y :: y in s[1..] <==> y in s && y != s[0]
  {
    assert s == [s[0]] + s[1..];
  }

  lemma IndexOfAtMost<T>(s: seq<T>, x: T, j: nat)
    requires j < |s| && s[j] == x
    ensures IndexOf(s, x) <= j
  {
  }
}

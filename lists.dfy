/** The few `List<T>` operations the game relies on, stated over sequences. */
module Lists {

  /** The elements of a list, as a set (what `new HashSet<T>(list)` builds). */
  function Elements<T>(s: seq<T>): set<T> {
    set x | x in s
  }

  /** No element occurs twice. */
  predicate Distinct<T(==)>(s: seq<T>) {
    forall i, j :: 0 <= i < j < |s| ==> s[i] != s[j]
  }

  /** The position of the first occurrence of x (what `List<T>.IndexOf` reports). */
  function IndexOf<T(==)>(s: seq<T>, x: T): (i: nat)
    requires x in s
    ensures i < |s| && s[i] == x && x !in s[..i]
  {
    if s[0] == x then 0 else 1 + IndexOf(s[1..], x)
  }

  /** `List<T>.Remove(x)`: drops the first occurrence of x, if there is one. */
  function RemoveFirst<T(==)>(s: seq<T>, x: T): (r: seq<T>)
    ensures x !in s ==> r == s
    ensures x in s ==> r == s[..IndexOf(s, x)] + s[IndexOf(s, x) + 1..]
  {
    if s == [] then []
    else if s[0] == x then s[1..]
    else
      var r' := RemoveFirst(s[1..], x);
      if x in s[1..] then
        var t := s[1..];
        var i := IndexOf(t, x);
        assert IndexOf(s, x) == i + 1;
        assert r' == t[..i] + t[i + 1..];
        assert s[..i + 1] == [s[0]] + t[..i];
        assert s[i + 2..] == t[i + 1..];
        [s[0]] + r'
      else
        assert s == [s[0]] + s[1..];
        [s[0]] + r'
  }

  /** `Remove` takes exactly one occurrence of x out of the list, when there is one. */
  lemma {:induction false} RemoveFirstMultiset<T>(s: seq<T>, x: T)
    ensures multiset(RemoveFirst(s, x)) == multiset(s) - multiset{x}
  {
    if s != [] {
      assert s == [s[0]] + s[1..];
      if s[0] != x {
        RemoveFirstMultiset(s[1..], x);
        assert RemoveFirst(s, x) == [s[0]] + RemoveFirst(s[1..], x);
      }
    }
  }

  /** Removing from a list without repeats keeps it without repeats and removes x from its elements. */
  lemma {:induction false} RemoveFirstDistinct<T>(s: seq<T>, x: T)
    requires Distinct(s)
    ensures Distinct(RemoveFirst(s, x))
    ensures Elements(RemoveFirst(s, x)) == Elements(s) - {x}
  {
    if s != [] {
      var t := s[1..];
      assert s == [s[0]] + t;
      assert Distinct(t);
      assert s[0] !in t;
      assert Elements(s) == {s[0]} + Elements(t);
      if s[0] != x {
        RemoveFirstDistinct(t, x);
        var r' := RemoveFirst(t, x);
        assert RemoveFirst(s, x) == [s[0]] + r';
        assert s[0] !in Elements(r');
        ElementsCons(s[0], r');
        DistinctCons(s[0], r');
      }
    }
  }

  /** The elements of a list with one entry put in front. */
  lemma ElementsCons<T>(a: T, r: seq<T>)
    ensures Elements([a] + r) == {a} + Elements(r)
  {
    assert forall y :: y in [a] + r <==> y == a || y in r;
  }

  lemma DistinctCons<T>(a: T, r: seq<T>)
    requires Distinct(r) && a !in r
    ensures Distinct([a] + r)
  {
    forall i, j | 0 <= i < j < |[a] + r| ensures ([a] + r)[i] != ([a] + r)[j] {
      if i == 0 {
        assert ([a] + r)[j] == r[j - 1];
      } else {
        assert ([a] + r)[i] == r[i - 1];
        assert ([a] + r)[j] == r[j - 1];
      }
    }
  }

  /** Undoing a tentative `Add` with `Remove` restores the list, provided x was not there. */
  lemma {:induction false} RemoveAppended<T>(s: seq<T>, x: T)
    requires x !in s
    ensures RemoveFirst(s + [x], x) == s
  {
    if s != [] {
      assert (s + [x])[1..] == s[1..] + [x];
      RemoveAppended(s[1..], x);
    }
  }

  /** A list has at least as many entries as distinct elements. */
  lemma {:induction false} ElementsBound<T>(s: seq<T>)
    ensures |Elements(s)| <= |s|
    ensures Distinct(s) ==> |Elements(s)| == |s|
  {
    if s != [] {
      ElementsBound(s[1..]);
      assert Elements(s) == {s[0]} + Elements(s[1..]);
      if Distinct(s) {
        assert s[0] !in Elements(s[1..]);
      }
    }
  }

  lemma DistinctSnoc<T>(r: seq<T>, a: T)
    requires Distinct(r) && a !in r
    ensures Distinct(r + [a])
  {
    forall i, j | 0 <= i < j < |r + [a]| ensures (r + [a])[i] != (r + [a])[j] {
      if j == |r| {
        assert (r + [a])[i] == r[i];
      }
    }
  }
}

/**
 * The stable sort both languages' standard libraries provide (`Array.prototype.sort`, `slice::sort_by`).
 * `StableSortUnique` shows that sortedness and stability leave only one possible answer, so the
 * insertion sort below stands for any implementation of it.
 */
module StableSort {
  ghost predicate TotalPreorder<T(!new)>(le: (T, T) -> bool) {
    && (forall x, y :: le(x, y) || le(y, x))
    && (forall x, y, z :: le(x, y) && le(y, z) ==> le(x, z))
  }

  ghost predicate Sorted<T>(le: (T, T) -> bool, s: seq<T>) {
    forall i, j | 0 <= i < j < |s| :: le(s[i], s[j])
  }

  function InsertInto<T>(le: (T, T) -> bool, x: T, s: seq<T>): seq<T> {
    if s == [] || le(x, s[0]) then [x] + s else [s[0]] + InsertInto(le, x, s[1..])
  }

  function Sort<T>(le: (T, T) -> bool, s: seq<T>): seq<T> {
    if s == [] then [] else InsertInto(le, s[0], Sort(le, s[1..]))
  }

  lemma {:induction false} InsertPermutes<T>(le: (T, T) -> bool, x: T, s: seq<T>)
    ensures multiset(InsertInto(le, x, s)) == multiset{x} + multiset(s)
  {
    if s == [] || le(x, s[0]) {
    } else {
      InsertPermutes(le, x, s[1..]);
      assert s == [s[0]] + s[1..];
    }
  }

  lemma {:induction false} SortPermutes<T>(le: (T, T) -> bool, s: seq<T>)
    ensures multiset(Sort(le, s)) == multiset(s)
    ensures |Sort(le, s)| == |s|
  {
    if s != [] {
      SortPermutes(le, s[1..]);
      InsertPermutes(le, s[0], Sort(le, s[1..]));
      assert s == [s[0]] + s[1..];
    }
    assert |multiset(Sort(le, s))| == |multiset(s)|;
  }

  lemma {:induction false} InsertSorts<T(!new)>(le: (T, T) -> bool, x: T, s: seq<T>)
    requires TotalPreorder(le) && Sorted(le, s)
    ensures Sorted(le, InsertInto(le, x, s))
  {
    if s == [] || le(x, s[0]) {
    } else {
      InsertSorts(le, x, s[1..]);
      InsertPermutes(le, x, s[1..]);
      var r := InsertInto(le, x, s[1..]);
      forall j | 0 <= j < |r|
        ensures le(s[0], r[j])
      {
        assert r[j] in multiset(r);
      }
    }
  }

  lemma {:induction false} SortSorts<T(!new)>(le: (T, T) -> bool, s: seq<T>)
    requires TotalPreorder(le)
    ensures Sorted(le, Sort(le, s))
  {
    if s != [] {
      SortSorts(le, s[1..]);
      InsertSorts(le, s[0], Sort(le, s[1..]));
    }
  }

  /** The elements of `s` that tie with `k`, in the order they have in `s`. */
  function Ties<T>(le: (T, T) -> bool, s: seq<T>, k: T): seq<T> {
    if s == [] then []
    else (if le(s[0], k) && le(k, s[0]) then [s[0]] else []) + Ties(le, s[1..], k)
  }

  lemma {:induction false} InsertStable<T(!new)>(le: (T, T) -> bool, x: T, s: seq<T>, k: T)
    requires TotalPreorder(le)
    ensures Ties(le, InsertInto(le, x, s), k) == Ties(le, [x] + s, k)
  {
    assert ([x] + s)[1..] == s;
    if s == [] || le(x, s[0]) {
    } else {
      InsertStable(le, x, s[1..], k);
      assert ([x] + s[1..])[1..] == s[1..];
      assert InsertInto(le, x, s)[1..] == InsertInto(le, x, s[1..]);
    }
  }

  /** Elements that tie keep their order. */
  lemma {:induction false} SortStable<T(!new)>(le: (T, T) -> bool, s: seq<T>, k: T)
    requires TotalPreorder(le)
    ensures Ties(le, Sort(le, s), k) == Ties(le, s, k)
  {
    if s != [] {
      SortStable(le, s[1..], k);
      InsertStable(le, s[0], Sort(le, s[1..]), k);
      assert ([s[0]] + Sort(le, s[1..]))[1..] == Sort(le, s[1..]);
    }
  }

  lemma {:induction false} TiesMember<T(!new)>(le: (T, T) -> bool, s: seq<T>, k: T)
    requires TotalPreorder(le)
    requires Sorted(le, s)
    ensures Ties(le, s, k) != [] ==> s != [] && le(s[0], k)
  {
    if s != [] && Ties(le, s, k) != [] && !(le(s[0], k) && le(k, s[0])) {
      TiesMember(le, s[1..], k);
    }
  }

  lemma {:induction false} SameTiesSameSeq<T(!new)>(le: (T, T) -> bool, a: seq<T>, b: seq<T>)
    requires TotalPreorder(le) && Sorted(le, a) && Sorted(le, b)
    requires forall k :: Ties(le, a, k) == Ties(le, b, k)
    ensures a == b
    decreases |a| + |b|
  {
    if a == [] && b == [] {
    } else {
      if a != [] { assert Ties(le, a, a[0])[0] == a[0]; TiesMember(le, b, a[0]); }
      if b != [] { assert Ties(le, b, b[0])[0] == b[0]; TiesMember(le, a, b[0]); }
      assert Ties(le, a, a[0])[0] == a[0] && Ties(le, b, a[0])[0] == b[0];
      forall k
        ensures Ties(le, a[1..], k) == Ties(le, b[1..], k)
      {
        var first := if le(a[0], k) && le(k, a[0]) then [a[0]] else [];
        assert Ties(le, a, k) == first + Ties(le, a[1..], k);
        assert Ties(le, b, k) == first + Ties(le, b[1..], k);
        assert Ties(le, a, k)[|first|..] == Ties(le, a[1..], k);
        assert Ties(le, b, k)[|first|..] == Ties(le, b[1..], k);
      }
      SameTiesSameSeq(le, a[1..], b[1..]);
    }
  }

  /** Any sorted, stable rearrangement of `s` is `Sort(le, s)`. */
  lemma StableSortUnique<T(!new)>(le: (T, T) -> bool, s: seq<T>, r: seq<T>)
    requires TotalPreorder(le) && Sorted(le, r)
    requires forall k :: Ties(le, r, k) == Ties(le, s, k)
    ensures r == Sort(le, s)
  {
    SortSorts(le, s);
    forall k
      ensures Ties(le, Sort(le, s), k) == Ties(le, s, k)
    {
      SortStable(le, s, k);
    }
    SameTiesSameSeq(le, r, Sort(le, s));
  }
}

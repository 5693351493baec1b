/** Lists: all but the last element and the last, filtering, and lists that hold nothing twice. */
module Sequences {
  function Init<T>(s: seq<T>): seq<T>
    requires s != []
  {
    s[..|s| - 1]
  }

  function Last<T>(s: seq<T>): T
    requires s != []
  {
    s[|s| - 1]
  }

  function Filtered<T>(s: seq<T>, keep: T -> bool): seq<T> {
    if s == [] then [] else Filtered(Init(s), keep) + (if keep(Last(s)) then [Last(s)] else [])
  }

  lemma FilteredStep<T>(s: seq<T>, keep: T -> bool)
    requires s != []
    ensures keep(Last(s)) ==> Filtered(s, keep) == Filtered(Init(s), keep) + [Last(s)]
    ensures !keep(Last(s)) ==> Filtered(s, keep) == Filtered(Init(s), keep)
  {
  }

  lemma {:induction false} FilteredMembers<T>(s: seq<T>, keep: T -> bool)
    ensures forall x :: x in Filtered(s, keep) <==> x in s && keep(x)
    ensures |Filtered(s, keep)| <= |s|
    ensures |Filtered(s, keep)| == |s| <==> forall x | x in s :: keep(x)
  {
    if s != [] {
      FilteredMembers(Init(s), keep);
      assert s == Init(s) + [Last(s)];
    }
  }

  lemma {:induction false} NothingFiltered<T>(s: seq<T>, keep: T -> bool)
    ensures |Filtered(s, keep)| == |s| ==> Filtered(s, keep) == s
  {
    if s != [] {
      NothingFiltered(Init(s), keep);
      FilteredMembers(Init(s), keep);
      assert s == Init(s) + [Last(s)];
      assert Filtered(s, keep) == Filtered(Init(s), keep) + (if keep(Last(s)) then [Last(s)] else []);
      hide *;
    }
  }

  /** Two complementary tests split a list exactly. */
  lemma {:induction false} FilterSplits<T>(s: seq<T>, p: T -> bool, q: T -> bool)
    requires forall x | x in s :: p(x) == !q(x)
    ensures multiset(Filtered(s, p)) + multiset(Filtered(s, q)) == multiset(s)
    ensures |Filtered(s, p)| + |Filtered(s, q)| == |s|
  {
    hide Filtered;
    if s == [] {
      FilteredMembers(s, p);
      FilteredMembers(s, q);
    } else {
      var x := Last(s);
      FilterSplits(Init(s), p, q);
      FilteredStep(s, p);
      FilteredStep(s, q);
      assert s == Init(s) + [x];
      if p(x) {
        assert multiset(Filtered(s, p)) == multiset(Filtered(Init(s), p)) + multiset{x};
      } else {
        assert multiset(Filtered(s, q)) == multiset(Filtered(Init(s), q)) + multiset{x};
      }
    }
  }

  predicate Rising(at: seq<nat>, bound: nat) {
    && (forall i | 0 <= i < |at| :: at[i] < bound)
    && (forall i, j | 0 <= i < j < |at| :: at[i] < at[j])
  }

  /** `r` is what `s` holds at the places `at`, and those are all the places where `keep` says yes. */
  ghost predicate PicksAt<T>(r: seq<T>, s: seq<T>, keep: T -> bool, at: seq<nat>) {
    && Rising(at, |s|) && |r| == |at|
    && (forall i | 0 <= i < |at| :: r[i] == s[at[i]])
    && (forall k: nat | k < |s| :: keep(s[k]) <==> k in at)
  }

  /** Exactly the elements that pass, each as often as it was there, in the order they had. */
  ghost predicate Picks<T>(r: seq<T>, s: seq<T>, keep: T -> bool) { exists at: seq<nat> :: PicksAt(r, s, keep, at) }

  lemma {:induction false} PlacesOf<T>(s: seq<T>, keep: T -> bool) returns (at: seq<nat>)
    ensures PicksAt(Filtered(s, keep), s, keep, at)
  {
    if s == [] {
      at := [];
    } else {
      var front := PlacesOf(Init(s), keep);
      at := if keep(Last(s)) then front + [|s| - 1] else front;
      PlacesMore(s, keep, front);
    }
  }

  lemma PlacesMore<T>(s: seq<T>, keep: T -> bool, front: seq<nat>)
    requires s != [] && PicksAt(Filtered(Init(s), keep), Init(s), keep, front)
    ensures PicksAt(Filtered(s, keep), s, keep, if keep(Last(s)) then front + [|s| - 1] else front)
  {
    FilteredStep(s, keep);
    hide Filtered;
    assert forall k | 0 <= k < |s| - 1 :: Init(s)[k] == s[k];
    if keep(Last(s)) {
      PlaceAdded(Filtered(Init(s), keep), s, keep, front);
    } else {
      PlaceSkipped(Filtered(Init(s), keep), s, keep, front);
    }
  }

  lemma PlaceAdded<T>(r: seq<T>, s: seq<T>, keep: T -> bool, front: seq<nat>)
    requires s != [] && keep(Last(s)) && PicksAt(r, Init(s), keep, front)
    ensures PicksAt(r + [Last(s)], s, keep, front + [|s| - 1])
  {
    var n := |s| - 1;
    assert forall k: nat :: k in front + [n] <==> k in front || k == n;
    forall k: nat | k < |s|
      ensures keep(s[k]) <==> k in front + [n]
    {
      if k < n {
        assert Init(s)[k] == s[k];
      }
    }
  }

  lemma PlaceSkipped<T>(r: seq<T>, s: seq<T>, keep: T -> bool, front: seq<nat>)
    requires s != [] && !keep(Last(s)) && PicksAt(r, Init(s), keep, front)
    ensures PicksAt(r, s, keep, front)
  {
    forall k: nat | k < |s|
      ensures keep(s[k]) <==> k in front
    {
      if k < |s| - 1 {
        assert Init(s)[k] == s[k];
      }
    }
  }

  /** Filtering picks; tests that agree on the list pick alike. */
  lemma FilteredPicks<T>(s: seq<T>, keep: T -> bool, p: T -> bool)
    requires forall x | x in s :: keep(x) == p(x)
    ensures Picks(Filtered(s, keep), s, p)
  {
    var at := PlacesOf(s, keep);
    hide Filtered;
    assert PicksAt(Filtered(s, keep), s, p, at);
  }

  lemma {:induction false} FilteredFirst<T>(s: seq<T>, keep: T -> bool)
    requires s != []
    ensures Filtered(s, keep) == (if keep(s[0]) then [s[0]] else []) + Filtered(s[1..], keep)
  {
    if |s| == 1 {
      assert Init(s) == [] && s[1..] == [];
    } else {
      FilteredFirst(Init(s), keep);
      assert Init(s)[0] == s[0] && Init(s)[1..] == Init(s[1..]) && Last(s[1..]) == Last(s);
      FilteredStep(s, keep);
      FilteredStep(s[1..], keep);
      hide Filtered;
    }
  }

  /** Filtering twice is filtering once, by both tests. */
  lemma {:induction false} FilteredTwice<T>(s: seq<T>, p: T -> bool, q: T -> bool, both: T -> bool)
    requires forall x | x in s :: both(x) == (p(x) && q(x))
    ensures Filtered(Filtered(s, p), q) == Filtered(s, both)
  {
    if s != [] {
      assert s == Init(s) + [Last(s)];
      FilteredTwice(Init(s), p, q, both);
      var front := Filtered(Init(s), p);
      FilteredStep(s, p);
      FilteredStep(s, both);
      if p(Last(s)) {
        assert Init(front + [Last(s)]) == front;
        FilteredStep(front + [Last(s)], q);
      }
      hide Filtered;
    }
  }

  predicate Distinct<T(==)>(s: seq<T>) { forall i, j | 0 <= i < j < |s| :: s[i] != s[j] }

  lemma LastIsNew<T>(s: seq<T>)
    requires s != [] && Distinct(s)
    ensures Distinct(Init(s)) && Last(s) !in Init(s)
  {
  }

  lemma {:induction false} AtMostOnce<T>(s: seq<T>, x: T)
    requires Distinct(s)
    ensures multiset(s)[x] <= 1
  {
    if s != [] {
      AtMostOnce(Init(s), x);
      assert s == Init(s) + [Last(s)];
      if Last(s) == x {
        assert x !in Init(s);
      }
    }
  }

  lemma {:induction false} OnceEachIsDistinct<T>(s: seq<T>)
    requires forall x :: multiset(s)[x] <= 1
    ensures Distinct(s)
  {
    if s != [] {
      var front, x := Init(s), Last(s);
      assert s == front + [x];
      assert forall y :: multiset(front)[y] <= multiset(s)[y];
      OnceEachIsDistinct(front);
      assert multiset(s)[x] == multiset(front)[x] + 1;
      assert x !in multiset(front);
    }
  }

  lemma DistinctRearranged<T>(s: seq<T>, r: seq<T>)
    requires multiset(s) == multiset(r) && Distinct(s)
    ensures Distinct(r)
  {
    hide Distinct;
    forall x
      ensures multiset(r)[x] <= 1
    {
      AtMostOnce(s, x);
    }
    OnceEachIsDistinct(r);
  }

  function Elements<T>(s: seq<T>): set<T> { set x | x in s }

  lemma {:induction false} LengthIsCard<T>(s: seq<T>)
    requires Distinct(s)
    ensures |s| == |Elements(s)|
  {
    if s != [] {
      LengthIsCard(Init(s));
      assert s == Init(s) + [Last(s)];
      assert Elements(s) == Elements(Init(s)) + {Last(s)};
    }
  }

  lemma CardMonotone<T>(a: set<T>, b: set<T>)
    requires a <= b
    ensures |a| <= |b|
    ensures |a| == |b| ==> a == b
  {
    assert b == a + (b - a);
  }

  /** Distinct elements of another list are no more than it has, and when they are as many they are all of it. */
  lemma DistinctSublist<T>(s: seq<T>, v: seq<T>)
    requires Distinct(s) && Distinct(v) && forall x | x in s :: x in v
    ensures |s| <= |v|
    ensures |s| == |v| ==> forall x | x in v :: x in s
  {
    hide Distinct;
    LengthIsCard(s);
    LengthIsCard(v);
    CardMonotone(Elements(s), Elements(v));
    if |s| == |v| {
      forall x | x in v
        ensures x in s
      {
        assert x in Elements(v);
      }
    }
  }
}

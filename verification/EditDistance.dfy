/**
 * Levenshtein distance: the recursive definition, its meaning (the least cost of any edit script) and
 * the laws that make it a metric.
 */
module EditDistance {
  import opened Sequences

  function Min(a: nat, b: nat): nat { if a <= b then a else b }

  function Differ<T(==)>(x: T, y: T): nat { if x == y then 0 else 1 }

  /** The distance between two prefixes, given by their lengths: one entry of the cost table. */
  function LevAt<T(==)>(a: seq<T>, i: nat, b: seq<T>, j: nat): nat
    requires i <= |a| && j <= |b|
    decreases i + j
  {
    if i == 0 then j
    else if j == 0 then i
    else Min(Min(LevAt(a, i - 1, b, j), LevAt(a, i, b, j - 1)) + 1,
             LevAt(a, i - 1, b, j - 1) + Differ(a[i - 1], b[j - 1]))
  }

  /** One unfolding of the definition; the proofs below hide it and call this where they need it. */
  lemma Unfold<T>(a: seq<T>, i: nat, b: seq<T>, j: nat)
    requires i <= |a| && j <= |b|
    ensures i == 0 ==> LevAt(a, i, b, j) == j
    ensures j == 0 ==> LevAt(a, i, b, j) == i
    ensures i > 0 && j > 0 ==>
              LevAt(a, i, b, j) == Min(Min(LevAt(a, i - 1, b, j), LevAt(a, i, b, j - 1)) + 1,
                                       LevAt(a, i - 1, b, j - 1) + Differ(a[i - 1], b[j - 1]))
  {
  }

  function Lev<T(==)>(a: seq<T>, b: seq<T>): nat { LevAt(a, |a|, b, |b|) }

  /** An entry depends only on the prefixes it is about. */
  lemma {:induction false} LevAtPrefix<T>(a: seq<T>, b: seq<T>, c: seq<T>, d: seq<T>, i: nat, j: nat)
    requires i <= |a| && j <= |b| && a <= c && b <= d
    ensures LevAt(a, i, b, j) == LevAt(c, i, d, j)
    decreases i + j
  {
    hide LevAt;
    Unfold(a, i, b, j);
    Unfold(c, i, d, j);
    if i > 0 && j > 0 {
      LevAtPrefix(a, b, c, d, i - 1, j);
      LevAtPrefix(a, b, c, d, i, j - 1);
      LevAtPrefix(a, b, c, d, i - 1, j - 1);
    }
  }

  /** One step of turning one sequence into another, left to right. */
  datatype Edit<T> = Keep(x: T) | Substitute(from: T, to: T) | Delete(x: T) | Insert(x: T)

  function Removed<T>(e: Edit<T>): seq<T> {
    match e
    case Keep(x) => [x]
    case Substitute(from, _) => [from]
    case Delete(x) => [x]
    case Insert(_) => []
  }

  function Added<T>(e: Edit<T>): seq<T> {
    match e
    case Keep(x) => [x]
    case Substitute(_, to) => [to]
    case Delete(_) => []
    case Insert(x) => [x]
  }

  /** The sequence a script starts from. */
  function Source<T>(s: seq<Edit<T>>): seq<T> {
    if s == [] then [] else Source(Init(s)) + Removed(Last(s))
  }

  /** The sequence a script produces. */
  function Target<T>(s: seq<Edit<T>>): seq<T> {
    if s == [] then [] else Target(Init(s)) + Added(Last(s))
  }

  function Cost<T>(s: seq<Edit<T>>): nat {
    if s == [] then 0 else Cost(Init(s)) + (if Last(s).Keep? then 0 else 1)
  }

  lemma Extended<T>(s: seq<Edit<T>>, e: Edit<T>)
    ensures Source(s + [e]) == Source(s) + Removed(e)
    ensures Target(s + [e]) == Target(s) + Added(e)
    ensures Cost(s + [e]) == Cost(s) + (if e.Keep? then 0 else 1)
  {
    assert Init(s + [e]) == s;
  }

  lemma ExtendedLev<T>(a: seq<T>, b: seq<T>, x: T, y: T)
    ensures Lev(a + [x], b) <= Lev(a, b) + 1
    ensures Lev(a, b + [y]) <= Lev(a, b) + 1
    ensures Lev(a + [x], b + [y]) <= Lev(a, b) + Differ(x, y)
  {
    hide LevAt;
    LevAtPrefix(a, b, a + [x], b, |a|, |b|);
    LevAtPrefix(a, b, a, b + [y], |a|, |b|);
    LevAtPrefix(a, b, a + [x], b + [y], |a|, |b|);
    Unfold(a + [x], |a| + 1, b, |b|);
    Unfold(a, |a|, b + [y], |b| + 1);
    Unfold(a + [x], |a| + 1, b + [y], |b| + 1);
    Unfold(a, |a|, b, |b|);
  }

  /** The edit a diagonal move stands for. */
  function Across<T(==)>(from: T, to: T): Edit<T> { if from == to then Keep(from) else Substitute(from, to) }

  /** The last edit of an optimal script: a diagonal move where that is optimal, else a deletion, else an insertion. */
  function LastEdit<T(==)>(a: seq<T>, i: nat, b: seq<T>, j: nat): (e: Edit<T>)
    requires i <= |a| && j <= |b| && i + j > 0
    ensures Removed(e) == [] || (i > 0 && Removed(e) == [a[i - 1]])
    ensures Added(e) == [] || (j > 0 && Added(e) == [b[j - 1]])
    ensures |Removed(e)| + |Added(e)| > 0
  {
    if i > 0 && j > 0 && LevAt(a, i, b, j) == LevAt(a, i - 1, b, j - 1) + Differ(a[i - 1], b[j - 1]) then
      Across(a[i - 1], b[j - 1])
    else if i > 0 && (j == 0 || LevAt(a, i, b, j) == LevAt(a, i - 1, b, j) + 1) then Delete(a[i - 1])
    else Insert(b[j - 1])
  }

  lemma LastEditCost<T>(a: seq<T>, i: nat, b: seq<T>, j: nat)
    requires i <= |a| && j <= |b| && i + j > 0
    ensures var e := LastEdit(a, i, b, j);
            LevAt(a, i, b, j) == LevAt(a, i - |Removed(e)|, b, j - |Added(e)|) + (if e.Keep? then 0 else 1)
  {
    hide LevAt;
    Unfold(a, i, b, j);
    var e := LastEdit(a, i, b, j);
    Unfold(a, i - |Removed(e)|, b, j - |Added(e)|);
  }

  function Alignment<T(==)>(a: seq<T>, i: nat, b: seq<T>, j: nat): seq<Edit<T>>
    requires i <= |a| && j <= |b|
    decreases i + j
  {
    if i + j == 0 then []
    else
      var e := LastEdit(a, i, b, j);
      Alignment(a, i - |Removed(e)|, b, j - |Added(e)|) + [e]
  }

  lemma AlignmentStep<T>(a: seq<T>, i: nat, b: seq<T>, j: nat)
    requires i <= |a| && j <= |b| && i + j > 0
    ensures var e := LastEdit(a, i, b, j);
            Alignment(a, i, b, j) == Alignment(a, i - |Removed(e)|, b, j - |Added(e)|) + [e]
  {
    hide LevAt, LastEdit;
  }

  lemma CutJoins<T>(a: seq<T>, i: nat, tail: seq<T>)
    requires i <= |a| && (tail == [] || (i > 0 && tail == [a[i - 1]]))
    ensures a[..i - |tail|] + tail == a[..i]
  {
  }

  lemma NothingToAlign<T>(a: seq<T>, b: seq<T>)
    ensures var s := Alignment(a, 0, b, 0);
            Source(s) == a[..0] && Target(s) == b[..0] && Cost(s) == LevAt(a, 0, b, 0)
  {
  }

  /** `Lev` is reached: the alignment turns one prefix into the other at exactly that cost. */
  lemma {:induction false} AlignmentIsBest<T>(a: seq<T>, i: nat, b: seq<T>, j: nat)
    requires i <= |a| && j <= |b|
    ensures Source(Alignment(a, i, b, j)) == a[..i] && Target(Alignment(a, i, b, j)) == b[..j]
    ensures Cost(Alignment(a, i, b, j)) == LevAt(a, i, b, j)
    decreases i + j
  {
    hide *;
    if i + j == 0 {
      NothingToAlign(a, b);
    } else {
      var e := LastEdit(a, i, b, j);
      CutJoins(a, i, Removed(e));
      CutJoins(b, j, Added(e));
      var i', j' := i - |Removed(e)|, j - |Added(e)|;
      AlignmentIsBest(a, i', b, j');
      AlignmentStep(a, i, b, j);
      LastEditCost(a, i, b, j);
      Extended(Alignment(a, i', b, j'), e);
    }
  }

  function BestScript<T(==)>(a: seq<T>, b: seq<T>): (s: seq<Edit<T>>)
    ensures Source(s) == a && Target(s) == b && Cost(s) == Lev(a, b)
  {
    AlignmentIsBest(a, |a|, b, |b|);
    assert a[..|a|] == a && b[..|b|] == b;
    Alignment(a, |a|, b, |b|)
  }

  /** `Lev` is least: no script between the two sequences costs less. */
  lemma {:induction false} NoCheaperScript<T>(s: seq<Edit<T>>)
    ensures Lev(Source(s), Target(s)) <= Cost(s)
  {
    hide LevAt;
    if s == [] {
      Unfold<T>([], 0, [], 0);
    } else {
      NoCheaperScript(Init(s));
      var a, b := Source(Init(s)), Target(Init(s));
      match Last(s)
      case Keep(x) => ExtendedLev(a, b, x, x);
      case Substitute(x, y) => ExtendedLev(a, b, x, y);
      case Delete(x) => ExtendedLev(a, b, x, x); assert b + [] == b;
      case Insert(y) => ExtendedLev(a, b, y, y); assert a + [] == a;
    }
  }

  /** The distance is the least cost of any script. */
  lemma LevIsLeastCost<T>(a: seq<T>, b: seq<T>, d: nat)
    ensures d == Lev(a, b) <==>
            && (exists s: seq<Edit<T>> :: Source(s) == a && Target(s) == b && Cost(s) == d)
            && (forall s: seq<Edit<T>> :: Source(s) == a && Target(s) == b ==> d <= Cost(s))
  {
    hide LevAt;
    var best := BestScript(a, b);
    assert Source(best) == a && Target(best) == b && Cost(best) == Lev(a, b);
    forall s: seq<Edit<T>> | Source(s) == a && Target(s) == b
      ensures Lev(a, b) <= Cost(s)
    {
      NoCheaperScript(s);
    }
  }

  lemma {:induction false} SymmetricAt<T>(a: seq<T>, i: nat, b: seq<T>, j: nat)
    requires i <= |a| && j <= |b|
    ensures LevAt(a, i, b, j) == LevAt(b, j, a, i)
    decreases i + j
  {
    hide LevAt;
    Unfold(a, i, b, j);
    Unfold(b, j, a, i);
    if i > 0 && j > 0 {
      SymmetricAt(a, i - 1, b, j);
      SymmetricAt(a, i, b, j - 1);
      SymmetricAt(a, i - 1, b, j - 1);
    }
  }

  lemma Symmetric<T>(a: seq<T>, b: seq<T>)
    ensures Lev(a, b) == Lev(b, a)
  {
    SymmetricAt(a, |a|, b, |b|);
  }

  lemma {:induction false} BoundsAt<T>(a: seq<T>, i: nat, b: seq<T>, j: nat)
    requires i <= |a| && j <= |b|
    ensures i - j <= LevAt(a, i, b, j) && j - i <= LevAt(a, i, b, j)
    ensures LevAt(a, i, b, j) <= if i >= j then i else j
    decreases i + j
  {
    hide LevAt;
    Unfold(a, i, b, j);
    if i > 0 && j > 0 {
      BoundsAt(a, i - 1, b, j);
      BoundsAt(a, i, b, j - 1);
      BoundsAt(a, i - 1, b, j - 1);
    }
  }

  /** Between the difference of the lengths and the longer of them. */
  lemma LengthBounds<T>(a: seq<T>, b: seq<T>)
    ensures |a| - |b| <= Lev(a, b) && |b| - |a| <= Lev(a, b)
    ensures Lev(a, b) <= if |a| >= |b| then |a| else |b|
  {
    BoundsAt(a, |a|, b, |b|);
  }

  lemma {:induction false} ZeroAt<T>(a: seq<T>, i: nat, b: seq<T>, j: nat)
    requires i <= |a| && j <= |b|
    ensures LevAt(a, i, b, j) == 0 <==> a[..i] == b[..j]
    decreases i + j
  {
    hide LevAt;
    Unfold(a, i, b, j);
    if i > 0 && j > 0 {
      ZeroAt(a, i - 1, b, j - 1);
      assert a[..i] == a[..i - 1] + [a[i - 1]] && b[..j] == b[..j - 1] + [b[j - 1]];
    }
  }

  lemma ZeroIffEqual<T>(a: seq<T>, b: seq<T>)
    ensures Lev(a, b) == 0 <==> a == b
  {
    ZeroAt(a, |a|, b, |b|);
    assert a[..|a|] == a && b[..|b|] == b;
  }

  /** Two scripts run one after the other, as one script that costs no more. */
  lemma {:induction false} Compose<T>(s: seq<Edit<T>>, t: seq<Edit<T>>) returns (r: seq<Edit<T>>)
    requires Target(s) == Source(t)
    ensures Source(r) == Source(s) && Target(r) == Target(t)
    ensures Cost(r) <= Cost(s) + Cost(t)
    decreases |s| + |t|
  {
    if s == [] && t == [] {
      r := [];
    } else if s != [] && Last(s).Delete? {
      var q := Compose(Init(s), t);
      Extended(q, Last(s));
      r := q + [Last(s)];
    } else if t != [] && Last(t).Insert? {
      var q := Compose(s, Init(t));
      Extended(q, Last(t));
      r := q + [Last(t)];
    } else {
      // Both scripts end on the same element of the sequence in between.
      if s != [] { assert |Added(Last(s))| == 1; }
      if t != [] { assert |Removed(Last(t))| == 1; }
      assert s != [] && t != [];
      assert Init(Target(s)) == Target(Init(s)) && Init(Source(t)) == Source(Init(t));
      var q := Compose(Init(s), Init(t));
      var x, z := Removed(Last(s)), Added(Last(t));
      if x == [] && z == [] {
        r := q;
      } else {
        var e := if x == [] then Insert(z[0]) else if z == [] then Delete(x[0])
        else if x == z then Keep(x[0]) else Substitute(x[0], z[0]);
        assert e.Keep? || !Last(s).Keep? || !Last(t).Keep?;
        Extended(q, e);
        r := q + [e];
      }
    }
  }

  lemma Triangle<T>(a: seq<T>, b: seq<T>, c: seq<T>)
    ensures Lev(a, c) <= Lev(a, b) + Lev(b, c)
  {
    hide LevAt;
    var r := Compose(BestScript(a, b), BestScript(b, c));
    NoCheaperScript(r);
  }
}

/**
 * The substitution table: a full cost matrix, a walk back along one optimal alignment that tallies the
 * substitutions it meets, and the most frequent of them.
 */
module Confusions {
  import opened EditDistance
  import opened Sequences
  import opened StableSort
  import opened Utf16

  /** One entry of the tally: `to` was recognised where the truth has `from`. */
  datatype Entry = Entry(from: int, to: int, count: nat)

  /** A map in insertion order, the order JavaScript's `Map` iterates in. */
  type Tally = seq<Entry>

  function Bump(tally: Tally, from: int, to: int): Tally {
    if tally == [] then [Entry(from, to, 1)]
    else if tally[0].from == from && tally[0].to == to then [tally[0].(count := tally[0].count + 1)] + tally[1..]
    else [tally[0]] + Bump(tally[1..], from, to)
  }

  function CountOf(tally: Tally, from: int, to: int): nat {
    if tally == [] then 0
    else (if tally[0].from == from && tally[0].to == to then tally[0].count else 0) + CountOf(tally[1..], from, to)
  }

  function Total(tally: Tally): nat { if tally == [] then 0 else tally[0].count + Total(tally[1..]) }

  lemma {:induction false} BumpAddsOne(tally: Tally, from: int, to: int)
    ensures Total(Bump(tally, from, to)) == Total(tally) + 1
    ensures forall f, g :: CountOf(Bump(tally, from, to), f, g)
                           == CountOf(tally, f, g) + (if f == from && g == to then 1 else 0)
  {
    if tally != [] && !(tally[0].from == from && tally[0].to == to) {
      BumpAddsOne(tally[1..], from, to);
      assert Bump(tally, from, to)[1..] == Bump(tally[1..], from, to);
    }
  }

  /** One entry for each pair, and none that counts nothing: what a map with counts guarantees. */
  predicate OneEntryEach(tally: Tally) {
    && (forall i | 0 <= i < |tally| :: tally[i].count > 0)
    && (forall i, j | 0 <= i < j < |tally| :: tally[i].from != tally[j].from || tally[i].to != tally[j].to)
  }

  lemma {:induction false} BumpPairs(tally: Tally, from: int, to: int)
    ensures forall x | x in Bump(tally, from, to) ::
              (x.from == from && x.to == to) || exists y :: y in tally && y.from == x.from && y.to == x.to
  {
    if tally != [] && !(tally[0].from == from && tally[0].to == to) {
      BumpPairs(tally[1..], from, to);
    }
  }

  lemma {:induction false} BumpKeepsOneEach(tally: Tally, from: int, to: int)
    requires OneEntryEach(tally)
    ensures OneEntryEach(Bump(tally, from, to))
  {
    if tally != [] && !(tally[0].from == from && tally[0].to == to) {
      var rest := Bump(tally[1..], from, to);
      BumpKeepsOneEach(tally[1..], from, to);
      BumpPairs(tally[1..], from, to);
      forall j | 0 <= j < |rest|
        ensures tally[0].from != rest[j].from || tally[0].to != rest[j].to
      {
        assert rest[j] in rest;
      }
    }
  }

  /** In such a tally an entry's count is its pair's, and a pair that counts has an entry. */
  lemma {:induction false} EntriesCount(tally: Tally)
    requires OneEntryEach(tally)
    ensures forall i | 0 <= i < |tally| :: CountOf(tally, tally[i].from, tally[i].to) == tally[i].count
    ensures forall f, g | CountOf(tally, f, g) > 0 ::
              exists i :: 0 <= i < |tally| && tally[i].from == f && tally[i].to == g
  {
    if tally != [] {
      var rest := tally[1..];
      EntriesCount(rest);
      NoEntryNoCount(rest, tally[0].from, tally[0].to);
      forall i | 0 <= i < |tally|
        ensures CountOf(tally, tally[i].from, tally[i].to) == tally[i].count
      {
        assert i > 0 ==> tally[i] == rest[i - 1];
      }
      forall f, g | CountOf(tally, f, g) > 0
        ensures exists i :: 0 <= i < |tally| && tally[i].from == f && tally[i].to == g
      {
        if !(tally[0].from == f && tally[0].to == g) {
          assert CountOf(rest, f, g) == CountOf(tally, f, g);
          var i :| 0 <= i < |rest| && rest[i].from == f && rest[i].to == g;
          assert tally[i + 1] == rest[i];
        }
      }
    }
  }

  lemma {:induction false} NoEntryNoCount(tally: Tally, from: int, to: int)
    requires forall i | 0 <= i < |tally| :: tally[i].from != from || tally[i].to != to
    ensures CountOf(tally, from, to) == 0
  {
    if tally != [] {
      NoEntryNoCount(tally[1..], from, to);
    }
  }

  /** How often a script puts `to` where `from` was. */
  function Substitutions(s: seq<Edit<int>>, from: int, to: int): nat {
    if s == [] then 0 else Substitutions(Init(s), from, to) + (if Last(s) == Substitute(from, to) then 1 else 0)
  }

  function AllSubstitutions(s: seq<Edit<int>>): nat {
    if s == [] then 0 else AllSubstitutions(Init(s)) + (if Last(s).Substitute? then 1 else 0)
  }

  /** Steps that take or lose a character on one side only. */
  function OneSided(s: seq<Edit<int>>): nat {
    if s == [] then 0 else OneSided(Init(s)) + (if Last(s).Delete? || Last(s).Insert? then 1 else 0)
  }

  /** What is substituted is in the one text, and what for it in the other. */
  lemma {:induction false} SubstitutedFromTexts(s: seq<Edit<int>>, from: int, to: int)
    requires Substitutions(s, from, to) > 0
    ensures from in Source(s) && to in Target(s)
  {
    if Last(s) != Substitute(from, to) {
      SubstitutedFromTexts(Init(s), from, to);
    }
  }

  lemma {:induction false} CostSplits(s: seq<Edit<int>>)
    ensures Cost(s) == AllSubstitutions(s) + OneSided(s)
  {
    if s != [] {
      CostSplits(Init(s));
    }
  }

  lemma {:induction false} NoMoreThanAll(s: seq<Edit<int>>)
    ensures forall f, g :: Substitutions(s, f, g) <= AllSubstitutions(s)
  {
    if s != [] {
      NoMoreThanAll(Init(s));
    }
  }

  lemma OneMore(s: seq<Edit<int>>, e: Edit<int>)
    ensures forall f, g ::
        Substitutions(s + [e], f, g) == Substitutions(s, f, g) + (if e == Substitute(f, g) then 1 else 0)
    ensures AllSubstitutions(s + [e]) == AllSubstitutions(s) + (if e.Substitute? then 1 else 0)
    ensures OneSided(s + [e]) == OneSided(s) + (if e.Delete? || e.Insert? then 1 else 0)
  {
    assert Init(s + [e]) == s;
  }

  lemma OneSideIs(t: seq<int>, i: nat, o: seq<int>, j: nat)
    requires i <= |t| && j <= |o| && (i == 0 || j == 0) && i + j > 0
    ensures var e := LastEdit(t, i, o, j);
            (e.Delete? || e.Insert?) && |Removed(e)| + |Added(e)| == 1
  {
    hide LevAt;
  }

  lemma NothingLeft(t: seq<int>, o: seq<int>)
    ensures AllSubstitutions(Alignment(t, 0, o, 0)) == 0 && OneSided(Alignment(t, 0, o, 0)) == 0
  {
  }

  /** Where one side has run out there is nothing left to substitute. */
  lemma {:induction false} OneSideLeft(t: seq<int>, i: nat, o: seq<int>, j: nat)
    requires i <= |t| && j <= |o| && (i == 0 || j == 0)
    ensures AllSubstitutions(Alignment(t, i, o, j)) == 0 && OneSided(Alignment(t, i, o, j)) == i + j
    decreases i + j
  {
    hide *;
    if i + j == 0 {
      NothingLeft(t, o);
    } else {
      var e := LastEdit(t, i, o, j);
      OneSideIs(t, i, o, j);
      OneSideLeft(t, i - |Removed(e)|, o, j - |Added(e)|);
      AlignmentStep(t, i, o, j);
      OneMore(Alignment(t, i - |Removed(e)|, o, j - |Added(e)|), e);
    }
  }

  ghost predicate IsCostMatrix(cost: array2<nat>, t: seq<int>, o: seq<int>)
    reads cost
  {
    && cost.Length0 == |t| + 1 && cost.Length1 == |o| + 1
    && forall i, j | 0 <= i <= |t| && 0 <= j <= |o| :: cost[i, j] == LevAt(t, i, o, j)
  }

  method CostMatrix(t: seq<int>, o: seq<int>) returns (cost: array2<nat>)
    ensures fresh(cost) && IsCostMatrix(cost, t, o)
  {
    hide LevAt;
    cost := new nat[|t| + 1, |o| + 1];
    for i := 0 to |t| + 1
      invariant forall x | 0 <= x < i :: cost[x, 0] == LevAt(t, x, o, 0)
    {
      Unfold(t, i, o, 0);
      cost[i, 0] := i;
    }
    for j := 0 to |o| + 1
      invariant forall x | 0 <= x <= |t| :: cost[x, 0] == LevAt(t, x, o, 0)
      invariant forall y | 0 <= y < j :: cost[0, y] == LevAt(t, 0, o, y)
    {
      Unfold(t, 0, o, j);
      cost[0, j] := j;
    }
    for i := 1 to |t| + 1
      invariant forall x | 0 <= x <= |t| :: cost[x, 0] == LevAt(t, x, o, 0)
      invariant forall x, y | 0 <= x < i && 0 <= y <= |o| :: cost[x, y] == LevAt(t, x, o, y)
    {
      for j := 1 to |o| + 1
        invariant forall x | 0 <= x <= |t| :: cost[x, 0] == LevAt(t, x, o, 0)
        invariant forall x, y | 0 <= x < i && 0 <= y <= |o| :: cost[x, y] == LevAt(t, x, o, y)
        invariant forall y | 0 <= y < j :: cost[i, y] == LevAt(t, i, o, y)
      {
        Unfold(t, i, o, j);
        cost[i, j] := Min(Min(cost[i - 1, j], cost[i, j - 1]) + 1, cost[i - 1, j - 1] + Differ(t[i - 1], o[j - 1]));
      }
    }
  }

  datatype Outcome = Outcome(tally: Tally, sides: nat, left: nat)

  /** The walk back from (`i`, `j`): diagonal where that is optimal, else up, else left, until one side runs out. */
  function WalkFrom(t: seq<int>, i: nat, o: seq<int>, j: nat, tally: Tally, sides: nat): Outcome
    requires i <= |t| && j <= |o|
    decreases i + j
  {
    if i == 0 || j == 0 then Outcome(tally, sides, i + j)
    else if LevAt(t, i, o, j) == LevAt(t, i - 1, o, j - 1) + Differ(t[i - 1], o[j - 1]) then
      WalkFrom(t, i - 1, o, j - 1, if t[i - 1] == o[j - 1] then tally else Bump(tally, t[i - 1], o[j - 1]), sides)
    else if LevAt(t, i, o, j) == LevAt(t, i - 1, o, j) + 1 then WalkFrom(t, i - 1, o, j, tally, sides + 1)
    else WalkFrom(t, i, o, j - 1, tally, sides + 1)
  }

  lemma WalkStep(t: seq<int>, i: nat, o: seq<int>, j: nat, tally: Tally, sides: nat)
    requires 0 < i <= |t| && 0 < j <= |o|
    ensures var e := LastEdit(t, i, o, j);
            WalkFrom(t, i, o, j, tally, sides)
            == WalkFrom(t, i - |Removed(e)|, o, j - |Added(e)|,
                        if e.Substitute? then Bump(tally, e.from, e.to) else tally,
                        sides + (if e.Delete? || e.Insert? then 1 else 0))
  {
    hide LevAt;
  }

  lemma WalkStops(t: seq<int>, i: nat, o: seq<int>, j: nat, tally: Tally, sides: nat)
    requires i <= |t| && j <= |o| && (i == 0 || j == 0)
    ensures var r := WalkFrom(t, i, o, j, tally, sides);
            r.tally == tally && r.sides == sides && r.left == i + j
  {
  }

  /** The walk follows the alignment, and tallies its substitutions. */
  lemma {:induction false} WalkFollowsAlignment(t: seq<int>, i: nat, o: seq<int>, j: nat, tally: Tally, sides: nat)
    requires i <= |t| && j <= |o|
    ensures var r, s := WalkFrom(t, i, o, j, tally, sides), Alignment(t, i, o, j);
            && (forall f, g :: CountOf(r.tally, f, g) == CountOf(tally, f, g) + Substitutions(s, f, g))
            && Total(r.tally) == Total(tally) + AllSubstitutions(s)
            && r.sides + r.left == sides + OneSided(s)
    decreases i + j
  {
    hide *;
    if i == 0 || j == 0 {
      WalkStops(t, i, o, j, tally, sides);
      OneSideLeft(t, i, o, j);
      NoMoreThanAll(Alignment(t, i, o, j));
    } else {
      var e := LastEdit(t, i, o, j);
      var tally' := if e.Substitute? then Bump(tally, e.from, e.to) else tally;
      WalkStep(t, i, o, j, tally, sides);
      WalkFollowsAlignment(t, i - |Removed(e)|, o, j - |Added(e)|, tally',
                           sides + (if e.Delete? || e.Insert? then 1 else 0));
      AlignmentStep(t, i, o, j);
      OneMore(Alignment(t, i - |Removed(e)|, o, j - |Added(e)|), e);
      if e.Substitute? {
        BumpAddsOne(tally, e.from, e.to);
      }
    }
  }

  lemma {:induction false} WalkKeepsOneEach(t: seq<int>, i: nat, o: seq<int>, j: nat, tally: Tally, sides: nat)
    requires i <= |t| && j <= |o| && OneEntryEach(tally)
    ensures OneEntryEach(WalkFrom(t, i, o, j, tally, sides).tally)
    decreases i + j
  {
    hide *;
    if i == 0 || j == 0 {
      WalkStops(t, i, o, j, tally, sides);
    } else {
      var e := LastEdit(t, i, o, j);
      WalkStep(t, i, o, j, tally, sides);
      if e.Substitute? {
        BumpKeepsOneEach(tally, e.from, e.to);
      }
      WalkKeepsOneEach(t, i - |Removed(e)|, o, j - |Added(e)|,
                       if e.Substitute? then Bump(tally, e.from, e.to) else tally,
                       sides + (if e.Delete? || e.Insert? then 1 else 0));
    }
  }

  function TallyOf(t: seq<int>, o: seq<int>): Tally { WalkFrom(t, |t|, o, |o|, [], 0).tally }

  /** The tally is exactly the substitutions of a least-cost script from the truth to the read. */
  ghost predicate Tallies(tally: Tally, s: seq<Edit<int>>, t: seq<int>, o: seq<int>) {
    && Source(s) == t && Target(s) == o && Cost(s) == Lev(t, o)
    && OneEntryEach(tally)
    && (forall f, g :: CountOf(tally, f, g) == Substitutions(s, f, g))
  }

  /**
   * What the walk tallies are the substitutions of one optimal alignment; with the one-sided moves it
   * makes and the characters left when one side runs out, they add up to the distance.
   */
  lemma WalkIsOptimal(t: seq<int>, o: seq<int>)
    ensures var r := WalkFrom(t, |t|, o, |o|, [], 0);
            Tallies(r.tally, BestScript(t, o), t, o) && Total(r.tally) + r.sides + r.left == Lev(t, o)
  {
    WalkFollowsAlignment(t, |t|, o, |o|, [], 0);
    WalkKeepsOneEach(t, |t|, o, |o|, [], 0);
    CostSplits(BestScript(t, o));
  }

  method Walk(t: seq<int>, o: seq<int>) returns (tally: Tally, sides: nat, left: nat)
    ensures tally == TallyOf(t, o) && Tallies(tally, BestScript(t, o), t, o)
    ensures Total(tally) + sides + left == Lev(t, o)
  {
    hide LevAt;
    var cost := CostMatrix(t, o);
    tally, sides := [], 0;
    var i: nat, j: nat := |t|, |o|;
    while i > 0 && j > 0
      invariant IsCostMatrix(cost, t, o) && i <= |t| && j <= |o|
      invariant WalkFrom(t, i, o, j, tally, sides) == WalkFrom(t, |t|, o, |o|, [], 0)
      decreases i + j
    {
      var here := cost[i, j];
      var diagonal := cost[i - 1, j - 1];
      var same := t[i - 1] == o[j - 1];
      if here == diagonal + (if same then 0 else 1) {
        if !same {
          tally := Bump(tally, t[i - 1], o[j - 1]);
        }
        i, j := i - 1, j - 1;
      } else if here == cost[i - 1, j] + 1 {
        i, sides := i - 1, sides + 1;
      } else {
        j, sides := j - 1, sides + 1;
      }
    }
    left := i + j;
    WalkIsOptimal(t, o);
  }

  // ----- the table made from the tally -----

  const NUL: int := 0

  /** A tally key: the two characters with a NUL between them. */
  function Key(from: int, to: int): seq<int> { [from, NUL, to] }

  /** `String.split` on the separator. */
  function Split(key: seq<int>): (parts: seq<seq<int>>)
    ensures |parts| >= 1
  {
    if key == [] then [[]]
    else if key[0] == NUL then [[]] + Split(key[1..])
    else var rest := Split(key[1..]); [[key[0]] + rest[0]] + rest[1..]
  }

  /** A row of the table, named by the first two parts of its key. */
  datatype Confusion = Confusion(from: seq<int>, to: seq<int>, count: nat)

  function Named(e: Entry): Confusion {
    var parts := Split(Key(e.from, e.to));
    Confusion(parts[0], if |parts| > 1 then parts[1] else [], e.count)
  }

  /** The key names its pair back exactly when neither character is a NUL, which normalising does not remove. */
  lemma NamedIffNoNul(e: Entry)
    ensures Named(e).from == [e.from] && Named(e).to == [e.to] <==> e.from != NUL && e.to != NUL
  {
    var key := Key(e.from, e.to);
    assert key[1..] == [NUL, e.to] && key[1..][1..] == [e.to] && key[1..][1..][1..] == [];
    assert Split([e.to][1..]) == [[]];
    if e.to == NUL {
      assert Split([e.to]) == [[]] + Split([e.to][1..]) == [[], []];
    } else {
      assert Split([e.to]) == [[e.to] + Split([e.to][1..])[0]] + Split([e.to][1..])[1..];
      assert [e.to] + [] == [e.to];
    }
    assert Split(key[1..]) == [[]] + Split(key[1..][1..]);
  }

  /** Where a code point stands when strings are compared by UTF-16 units. */
  function PointRank(p: int): int {
    if p < 0x1_0000 then p * 0x1_0000
    else (0xD800 + (p - 0x1_0000) / 0x400) * 0x1_0000 + 0xDC00 + (p - 0x1_0000) % 0x400
  }

  function Rank(name: seq<int>): int { if name == [] then -1 else PointRank(name[0]) }

  /** The comparator: more frequent first, ties by the pair itself. */
  predicate Before(a: Confusion, b: Confusion) {
    || a.count > b.count
    || (a.count == b.count && Rank(a.from) < Rank(b.from))
    || (a.count == b.count && Rank(a.from) == Rank(b.from) && Rank(a.to) <= Rank(b.to))
  }

  function Rows(tally: Tally): seq<Confusion> { if tally == [] then [] else [Named(tally[0])] + Rows(tally[1..]) }

  function RowTotal(rows: seq<Confusion>): nat { if rows == [] then 0 else rows[0].count + RowTotal(rows[1..]) }

  lemma {:induction false} RowsTotal(tally: Tally)
    ensures RowTotal(Rows(tally)) == Total(tally)
  {
    if tally != [] {
      RowsTotal(tally[1..]);
    }
  }

  lemma {:induction false} InsertTotal(x: Confusion, rows: seq<Confusion>)
    ensures RowTotal(InsertInto(Before, x, rows)) == x.count + RowTotal(rows)
  {
    if rows == [] || Before(x, rows[0]) {
      assert ([x] + rows)[1..] == rows;
    } else {
      InsertTotal(x, rows[1..]);
      assert InsertInto(Before, x, rows)[1..] == InsertInto(Before, x, rows[1..]);
    }
  }

  lemma {:induction false} SortTotal(rows: seq<Confusion>)
    ensures RowTotal(Sort(Before, rows)) == RowTotal(rows)
  {
    if rows != [] {
      SortTotal(rows[1..]);
      InsertTotal(rows[0], Sort(Before, rows[1..]));
    }
  }

  lemma {:induction false} CutTotal(rows: seq<Confusion>, n: nat)
    requires n <= |rows|
    ensures RowTotal(rows[..n]) <= RowTotal(rows)
  {
    if n > 0 {
      CutTotal(rows[1..], n - 1);
      assert rows[..n][1..] == rows[1..][..n - 1];
    }
  }

  lemma BeforeIsTotal()
    ensures TotalPreorder(Before)
  {
  }

  function FullTable(truth: seq<int>, read: seq<int>): seq<Confusion> { Sort(Before, Rows(TallyOf(truth, read))) }

  lemma {:induction false} RowsAt(tally: Tally)
    ensures |Rows(tally)| == |tally| && forall i | 0 <= i < |tally| :: Rows(tally)[i] == Named(tally[i])
  {
    hide Named;
    if tally != [] {
      RowsAt(tally[1..]);
    }
  }

  lemma InFullTable(truth: seq<int>, read: seq<int>, row: Confusion)
    ensures row in FullTable(truth, read)
        <==> exists i :: 0 <= i < |TallyOf(truth, read)| && row == Named(TallyOf(truth, read)[i])
  {
    hide Named, TallyOf, Sort;
    var rows := Rows(TallyOf(truth, read));
    SortPermutes(Before, rows);
    RowsAt(TallyOf(truth, read));
    assert row in FullTable(truth, read) <==> row in multiset(rows);
  }

  /** The alignment puts `to` for `from` somewhere. */
  ghost predicate Substitutes(truth: seq<int>, read: seq<int>, from: int, to: int) {
    Substitutions(BestScript(truth, read), from, to) > 0
  }

  /** The row of a pair the alignment substitutes, with how often it does. */
  ghost predicate RowFor(truth: seq<int>, read: seq<int>, row: Confusion, from: int, to: int) {
    var count := Substitutions(BestScript(truth, read), from, to);
    count > 0 && row == Named(Entry(from, to, count))
  }

  /** The rows are the pairs substituted in the alignment, each with how often it was. */
  lemma RowsAreSubstitutions(truth: seq<int>, read: seq<int>, row: Confusion)
    ensures row in FullTable(truth, read) <==>
            exists f, g :: RowFor(truth, read, row, f, g)
  {
    WalkIsOptimal(truth, read);
    var tally, best := TallyOf(truth, read), BestScript(truth, read);
    InFullTable(truth, read, row);
    EntriesCount(tally);
    hide Named, TallyOf, FullTable, BestScript, CountOf, Substitutions;
    if row in FullTable(truth, read) {
      var i :| 0 <= i < |tally| && row == Named(tally[i]);
      var e := tally[i];
      assert Substitutions(best, e.from, e.to) == e.count && e == Entry(e.from, e.to, e.count);
      assert RowFor(truth, read, row, e.from, e.to);
    }
    if exists f, g :: RowFor(truth, read, row, f, g) {
      var f, g :| RowFor(truth, read, row, f, g);
      var i :| 0 <= i < |tally| && tally[i].from == f && tally[i].to == g;
      assert tally[i] == Entry(f, g, Substitutions(best, f, g));
    }
  }

  /** A row that names two characters, one on each side. */
  predicate WellNamed(row: Confusion) { |row.from| == 1 && |row.to| == 1 }

  lemma NamedShape(f: int, g: int, count: nat)
    ensures var row := Named(Entry(f, g, count));
            && row.count == count
            && (WellNamed(row) <==> f != NUL && g != NUL)
            && (WellNamed(row) ==> row.from == [f] && row.to == [g])
  {
    NamedIffNoNul(Entry(f, g, count));
    var key := Key(f, g);
    assert key[1..] == [NUL, g];
    if f == NUL {
      assert Split(key)[0] == [];
    } else if g == NUL {
      assert key[1..][1..] == [g];
      assert Split(key[1..]) == [[]] + Split(key[1..][1..]);
      assert Split([g])[0] == [];
    }
  }

  /** The table misnames a row exactly when the alignment substitutes a NUL or for one. */
  lemma MisnamedIff(truth: seq<int>, read: seq<int>)
    ensures (exists row :: row in FullTable(truth, read) && !WellNamed(row))
            <==> exists f, g :: Substitutes(truth, read, f, g) && (f == NUL || g == NUL)
  {
    hide FullTable, BestScript, Substitutions, Named, WellNamed;
    var best := BestScript(truth, read);
    if exists row :: row in FullTable(truth, read) && !WellNamed(row) {
      var row :| row in FullTable(truth, read) && !WellNamed(row);
      RowsAreSubstitutions(truth, read, row);
      var f, g :| RowFor(truth, read, row, f, g);
      NamedShape(f, g, Substitutions(best, f, g));
      assert Substitutes(truth, read, f, g);
    }
    if exists f, g :: Substitutes(truth, read, f, g) && (f == NUL || g == NUL) {
      var f, g :| Substitutes(truth, read, f, g) && (f == NUL || g == NUL);
      NamedShape(f, g, Substitutions(best, f, g));
      var row := Named(Entry(f, g, Substitutions(best, f, g)));
      assert RowFor(truth, read, row, f, g);
      RowsAreSubstitutions(truth, read, row);
      assert row in FullTable(truth, read) && !WellNamed(row);
    }
  }

  /** So for texts without a NUL every row names its pair, and counts that pair's substitutions. */
  lemma NulFreeTextsNamedRight(truth: seq<int>, read: seq<int>, row: Confusion)
    requires NUL !in truth && NUL !in read && row in FullTable(truth, read)
    ensures WellNamed(row) && row.count == Substitutions(BestScript(truth, read), row.from[0], row.to[0]) > 0
  {
    var best := BestScript(truth, read);
    hide FullTable, BestScript, Substitutions, Named;
    RowsAreSubstitutions(truth, read, row);
    var f, g :| RowFor(truth, read, row, f, g);
    NamedShape(f, g, Substitutions(best, f, g));
    SubstitutedFromTexts(best, f, g);
  }

  /** And no row is there twice. */
  lemma NoRowTwice(truth: seq<int>, read: seq<int>)
    requires NUL !in truth && NUL !in read
    ensures Distinct(FullTable(truth, read))
  {
    WalkIsOptimal(truth, read);
    var tally, best := TallyOf(truth, read), BestScript(truth, read);
    var rows := Rows(tally);
    RowsAt(tally);
    EntriesCount(tally);
    SortPermutes(Before, rows);
    hide Named, TallyOf, BestScript, CountOf, Substitutions, Sort;
    forall i | 0 <= i < |tally|
      ensures rows[i] == Confusion([tally[i].from], [tally[i].to], tally[i].count)
    {
      var e := tally[i];
      assert Substitutions(best, e.from, e.to) == e.count;
      SubstitutedFromTexts(best, e.from, e.to);
      NamedShape(e.from, e.to, e.count);
      assert e == Entry(e.from, e.to, e.count);
    }
    DistinctRearranged(rows, Sort(Before, rows));
  }

  /** A text that is one NUL, read as the letter a: the table's one row names nothing. */
  lemma NulMisnamed()
    ensures FullTable([NUL], [97]) == [Confusion([], [], 1)]
  {
    var t, o := [NUL], [97];
    assert LevAt(t, 0, o, 0) == 0 && LevAt(t, 0, o, 1) == 1 && LevAt(t, 1, o, 0) == 1 && LevAt(t, 1, o, 1) == 1;
    assert WalkFrom(t, 0, o, 0, [Entry(NUL, 97, 1)], 0).tally == [Entry(NUL, 97, 1)];
    assert TallyOf(t, o) == [Entry(NUL, 97, 1)];
    var key := Key(NUL, 97);
    assert key[1..] == [NUL, 97];
    assert Split(key) == [[]] + Split(key[1..]) && Split(key[1..]) == [[]] + Split(key[1..][1..]);
    assert Named(Entry(NUL, 97, 1)) == Confusion([], [], 1);
    var one := [Entry(NUL, 97, 1)];
    assert one[1..] == [];
    assert Rows(one) == [Confusion([], [], 1)] + Rows([]);
    var row := Confusion([], [], 1);
    assert [row][1..] == [];
    assert Sort(Before, [row]) == InsertInto(Before, row, Sort(Before, [])) == [row];
  }

  /** Texts compared as JavaScript compares them, unit by unit. */
  predicate UnitsBefore(a: Text, b: Text) {
    b != [] && (a == [] || a[0] < b[0] || (a[0] == b[0] && UnitsBefore(a[1..], b[1..])))
  }

  lemma RankIsUnitOrder(p: int, q: int)
    requires 0 <= p < 0x11_0000 && 0 <= q < 0x11_0000
    ensures PointRank(p) < PointRank(q) <==> UnitsBefore(UnitsOfPoint(p), UnitsOfPoint(q))
  {
    var a, b := UnitsOfPoint(p), UnitsOfPoint(q);
    UnitsBeforeShort(a, b);
    assert PointRank(p) == a[0] as int * 0x1_0000 + (if |a| == 2 then a[1] as int else 0);
    assert PointRank(q) == b[0] as int * 0x1_0000 + (if |b| == 2 then b[1] as int else 0);
  }

  lemma UnitsBeforeShort(a: Text, b: Text)
    requires 1 <= |a| <= 2 && 1 <= |b| <= 2
    ensures UnitsBefore(a, b) <==>
            a[0] < b[0] || (a[0] == b[0] && |b| == 2 && (|a| == 1 || a[1] < b[1]))
  {
    assert |a| == 2 ==> a[1..] == [a[1]] && a[1..][1..] == [];
    assert |b| == 2 ==> b[1..] == [b[1]] && b[1..][1..] == [];
  }

  lemma FullTableSorted(truth: seq<int>, read: seq<int>)
    ensures Sorted(Before, FullTable(truth, read))
  {
    BeforeIsTotal();
    SortSorts(Before, Rows(TallyOf(truth, read)));
  }

  /** Counts never rise along the table, so cutting it anywhere leaves out no row that counts more than one kept. */
  lemma CountsFall(truth: seq<int>, read: seq<int>, i: nat, j: nat)
    requires i <= j < |FullTable(truth, read)|
    ensures FullTable(truth, read)[i].count >= FullTable(truth, read)[j].count
  {
    FullTableSorted(truth, read);
    hide FullTable;
    if i < j {
      assert Before(FullTable(truth, read)[i], FullTable(truth, read)[j]);
    }
  }

  /** Of pairs as frequent, the character missed decides, and then the one read for it. */
  lemma TiesByUnits(truth: seq<int>, read: seq<int>, i: nat, j: nat)
    requires i < j < |FullTable(truth, read)|
    requires var a, b := FullTable(truth, read)[i], FullTable(truth, read)[j];
             a.count == b.count && WellNamed(a) && WellNamed(b) && ArePoints(a.from + a.to) && ArePoints(b.from + b.to)
    ensures var a, b := FullTable(truth, read)[i], FullTable(truth, read)[j];
            && ArePoints(a.from) && ArePoints(a.to) && ArePoints(b.from) && ArePoints(b.to)
            && (|| UnitsBefore(UnitsOf(a.from), UnitsOf(b.from))
                || (a.from == b.from && (UnitsBefore(UnitsOf(a.to), UnitsOf(b.to)) || a.to == b.to)))
  {
    FullTableSorted(truth, read);
    hide FullTable;
    var a, b := FullTable(truth, read)[i], FullTable(truth, read)[j];
    assert Before(a, b);
    RowOrder(a, b);
  }

  lemma PointOf(name: seq<int>, rest: seq<int>)
    requires |name| == 1 && (ArePoints(name + rest) || ArePoints(rest + name))
    ensures ArePoints(name) && name == [name[0]] && 0 <= name[0] < 0x11_0000 && UnitsOf(name) == UnitsOfPoint(name[0])
  {
    assert (name + rest)[0] == name[0] && (rest + name)[|rest|] == name[0];
    assert name[1..] == [] && UnitsOf(name) == UnitsOfPoint(name[0]) + UnitsOf(name[1..]);
  }

  lemma RowOrder(a: Confusion, b: Confusion)
    requires Before(a, b) && a.count == b.count && WellNamed(a) && WellNamed(b)
    requires ArePoints(a.from + a.to) && ArePoints(b.from + b.to)
    ensures && ArePoints(a.from) && ArePoints(a.to) && ArePoints(b.from) && ArePoints(b.to)
            && (|| UnitsBefore(UnitsOf(a.from), UnitsOf(b.from))
                || (a.from == b.from && (UnitsBefore(UnitsOf(a.to), UnitsOf(b.to)) || a.to == b.to)))
  {
    PointOf(a.from, a.to);
    PointOf(a.to, a.from);
    PointOf(b.from, b.to);
    PointOf(b.to, b.from);
    hide PointRank, UnitsBefore, UnitsOf, UnitsOfPoint;
    RankIsUnitOrder(a.from[0], b.from[0]);
    RankIsUnitOrder(a.to[0], b.to[0]);
    RankTells(a.from[0], b.from[0]);
    RankTells(a.to[0], b.to[0]);
  }

  lemma RankTells(p: int, q: int)
    requires 0 <= p < 0x11_0000 && 0 <= q < 0x11_0000
    ensures PointRank(p) == PointRank(q) <==> p == q
  {
  }

  /**
   * `truth` and `read` are the normalised texts, as code points. The table is the first `max` rows of
   * the full one, in the comparator's order; its counts never add up to more than the distance.
   */
  method Table(read: seq<int>, truth: seq<int>, max: nat) returns (table: seq<Confusion>)
    ensures table == FullTable(truth, read)[..Min(max, |FullTable(truth, read)|)]
    ensures Sorted(Before, table)
    ensures RowTotal(table) <= Lev(truth, read)
    ensures |table| <= max
  {
    var tally, sides, left := Walk(truth, read);
    var rows := Sort(Before, Rows(tally));
    table := rows[..Min(max, |rows|)];
    BeforeIsTotal();
    SortSorts(Before, Rows(tally));
    RowsTotal(tally);
    SortTotal(Rows(tally));
    CutTotal(rows, Min(max, |rows|));
  }
}

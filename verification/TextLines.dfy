/** Recognised lines: reading order, the editor-gutter rules that delete text, and the joined text. */
module TextLines {
  import opened Homoglyphs
  import opened Sequences
  import opened StableSort
  import opened Wrappers

  /** One recognised line; coordinates are fractions of the capture, measured from the top left. */
  datatype Line = Line(text: string, x: real, right: real, top: real, bottom: real)

  const GUTTER_X: real := 0.08
  const GUTTER_MIN_LINES: nat := 3

  // ----- reading order -----

  predicate TopFirst(a: Line, b: Line) { a.top <= b.top }

  predicate LeftFirst(a: Line, b: Line) { a.x <= b.x }

  predicate SameRow(first: Line, candidate: Line) {
    var height := first.bottom - first.top;
    var apart := candidate.top - first.top;
    (if apart < 0.0 then -apart else apart) < height * 0.5
  }

  type Rows = seq<seq<Line>>

  /** A line joins the last row when it is level with that row's first line, and starts a row when not. */
  function Placed(rows: Rows, line: Line): (next: Rows)
    requires forall r | 0 <= r < |rows| :: rows[r] != []
    ensures forall r | 0 <= r < |next| :: next[r] != []
  {
    if rows != [] && SameRow(rows[|rows| - 1][0], line) then rows[|rows| - 1 := rows[|rows| - 1] + [line]]
    else rows + [[line]]
  }

  function Grouped(lines: seq<Line>): (rows: Rows)
    ensures forall r | 0 <= r < |rows| :: rows[r] != []
  {
    if lines == [] then [] else Placed(Grouped(lines[..|lines| - 1]), lines[|lines| - 1])
  }

  function RowsSorted(rows: Rows): Rows {
    if rows == [] then [] else RowsSorted(rows[..|rows| - 1]) + [Sort(LeftFirst, rows[|rows| - 1])]
  }

  function Flattened(rows: Rows): seq<Line> {
    if rows == [] then [] else Flattened(rows[..|rows| - 1]) + rows[|rows| - 1]
  }

  function RowsOf(lines: seq<Line>): Rows { RowsSorted(Grouped(Sort(TopFirst, lines))) }

  function Ordered(lines: seq<Line>): seq<Line> { Flattened(RowsOf(lines)) }

  method Order(lines: seq<Line>) returns (ordered: seq<Line>)
    ensures ordered == Ordered(lines)
  {
    hide Sort, SameRow, Grouped, RowsSorted, Flattened;
    NothingGrouped();
    var sorted := Sort(TopFirst, lines);
    var rows: Rows := [];
    var i := 0;
    while i < |sorted|
      invariant 0 <= i <= |sorted|
      invariant rows == Grouped(sorted[..i])
    {
      var line := sorted[i];
      GroupedMore(sorted, i);
      if rows != [] && SameRow(rows[|rows| - 1][0], line) {
        rows := rows[|rows| - 1 := rows[|rows| - 1] + [line]];
      } else {
        rows := rows + [[line]];
      }
      i := i + 1;
    }
    assert sorted[..i] == sorted;
    ordered := [];
    var k := 0;
    while k < |rows|
      invariant 0 <= k <= |rows|
      invariant ordered == Flattened(RowsSorted(rows[..k]))
    {
      var row := Sort(LeftFirst, rows[k]);
      RowsSortedMore(rows, k);
      ordered := ordered + row;
      k := k + 1;
    }
    assert rows[..k] == rows;
  }

  lemma NothingGrouped()
    ensures Grouped([]) == [] && Flattened(RowsSorted([])) == []
  {
  }

  lemma GroupedMore(lines: seq<Line>, i: nat)
    requires i < |lines|
    ensures Grouped(lines[..i + 1]) == Placed(Grouped(lines[..i]), lines[i])
  {
    hide Placed;
    assert lines[..i + 1][..i] == lines[..i];
  }

  lemma RowsSortedMore(rows: Rows, k: nat)
    requires k < |rows|
    ensures Flattened(RowsSorted(rows[..k + 1])) == Flattened(RowsSorted(rows[..k])) + Sort(LeftFirst, rows[k])
  {
    hide Sort, Flattened;
    assert rows[..k + 1][..k] == rows[..k];
    FlattenedMore(RowsSorted(rows[..k]), Sort(LeftFirst, rows[k]));
  }

  lemma {:induction false} RowsSortedAt(rows: Rows)
    ensures |RowsSorted(rows)| == |rows|
    ensures forall r | 0 <= r < |rows| :: RowsSorted(rows)[r] == Sort(LeftFirst, rows[r])
  {
    if rows != [] {
      hide Sort;
      RowsSortedAt(rows[..|rows| - 1]);
    }
  }

  lemma OrdersTotal()
    ensures TotalPreorder(TopFirst) && TotalPreorder(LeftFirst)
  {
  }

  /** The top of `b` is less than half the height of `a` above or below the top of `a`. */
  predicate Level(a: Line, b: Line) {
    && 2.0 * (b.top - a.top) < a.bottom - a.top
    && 2.0 * (a.top - b.top) < a.bottom - a.top
  }

  lemma SameRowIsLevel(a: Line, b: Line)
    ensures SameRow(a, b) <==> Level(a, b)
  {
  }

  /** Every line of a row is level with its first. */
  ghost predicate RowsLevel(rows: Rows) {
    forall r, c | 0 <= r < |rows| && 0 < c < |rows[r]| :: Level(rows[r][0], rows[r][c])
  }

  /** No line of a row stands above a line of an earlier row. */
  ghost predicate TopDown(rows: Rows) {
    forall r, c, s, d | 0 <= r < s < |rows| && 0 <= c < |rows[r]| && 0 <= d < |rows[s]| ::
        rows[r][c].top <= rows[s][d].top
  }

  /** A row ends only where a line is not level with its first. */
  ghost predicate RowsApart(rows: Rows) {
    forall r, s | 0 <= r < s < |rows| && s == r + 1 :: rows[r] != [] && rows[s] != []
        && !Level(rows[r][0], rows[s][0])
  }

  lemma FlattenedMore(rows: Rows, row: seq<Line>)
    ensures Flattened(rows + [row]) == Flattened(rows) + row
  {
    assert (rows + [row])[..|rows|] == rows;
  }

  lemma PlacedFlattens(rows: Rows, line: Line)
    requires forall r | 0 <= r < |rows| :: rows[r] != []
    ensures Flattened(Placed(rows, line)) == Flattened(rows) + [line]
  {
    hide SameRow, Flattened;
    if rows != [] && SameRow(rows[|rows| - 1][0], line) {
      var front, last := rows[..|rows| - 1], rows[|rows| - 1];
      assert Placed(rows, line) == front + [last + [line]] && rows == front + [last];
      FlattenedMore(front, last);
      FlattenedMore(front, last + [line]);
    } else {
      FlattenedMore(rows, [line]);
    }
  }

  lemma PlacedKeeps(rows: Rows, line: Line)
    requires forall r | 0 <= r < |rows| :: rows[r] != []
    requires RowsLevel(rows) && TopDown(rows) && RowsApart(rows)
    requires forall r, c | 0 <= r < |rows| && 0 <= c < |rows[r]| :: rows[r][c].top <= line.top
    ensures RowsLevel(Placed(rows, line)) && TopDown(Placed(rows, line)) && RowsApart(Placed(rows, line))
  {
    if rows != [] {
      SameRowIsLevel(rows[|rows| - 1][0], line);
    }
    hide SameRow, Level;
  }

  lemma {:induction false} MemberOfFlattened(rows: Rows, r: nat, c: nat)
    requires r < |rows| && c < |rows[r]|
    ensures rows[r][c] in Flattened(rows)
  {
    if r < |rows| - 1 {
      MemberOfFlattened(rows[..|rows| - 1], r, c);
    }
  }

  lemma AllAbove(rows: Rows, lines: seq<Line>)
    requires lines != [] && Sorted(TopFirst, lines) && Flattened(rows) == lines[..|lines| - 1]
    ensures forall r, c | 0 <= r < |rows| && 0 <= c < |rows[r]| :: rows[r][c].top <= lines[|lines| - 1].top
  {
    hide Flattened;
    forall r, c | 0 <= r < |rows| && 0 <= c < |rows[r]|
      ensures rows[r][c].top <= lines[|lines| - 1].top
    {
      MemberOfFlattened(rows, r, c);
      var k :| 0 <= k < |lines| - 1 && lines[k] == rows[r][c];
      assert TopFirst(lines[k], lines[|lines| - 1]);
    }
  }

  lemma NothingToRead()
    ensures Flattened(Grouped([])) == [] && RowsLevel(Grouped([])) && TopDown(Grouped([])) && RowsApart(Grouped([]))
  {
  }

  lemma GroupedLast(lines: seq<Line>)
    requires lines != [] && Sorted(TopFirst, lines)
    ensures Grouped(lines) == Placed(Grouped(lines[..|lines| - 1]), lines[|lines| - 1])
    ensures Sorted(TopFirst, lines[..|lines| - 1])
  {
    hide Placed;
  }

  lemma {:induction false} GroupedReads(lines: seq<Line>)
    requires Sorted(TopFirst, lines)
    ensures Flattened(Grouped(lines)) == lines
    ensures RowsLevel(Grouped(lines)) && TopDown(Grouped(lines)) && RowsApart(Grouped(lines))
  {
    hide *;
    if lines == [] {
      NothingToRead();
    } else {
      var front, line := lines[..|lines| - 1], lines[|lines| - 1];
      GroupedLast(lines);
      GroupedReads(front);
      AllAbove(Grouped(front), lines);
      PlacedKeeps(Grouped(front), line);
      PlacedFlattens(Grouped(front), line);
      assert lines == front + [line];
    }
  }

  lemma {:induction false} RowsSortedPermutes(rows: Rows)
    ensures multiset(Flattened(RowsSorted(rows))) == multiset(Flattened(rows))
  {
    if rows != [] {
      hide Sort;
      var front, row := rows[..|rows| - 1], rows[|rows| - 1];
      RowsSortedPermutes(front);
      SortPermutes(LeftFirst, row);
      assert RowsSorted(rows)[..|RowsSorted(front)|] == RowsSorted(front);
    }
  }

  /** No line is lost, invented or said twice. */
  lemma OrderKeepsLines(lines: seq<Line>)
    ensures multiset(Ordered(lines)) == multiset(lines)
  {
    OrdersTotal();
    SortSorts(TopFirst, lines);
    SortPermutes(TopFirst, lines);
    GroupedReads(Sort(TopFirst, lines));
    RowsSortedPermutes(Grouped(Sort(TopFirst, lines)));
  }

  /** `sorted` holds each row of `rows`, from left to right. */
  ghost predicate RowsLeftToRight(rows: Rows, sorted: Rows) {
    && |sorted| == |rows|
    && (forall r | 0 <= r < |rows| :: multiset(sorted[r]) == multiset(rows[r]))
    && (forall r, c, d | 0 <= r < |rows| && 0 <= c < d < |sorted[r]| :: sorted[r][c].x <= sorted[r][d].x)
  }

  lemma RowsSortedLeftToRight(rows: Rows)
    ensures RowsLeftToRight(rows, RowsSorted(rows))
  {
    OrdersTotal();
    RowsSortedAt(rows);
    hide Sort;
    forall r | 0 <= r < |rows|
      ensures multiset(Sort(LeftFirst, rows[r])) == multiset(rows[r]) && Sorted(LeftFirst, Sort(LeftFirst, rows[r]))
    {
      SortSorts(LeftFirst, rows[r]);
      SortPermutes(LeftFirst, rows[r]);
    }
    forall r, c, d | 0 <= r < |rows| && 0 <= c < d < |RowsSorted(rows)[r]|
      ensures RowsSorted(rows)[r][c].x <= RowsSorted(rows)[r][d].x
    {
      assert LeftFirst(RowsSorted(rows)[r][c], RowsSorted(rows)[r][d]);
    }
  }

  /**
   * Reading order: the lines fall into rows that run from the top down, each row holding the lines level
   * with its topmost and ending where one is not; the answer is the rows in turn, each from left to right.
   */
  lemma ReadingOrder(lines: seq<Line>)
    ensures exists rows: Rows, sorted: Rows ::
              && Flattened(rows) == Sort(TopFirst, lines)
              && RowsLevel(rows) && TopDown(rows) && RowsApart(rows)
              && RowsLeftToRight(rows, sorted) && Ordered(lines) == Flattened(sorted)
  {
    OrdersTotal();
    SortSorts(TopFirst, lines);
    GroupedReads(Sort(TopFirst, lines));
    var rows := Grouped(Sort(TopFirst, lines));
    RowsSortedLeftToRight(rows);
    assert Ordered(lines) == Flattened(RowsSorted(rows));
  }

  /** Right of a line in the answer nothing stands above it, and within its row nothing stands left of it. */
  lemma SortedRowsTopDown(rows: Rows, sorted: Rows)
    requires TopDown(rows) && RowsLeftToRight(rows, sorted)
    ensures TopDown(sorted)
  {
    forall r, c, s, d | 0 <= r < s < |sorted| && 0 <= c < |sorted[r]| && 0 <= d < |sorted[s]|
      ensures sorted[r][c].top <= sorted[s][d].top
    {
      assert sorted[r][c] in multiset(sorted[r]) && sorted[s][d] in multiset(sorted[s]);
      var c' :| 0 <= c' < |rows[r]| && rows[r][c'] == sorted[r][c];
      var d' :| 0 <= d' < |rows[s]| && rows[s][d'] == sorted[s][d];
    }
  }

  // ----- editor gutters -----

  datatype Gutter = Whole | Prefix(length: nat)

  /** A left-edge number: the line it is on, its value, and the shape it came in. */
  datatype Candidate = Candidate(index: nat, number: nat, shape: Gutter)

  predicate IsAsciiDigit(c: char) { '0' <= c <= '9' }

  predicate AllDigits(s: string) { forall i | 0 <= i < |s| :: IsAsciiDigit(s[i]) }

  predicate AllSpaces(s: string) { forall i | 0 <= i < |s| :: IsSpace(s[i]) }

  function Number(digits: string): nat
    requires AllDigits(digits)
  {
    if digits == "" then 0 else Number(digits[..|digits| - 1]) * 10 + (digits[|digits| - 1] as nat - '0' as nat)
  }

  function DigitRun(s: string): (n: nat)
    ensures n <= |s| && AllDigits(s[..n])
    ensures n < |s| ==> !IsAsciiDigit(s[n])
  {
    if s == "" || !IsAsciiDigit(s[0]) then 0
    else
      var n := DigitRun(s[1..]);
      assert forall i | 0 < i < n + 1 :: s[i] == s[1..][..n][i - 1];
      n + 1
  }

  function SpaceRun(s: string): (n: nat)
    ensures n <= |s| && AllSpaces(s[..n])
    ensures n < |s| ==> !IsSpace(s[n])
  {
    if s == "" || !IsSpace(s[0]) then 0
    else
      var n := SpaceRun(s[1..]);
      assert forall i | 0 < i < n + 1 :: s[i] == s[1..][..n][i - 1];
      n + 1
  }

  function TrimmedEnd(s: string): string { if s != "" && IsSpace(s[|s| - 1]) then TrimmedEnd(s[..|s| - 1]) else s }

  function Trimmed(s: string): string { TrimmedEnd(s[SpaceRun(s)..]) }

  function AtMost3(n: nat): nat { if n <= 3 then n else 3 }

  /** The length of a leading `\d{1,5}\s{1,3}`, in characters, if the line starts with one. */
  function GutterPrefixLen(text: string): (n: Option<nat>)
    ensures n.Some? ==> 0 < n.value <= |text|
  {
    var digits := DigitRun(text);
    var spaces := SpaceRun(text[digits..]);
    if !(1 <= digits <= 5) || spaces == 0 then None else Some(digits + AtMost3(spaces))
  }

  function GutterCandidate(text: string, x: real): Option<(nat, Gutter)> {
    var trimmed := Trimmed(text);
    if !(x < GUTTER_X) then None
    else if 1 <= |trimmed| <= 6 && AllDigits(trimmed) then Some((Number(trimmed), Whole))
    else
      var prefix := GutterPrefixLen(text);
      if prefix.None? then None else Some((Number(text[..DigitRun(text)]), Prefix(prefix.value)))
  }

  function Texts(lines: seq<Line>): seq<string> {
    seq(|lines|, i requires 0 <= i < |lines| => Normalised(lines[i].text))
  }

  /** The numbered lines among the first `n`, in order. */
  function Candidates(lines: seq<Line>, n: nat): seq<Candidate>
    requires n <= |lines|
  {
    if n == 0 then []
    else
      var c := GutterCandidate(Normalised(lines[n - 1].text), lines[n - 1].x);
      Candidates(lines, n - 1) + (if c.Some? then [Candidate(n - 1, c.value.0, c.value.1)] else [])
  }

  /** Three candidates in a row, each one more than the last, with candidate `j` among them. */
  predicate InRun(cs: seq<Candidate>, j: nat) {
    exists a | 0 <= a < |cs| - 2 :: a <= j <= a + 2 && Steps(cs, a) && Steps(cs, a + 1)
  }

  predicate Steps(cs: seq<Candidate>, a: nat) { a + 1 < |cs| && cs[a + 1].number == cs[a].number + 1 }

  predicate Increasing(cs: seq<Candidate>, n: nat) {
    && (forall j | 0 <= j < |cs| :: cs[j].index < n)
    && (forall j, k | 0 <= j < k < |cs| :: cs[j].index < cs[k].index)
  }

  lemma NoCandidates(lines: seq<Line>)
    ensures Increasing(Candidates(lines, 0), 0)
  {
  }

  lemma CandidatesStep(lines: seq<Line>, n: nat)
    requires 0 < n <= |lines|
    ensures var c := GutterCandidate(Normalised(lines[n - 1].text), lines[n - 1].x);
            Candidates(lines, n)
                == Candidates(lines, n - 1) + (if c.Some? then [Candidate(n - 1, c.value.0, c.value.1)] else [])
  {
    hide GutterCandidate, Normalised;
  }

  lemma {:induction false} CandidatesIncrease(lines: seq<Line>, n: nat)
    requires n <= |lines|
    ensures Increasing(Candidates(lines, n), n)
  {
    hide *;
    if n == 0 {
      NoCandidates(lines);
    } else {
      CandidatesIncrease(lines, n - 1);
      CandidatesStep(lines, n);
      IncreasingMore(Candidates(lines, n - 1), n - 1);
    }
  }

  lemma IncreasingMore(cs: seq<Candidate>, n: nat)
    requires Increasing(cs, n)
    ensures Increasing(cs, n + 1) && Increasing(cs + [], n + 1)
    ensures forall number, shape :: Increasing(cs + [Candidate(n, number, shape)], n + 1)
  {
    assert cs + [] == cs;
  }

  /** A maximal run of steps: candidates `start` to `end`, and no step into or out of it. */
  ghost predicate MaximalRun(cs: seq<Candidate>, start: nat, end: nat) {
    && start < end <= |cs|
    && (forall j | start <= j < end - 1 :: Steps(cs, j))
    && (start > 0 ==> !Steps(cs, start - 1))
    && (end < |cs| ==> !Steps(cs, end - 1))
  }

  /** In a maximal run, either all are in three in a row or none is. */
  lemma RunDecides(cs: seq<Candidate>, start: nat, end: nat, j: nat)
    requires MaximalRun(cs, start, end) && start <= j < end
    ensures InRun(cs, j) <==> end - start >= GUTTER_MIN_LINES
  {
    if end - start >= GUTTER_MIN_LINES {
      var a := if j + 3 <= end then j else if j + 2 <= end then j - 1 else j - 2;
      var b := if a < start then start else a;
      assert Steps(cs, b) && Steps(cs, b + 1);
    }
    if InRun(cs, j) {
      var a :| 0 <= a < |cs| - 2 && a <= j <= a + 2 && Steps(cs, a) && Steps(cs, a + 1);
      assert a >= start;
      assert a + 2 < end;
    }
  }

  /** The marks of the candidates seen so far, and of no other line. */
  ghost predicate Marked(marks: seq<Option<Gutter>>, cs: seq<Candidate>, done: nat) {
    && (forall j | 0 <= j < |cs| :: cs[j].index < |marks|)
    && (forall j | 0 <= j < |cs| :: marks[cs[j].index] == if j < done && InRun(cs, j) then Some(cs[j].shape) else None)
    && (forall i | 0 <= i < |marks| :: marks[i].Some? ==> exists j :: 0 <= j < |cs| && cs[j].index == i)
  }

  method GutterMarks(lines: seq<Line>, texts: seq<string>) returns (marks: seq<Option<Gutter>>)
    requires texts == Texts(lines)
    ensures |marks| == |lines| && Marked(marks, Candidates(lines, |lines|), |Candidates(lines, |lines|)|)
  {
    hide GutterCandidate, InRun, Normalised;
    var candidates: seq<Candidate> := [];
    for index := 0 to |lines|
      invariant candidates == Candidates(lines, index)
    {
      var c := GutterCandidate(texts[index], lines[index].x);
      if c.Some? {
        candidates := candidates + [Candidate(index, c.value.0, c.value.1)];
      }
    }
    CandidatesIncrease(lines, |lines|);
    marks := seq(|lines|, i => None);
    var start := 0;
    while start < |candidates|
      invariant 0 <= start <= |candidates| && |marks| == |lines|
      invariant start > 0 ==> !Steps(candidates, start - 1)
      invariant Marked(marks, candidates, start)
    {
      var end := start + 1;
      while end < |candidates| && candidates[end].number == candidates[end - 1].number + 1
        invariant start < end <= |candidates|
        invariant forall j | start <= j < end - 1 :: Steps(candidates, j)
      {
        assert Steps(candidates, end - 1);
        end := end + 1;
      }
      assert MaximalRun(candidates, start, end);
      marks := MarkRun(marks, candidates, start, end);
      start := end;
    }
  }

  /** Marks a maximal run when it is long enough. */
  method MarkRun(marks: seq<Option<Gutter>>, cs: seq<Candidate>, start: nat, end: nat)
    returns (next: seq<Option<Gutter>>)
    requires Increasing(cs, |marks|) && MaximalRun(cs, start, end) && Marked(marks, cs, start)
    ensures |next| == |marks| && Marked(next, cs, end)
  {
    hide InRun, MaximalRun;
    next := marks;
    forall j | start <= j < end
      ensures InRun(cs, j) <==> end - start >= GUTTER_MIN_LINES
    {
      RunDecides(cs, start, end, j);
    }
    RunBounds(cs, start, end);
    if end - start >= GUTTER_MIN_LINES {
      for k := start to end
        invariant |next| == |marks| && Marked(next, cs, k)
      {
        next := next[cs[k].index := Some(cs[k].shape)];
      }
    }
  }

  lemma RunBounds(cs: seq<Candidate>, start: nat, end: nat)
    requires MaximalRun(cs, start, end)
    ensures start < end <= |cs|
  {
  }

  // ----- cleaning -----

  /** What the rules leave of a line: all of it, what follows its number, or nothing at all. */
  function Kept(text: string, mark: Option<Gutter>): Option<string>
    requires mark.Some? && mark.value.Prefix? ==> mark.value.length <= |text|
  {
    match mark
    case None => Some(text)
    case Some(Whole) => None
    case Some(Prefix(n)) => Some(text[n..])
  }

  /** The mark a line deserves: its candidate's shape, when it is one of three numbers in a row. */
  ghost predicate Deserved(lines: seq<Line>, i: nat, mark: Option<Gutter>)
    requires i < |lines|
  {
    var cs := Candidates(lines, |lines|);
    if mark.None? then forall j | 0 <= j < |cs| && cs[j].index == i :: !InRun(cs, j)
    else exists j | 0 <= j < |cs| && cs[j].index == i :: InRun(cs, j) && cs[j].shape == mark.value
  }

  lemma MarksDeserved(lines: seq<Line>, marks: seq<Option<Gutter>>)
    requires |marks| == |lines| && Marked(marks, Candidates(lines, |lines|), |Candidates(lines, |lines|)|)
    ensures forall i | 0 <= i < |lines| :: Deserved(lines, i, marks[i])
  {
    hide InRun, Candidates;
  }

  lemma {:induction false} CandidateOf(lines: seq<Line>, n: nat, j: nat)
    requires n <= |lines| && j < |Candidates(lines, n)|
    ensures var c := Candidates(lines, n)[j];
            && c.index < n
            && GutterCandidate(Normalised(lines[c.index].text), lines[c.index].x) == Some((c.number, c.shape))
  {
    hide GutterCandidate, Normalised;
    if n > 0 && j < |Candidates(lines, n - 1)| {
      CandidateOf(lines, n - 1, j);
    }
  }

  lemma {:induction false} TrimmedKeepsInside(s: string)
    ensures exists a: string, b: string :: AllSpaces(a) && AllSpaces(b) && s == a + Trimmed(s) + b
  {
    var n := SpaceRun(s);
    var b := TrimmedEndKeeps(s[n..]);
    assert s == s[..n] + Trimmed(s) + b;
  }

  lemma {:induction false} TrimmedEndKeeps(s: string) returns (b: string)
    ensures AllSpaces(b) && s == TrimmedEnd(s) + b
  {
    if s != "" && IsSpace(s[|s| - 1]) {
      var c := TrimmedEndKeeps(s[..|s| - 1]);
      b := c + [s[|s| - 1]];
      assert s == s[..|s| - 1] + [s[|s| - 1]];
    } else {
      b := "";
    }
  }

  /** A line that is nothing but a number, with white space about it. */
  ghost predicate OnlyANumber(text: string) {
    exists a: string, d: string, b: string :: text == a + d + b && AllSpaces(a) && AllSpaces(b) && 1 <= |d| <= 6
        && AllDigits(d)
  }

  /** A number of one to five digits, and white space: as much as there is, and three characters at most. */
  predicate Prefixed(d: string, w: string, rest: string) {
    && 1 <= |d| <= 5 && AllDigits(d) && 1 <= |w| <= 3 && AllSpaces(w)
    && (|w| < 3 && rest != "" ==> !IsSpace(rest[0]))
  }

  /** `text` is such a number, such white space, and `rest`. */
  ghost predicate NumberThen(text: string, rest: string) {
    exists d: string, w: string :: text == d + w + rest && Prefixed(d, w, rest)
  }

  lemma SpacesIn(text: string, k: nat, w: nat, m: nat)
    requires k <= |text| && m <= w <= |text| - k && AllSpaces(text[k..][..w])
    ensures AllSpaces(text[k..k + m])
  {
    hide IsSpace;
    var spaces := text[k..k + m];
    forall i | 0 <= i < |spaces|
      ensures IsSpace(spaces[i])
    {
      assert spaces[i] == text[k..][..w][i];
    }
  }

  /** A candidate's shape says what is deleted: a bare number, or a number and the white space after it. */
  lemma ShapeOf(text: string, x: real)
    requires GutterCandidate(text, x).Some?
    ensures x < GUTTER_X
    ensures GutterCandidate(text, x).value.1.Whole? ==> OnlyANumber(text)
    ensures GutterCandidate(text, x).value.1.Prefix? ==>
              var n := GutterCandidate(text, x).value.1.length;
              n <= |text| && NumberThen(text, text[n..])
  {
    hide IsSpace, IsAsciiDigit, Trimmed, SpaceRun, DigitRun;
    if GutterCandidate(text, x).value.1.Whole? {
      TrimmedKeepsInside(text);
      var a: string, b: string :| AllSpaces(a) && AllSpaces(b) && text == a + Trimmed(text) + b;
      assert OnlyANumber(text);
    } else {
      var k := DigitRun(text);
      var w := SpaceRun(text[k..]);
      var m := AtMost3(w);
      SpacesIn(text, k, w, m);
      assert text == text[..k] + text[k..k + m] + text[k + m..];
      assert m < 3 && k + m < |text| ==> text[k + m] == text[k..][w];
      assert Prefixed(text[..k], text[k..k + m], text[k + m..]);
    }
  }

  /**
   * What the rules do to one line, given its mark: kept whole unless it is one of three left-edge numbers
   * in a row; dropped only when it is nothing but such a number; else only the number and at most three
   * white-space characters after it go.
   */
  lemma WhatIsDeleted(lines: seq<Line>, i: nat, mark: Option<Gutter>)
    requires i < |lines| && Deserved(lines, i, mark)
    ensures var text := Normalised(lines[i].text);
            && (mark.Some? ==> lines[i].x < GUTTER_X)
            && (mark == Some(Whole) ==> OnlyANumber(text))
            && (mark.Some? && mark.value.Prefix?
                ==> mark.value.length <= |text| && NumberThen(text, text[mark.value.length..]))
  {
    hide Normalised, GutterCandidate, OnlyANumber, NumberThen, InRun;
    if mark.Some? {
      var cs := Candidates(lines, |lines|);
      var j :| 0 <= j < |cs| && cs[j].index == i && InRun(cs, j) && cs[j].shape == mark.value;
      CandidateOf(lines, |lines|, j);
      ShapeOf(Normalised(lines[i].text), lines[i].x);
    }
  }

  /** The lines kept of the first `n`, given the marks. */
  function KeptLines(lines: seq<Line>, marks: seq<Option<Gutter>>, n: nat): seq<Line>
    requires n <= |lines| == |marks|
    requires forall i | 0 <= i < |lines| && marks[i].Some? && marks[i].value.Prefix? ::
               marks[i].value.length <= |Normalised(lines[i].text)|
  {
    if n == 0 then []
    else
      var kept := Kept(Normalised(lines[n - 1].text), marks[n - 1]);
      KeptLines(lines, marks, n - 1) + (if kept.Some? then [lines[n - 1].(text := kept.value)] else [])
  }

  ghost predicate AllDeserved(lines: seq<Line>, marks: seq<Option<Gutter>>) {
    |marks| == |lines| && forall i | 0 <= i < |lines| :: Deserved(lines, i, marks[i])
  }

  lemma DeservedFits(lines: seq<Line>, marks: seq<Option<Gutter>>)
    requires AllDeserved(lines, marks)
    ensures forall i | 0 <= i < |lines| && marks[i].Some? && marks[i].value.Prefix? ::
              marks[i].value.length <= |Normalised(lines[i].text)|
  {
    hide Deserved, NumberThen, OnlyANumber;
    forall i | 0 <= i < |lines|
      ensures marks[i].Some? && marks[i].value.Prefix? ==> marks[i].value.length <= |Normalised(lines[i].text)|
    {
      WhatIsDeleted(lines, i, marks[i]);
    }
  }

  /** `out` is what the rules leave of `lines`. */
  ghost predicate IsCleaned(lines: seq<Line>, out: seq<Line>) {
    exists marks: seq<Option<Gutter>> ::
      AllDeserved(lines, marks) && (DeservedFits(lines, marks); out == KeptLines(lines, marks, |lines|))
  }

  method Cleaned(lines: seq<Line>) returns (out: seq<Line>)
    ensures IsCleaned(lines, out)
    ensures exists at: seq<nat> :: LeftAt(lines, |lines|, out, at)
  {
    hide Normalised, GutterCandidate, Candidates, InRun, Deserved, Kept, LeftAt;
    var texts: seq<string> := [];
    for i := 0 to |lines|
      invariant |texts| == i && forall k | 0 <= k < i :: texts[k] == Normalised(lines[k].text)
    {
      var text := NormaliseHomoglyphs(lines[i].text);
      texts := texts + [text];
    }
    assert texts == Texts(lines);
    var marks := GutterMarks(lines, texts);
    MarksDeserved(lines, marks);
    DeservedFits(lines, marks);
    out := [];
    for i := 0 to |lines|
      invariant out == KeptLines(lines, marks, i)
    {
      var kept := Kept(texts[i], marks[i]);
      if kept.Some? {
        out := out + [lines[i].(text := kept.value)];
      }
    }
    var at := CleanedIs(lines, out);
  }

  /** The marks, and so the answer, are determined. */
  lemma CleanedUnique(lines: seq<Line>, a: seq<Line>, b: seq<Line>)
    requires IsCleaned(lines, a) && IsCleaned(lines, b)
    ensures a == b
  {
    hide KeptLines;
    var m: seq<Option<Gutter>> :| AllDeserved(lines, m) && (DeservedFits(lines, m); a == KeptLines(lines, m, |lines|));
    var n: seq<Option<Gutter>> :| AllDeserved(lines, n) && (DeservedFits(lines, n); b == KeptLines(lines, n, |lines|));
    forall i | 0 <= i < |lines|
      ensures m[i] == n[i]
    {
      DeservedUnique(lines, i, m[i], n[i]);
    }
    assert m == n;
  }

  lemma DeservedUnique(lines: seq<Line>, i: nat, m: Option<Gutter>, n: Option<Gutter>)
    requires i < |lines| && Deserved(lines, i, m) && Deserved(lines, i, n)
    ensures m == n
  {
    hide InRun, Candidates;
    CandidatesIncrease(lines, |lines|);
  }

  function Repaired(lines: seq<Line>): seq<Line> {
    seq(|lines|, i requires 0 <= i < |lines| => lines[i].(text := Normalised(lines[i].text)))
  }

  lemma {:induction false} SameCandidates(lines: seq<Line>, n: nat)
    requires n <= |lines|
    ensures Candidates(Repaired(lines), n) == Candidates(lines, n)
  {
    hide GutterCandidate, Normalised;
    if n > 0 {
      SameCandidates(lines, n - 1);
      NormalisedIdempotent(lines[n - 1].text);
    }
  }

  lemma {:induction false} SameKept(lines: seq<Line>, marks: seq<Option<Gutter>>, n: nat)
    requires AllDeserved(lines, marks) && AllDeserved(Repaired(lines), marks) && n <= |lines|
    ensures (DeservedFits(lines, marks); DeservedFits(Repaired(lines), marks);
             KeptLines(Repaired(lines), marks, n) == KeptLines(lines, marks, n))
  {
    hide AllDeserved, Normalised;
    DeservedFits(lines, marks);
    DeservedFits(Repaired(lines), marks);
    if n > 0 {
      SameKept(lines, marks, n - 1);
      NormalisedIdempotent(lines[n - 1].text);
    }
  }

  /** Repairing every line first changes nothing: the second pass finds nothing left to repair. */
  lemma RepairFirstChangesNothing(lines: seq<Line>, out: seq<Line>)
    requires IsCleaned(lines, out)
    ensures IsCleaned(Repaired(lines), out)
  {
    var marks: seq<Option<Gutter>> :| AllDeserved(lines, marks)
        && (DeservedFits(lines, marks); out == KeptLines(lines, marks, |lines|));
    SameCandidates(lines, |lines|);
    assert AllDeserved(Repaired(lines), marks) by {
      hide InRun, Candidates;
    }
    SameKept(lines, marks, |lines|);
    DeservedFits(lines, marks);
    DeservedFits(Repaired(lines), marks);
  }

  // ----- what is left of each line, from the lines alone -----

  function Pow10(n: nat): nat { if n == 0 then 1 else 10 * Pow10(n - 1) }

  /** Digits are read as a decimal number: a digit stands for its value, and each place counts ten times the next. */
  lemma {:induction false} NumberJoins(s: string, t: string)
    requires AllDigits(s) && AllDigits(t)
    ensures AllDigits(s + t) && Number(s + t) == Number(s) * Pow10(|t|) + Number(t)
    ensures |t| == 1 ==> Number(t) == t[0] as nat - '0' as nat
  {
    if t == "" {
      assert s + t == s;
    } else {
      var front := t[..|t| - 1];
      NumberJoins(s, front);
      assert (s + t)[..|s + t| - 1] == s + front;
      TenTimes(Number(s), Pow10(|front|), Number(front));
    }
  }

  lemma TenTimes(n: nat, p: nat, m: nat)
    ensures (n * p + m) * 10 == n * (10 * p) + m * 10
  {
  }

  function Decimal(n: nat): (digits: string)
    ensures AllDigits(digits) && digits != ""
  {
    var last := ['0' + (n % 10) as char];
    if n < 10 then last else Decimal(n / 10) + last
  }

  lemma {:induction false} NumberOfDecimal(n: nat)
    ensures Number(Decimal(n)) == n
  {
    var d := Decimal(n);
    assert d[|d| - 1] as nat - '0' as nat == n % 10;
    if n >= 10 {
      NumberOfDecimal(n / 10);
      assert d[..|d| - 1] == Decimal(n / 10);
    } else {
      assert d[..|d| - 1] == "";
    }
  }

  /** A line that is nothing but this number. */
  ghost predicate BareNumber(text: string, d: string) {
    exists a: string, b: string :: text == a + d + b && AllSpaces(a) && AllSpaces(b) && 1 <= |d| <= 6 && AllDigits(d)
  }

  ghost predicate PrefixNumber(text: string, d: string) {
    exists w: string, rest: string :: text == d + w + rest && Prefixed(d, w, rest)
  }

  /** A line at the left edge that is the number `n`, or starts with it and white space. */
  ghost predicate HasNumber(line: Line, n: nat) {
    && line.x < 0.08
    && exists d: string :: AllDigits(d) && Number(d) == n
                           && (BareNumber(Normalised(line.text), d) || PrefixNumber(Normalised(line.text), d))
  }

  ghost predicate Numbered(line: Line) { exists n: nat :: HasNumber(line, n) }

  // Both forms, read back by the code's scans.

  lemma DigitIsNoSpace(c: char)
    requires IsAsciiDigit(c)
    ensures !IsSpace(c)
  {
  }

  lemma {:induction false} SpaceRunIs(a: string, rest: string)
    requires AllSpaces(a) && (rest == "" || !IsSpace(rest[0]))
    ensures SpaceRun(a + rest) == |a|
  {
    hide IsSpace;
    if a == "" {
      assert a + rest == rest;
    } else {
      assert (a + rest)[0] == a[0] && (a + rest)[1..] == a[1..] + rest;
      SpaceRunIs(a[1..], rest);
    }
  }

  lemma {:induction false} DigitRunIs(d: string, rest: string)
    requires AllDigits(d) && (rest == "" || !IsAsciiDigit(rest[0]))
    ensures DigitRun(d + rest) == |d|
  {
    hide IsAsciiDigit;
    if d == "" {
      assert d + rest == rest;
    } else {
      assert (d + rest)[0] == d[0] && (d + rest)[1..] == d[1..] + rest;
      DigitRunIs(d[1..], rest);
    }
  }

  lemma {:induction false} TrimmedEndIs(d: string, b: string)
    requires AllSpaces(b) && (d == "" || !IsSpace(d[|d| - 1]))
    ensures TrimmedEnd(d + b) == d
  {
    hide IsSpace;
    if b == "" {
      assert d + b == d;
    } else {
      var s := d + b;
      assert s[|s| - 1] == b[|b| - 1] && s[..|s| - 1] == d + b[..|b| - 1];
      TrimmedEndIs(d, b[..|b| - 1]);
    }
  }

  lemma TrimmedIs(a: string, d: string, b: string)
    requires AllSpaces(a) && AllSpaces(b) && d != "" && AllDigits(d)
    ensures Trimmed(a + d + b) == d
  {
    DigitIsNoSpace(d[0]);
    DigitIsNoSpace(d[|d| - 1]);
    hide IsSpace, IsAsciiDigit, TrimmedEnd, SpaceRun;
    assert a + d + b == a + (d + b) && (d + b)[0] == d[0];
    SpaceRunIs(a, d + b);
    assert (a + (d + b))[|a|..] == d + b;
    TrimmedEndIs(d, b);
  }

  lemma SpaceIsNoDigit(c: char)
    requires IsSpace(c)
    ensures !IsAsciiDigit(c)
  {
  }

  lemma {:induction false} MoreSpaces(w: string, rest: string)
    requires AllSpaces(w) && |w| == 3
    ensures SpaceRun(w + rest) >= 3
  {
    hide IsSpace;
    var s := w + rest;
    var n := SpaceRun(s);
    if n < 3 {
      assert false;
    }
  }

  lemma PrefixLenIs(text: string, digits: nat, spaces: nat)
    requires digits == DigitRun(text) && spaces == SpaceRun(text[digits..]) && 1 <= digits <= 5 && spaces > 0
    ensures GutterPrefixLen(text) == Some(digits + AtMost3(spaces))
  {
    hide DigitRun, SpaceRun, AtMost3;
  }

  lemma PrefixedParts(d: string, w: string, rest: string)
    requires Prefixed(d, w, rest)
    ensures 1 <= |d| <= 5 && AllDigits(d) && 1 <= |w| <= 3 && AllSpaces(w) && !IsAsciiDigit(w[0])
    ensures |w| < 3 ==> rest == "" || !IsSpace(rest[0])
  {
    SpaceIsNoDigit(w[0]);
    hide IsSpace, IsAsciiDigit;
  }

  lemma SpacesAfter(w: string, rest: string)
    requires 1 <= |w| <= 3 && AllSpaces(w) && (|w| < 3 ==> rest == "" || !IsSpace(rest[0]))
    ensures AtMost3(SpaceRun(w + rest)) == |w|
  {
    hide IsSpace, AllSpaces, SpaceRun;
    if |w| < 3 {
      SpaceRunIs(w, rest);
    } else {
      MoreSpaces(w, rest);
    }
  }

  lemma AtMost3Of(n: nat)
    ensures n > 0 <==> AtMost3(n) > 0
  {
  }

  lemma PrefixIs(d: string, w: string, rest: string)
    requires Prefixed(d, w, rest)
    ensures GutterPrefixLen(d + w + rest) == Some(|d| + |w|) && DigitRun(d + w + rest) == |d|
  {
    hide *;
    PrefixedParts(d, w, rest);
    var text, after := d + w + rest, w + rest;
    assert text == d + after && after[0] == w[0];
    DigitRunIs(d, after);
    assert text[|d|..] == after;
    SpacesAfter(w, rest);
    AtMost3Of(SpaceRun(after));
    PrefixLenIs(text, |d|, SpaceRun(after));
  }

  lemma BareIs(text: string, x: real, d: string)
    requires x < 0.08 && BareNumber(text, d)
    ensures GutterCandidate(text, x) == Some((Number(d), Whole))
  {
    hide IsSpace, IsAsciiDigit, SpaceRun, DigitRun, Number, Trimmed, AllSpaces, AllDigits;
    var a: string, b: string :| text == a + d + b && AllSpaces(a) && AllSpaces(b) && 1 <= |d| <= 6 && AllDigits(d);
    TrimmedIs(a, d, b);
  }

  /** A bare number at the left edge is a candidate, and so is a number before white space, each with its value. */
  lemma CandidateIs(text: string, x: real, d: string)
    requires x < 0.08 && (BareNumber(text, d) || PrefixNumber(text, d))
    ensures GutterCandidate(text, x).Some?
    ensures AllDigits(d) && GutterCandidate(text, x).value.0 == Number(d)
    ensures GutterCandidate(text, x).value.1.Whole? <==> OnlyANumber(text)
  {
    hide IsSpace, IsAsciiDigit, SpaceRun, DigitRun, Number, Trimmed, AllSpaces, AllDigits;
    if BareNumber(text, d) {
      BareIs(text, x, d);
      OnlyIsBare(text, d);
    } else {
      PrefixedIs(text, x, d);
    }
  }

  lemma OnlyIsBare(text: string, d: string)
    requires BareNumber(text, d)
    ensures AllDigits(d) && OnlyANumber(text)
  {
  }

  lemma PrefixedIs(text: string, x: real, d: string)
    requires x < 0.08 && PrefixNumber(text, d) && !BareNumber(text, d)
    ensures GutterCandidate(text, x).Some?
    ensures AllDigits(d) && GutterCandidate(text, x).value.0 == Number(d)
    ensures GutterCandidate(text, x).value.1.Whole? <==> OnlyANumber(text)
  {
    hide IsSpace, IsAsciiDigit, SpaceRun, DigitRun, Number, Trimmed, AllSpaces, AllDigits, GutterPrefixLen;
    var w: string, rest: string :| text == d + w + rest && Prefixed(d, w, rest);
    PrefixIs(d, w, rest);
    assert text[..|d|] == d;
    if GutterCandidate(text, x).Some? && GutterCandidate(text, x).value.1.Whole? {
      WholeIsBare(text, x);
      var e: string :| BareNumber(text, e);
      SameDigits(text, d, e);
      assert false;
    }
    if OnlyANumber(text) {
      var e := OnlyHas(text);
      SameDigits(text, d, e);
      assert false;
    }
  }

  lemma OnlyHas(text: string) returns (d: string)
    requires OnlyANumber(text)
    ensures BareNumber(text, d)
  {
    var a: string, e: string, b: string :| text == a + e + b && AllSpaces(a) && AllSpaces(b) && 1 <= |e| <= 6
        && AllDigits(e);
    d := e;
    assert BareNumber(text, e);
  }

  lemma WholeIsBare(text: string, x: real)
    requires GutterCandidate(text, x).Some? && GutterCandidate(text, x).value.1.Whole?
    ensures exists d: string :: BareNumber(text, d)
  {
    hide GutterCandidate, OnlyANumber, BareNumber;
    ShapeOf(text, x);
    var d := OnlyHas(text);
  }

  /** A text that starts with digits and is nothing but a number is that number. */
  lemma SameDigits(text: string, d: string, e: string)
    requires PrefixNumber(text, d) && BareNumber(text, e)
    ensures d == e
  {
    var w: string, rest: string :| text == d + w + rest && Prefixed(d, w, rest);
    var a: string, b: string :| text == a + e + b && AllSpaces(a) && AllSpaces(b) && 1 <= |e| <= 6 && AllDigits(e);
    PrefixIs(d, w, rest);
    SameDigitsOf(text, d, w, rest, a, e, b);
  }

  lemma SameDigitsOf(text: string, d: string, w: string, rest: string, a: string, e: string, b: string)
    requires text == d + w + rest && |d| >= 1 && AllDigits(d) && DigitRun(text) == |d|
    requires text == a + e + b && AllSpaces(a) && AllSpaces(b) && e != "" && AllDigits(e)
    ensures d == e
  {
    DigitIsNoSpace(d[0]);
    assert text[0] == d[0];
    if a != "" {
      assert false;
    }
    assert text == e + b;
    if b != "" {
      SpaceIsNoDigit(b[0]);
    }
    DigitRunIs(e, b);
    assert text[..|d|] == d && text[..|e|] == e;
  }

  /** The candidate at a line is its number at the left edge. */
  lemma NumberIff(line: Line)
    ensures var c := GutterCandidate(Normalised(line.text), line.x);
            && (c.Some? <==> Numbered(line))
            && (c.Some? ==> forall n: nat :: HasNumber(line, n) <==> n == c.value.0)
            && (c.Some? ==> (c.value.1.Whole? <==> OnlyANumber(Normalised(line.text))))
  {
    hide GutterCandidate, Normalised, BareNumber, PrefixNumber, OnlyANumber, Number, AllDigits;
    var text := Normalised(line.text);
    var c := GutterCandidate(text, line.x);
    forall n: nat | HasNumber(line, n)
      ensures c.Some? && n == c.value.0
    {
      var d: string :| AllDigits(d) && Number(d) == n && (BareNumber(text, d) || PrefixNumber(text, d));
      CandidateIs(text, line.x, d);
    }
    if c.Some? {
      var d := CandidateHas(text, line.x);
      CandidateIs(text, line.x, d);
      assert HasNumber(line, c.value.0);
    }
  }

  lemma CandidateHas(text: string, x: real) returns (d: string)
    requires GutterCandidate(text, x).Some?
    ensures x < 0.08 && (BareNumber(text, d) || PrefixNumber(text, d))
  {
    ShapeOf(text, x);
    hide GutterCandidate, BareNumber, PrefixNumber;
    if GutterCandidate(text, x).value.1.Whole? {
      d := OnlyHas(text);
    } else {
      d := ThenHas(text, text[GutterCandidate(text, x).value.1.length..]);
    }
  }

  lemma ThenHas(text: string, rest: string) returns (d: string)
    requires NumberThen(text, rest)
    ensures PrefixNumber(text, d)
  {
    var e: string, w: string :| text == e + w + rest && Prefixed(e, w, rest);
    d := e;
    assert PrefixNumber(text, d);
  }

  /** The next numbered line, and its number is one more. */
  ghost predicate NextNumber(lines: seq<Line>, i: nat, j: nat)
    requires i < |lines| && j < |lines|
  {
    && i < j
    && (forall k | i < k < j :: !Numbered(lines[k]))
    && (exists n: nat :: HasNumber(lines[i], n) && HasNumber(lines[j], n + 1))
  }

  /** Three numbered lines in succession that count up, and line `i` one of them. */
  ghost predicate OneOfThree(lines: seq<Line>, i: nat, a: nat, b: nat, c: nat) {
    && a < |lines| && b < |lines| && c < |lines|
    && NextNumber(lines, a, b) && NextNumber(lines, b, c) && (i == a || i == b || i == c)
  }

  ghost predicate CountsUp(lines: seq<Line>, i: nat) { exists a: nat, b: nat, c: nat :: OneOfThree(lines, i, a, b, c) }

  /** The candidates are the numbered lines, all of them, with their numbers. */
  ghost predicate AreNumbered(lines: seq<Line>, cs: seq<Candidate>, n: nat)
    requires n <= |lines|
  {
    && Increasing(cs, n)
    && (forall j | 0 <= j < |cs| :: HasNumber(lines[cs[j].index], cs[j].number))
    && (forall i | 0 <= i < n && Numbered(lines[i]) :: exists j :: 0 <= j < |cs| && cs[j].index == i)
  }

  lemma NoneNumbered(lines: seq<Line>)
    ensures AreNumbered(lines, Candidates(lines, 0), 0)
  {
  }

  lemma OneNumbered(lines: seq<Line>, cs: seq<Candidate>, n: nat, c: Candidate)
    requires n < |lines| && AreNumbered(lines, cs, n) && c.index == n && HasNumber(lines[n], c.number)
    ensures AreNumbered(lines, cs + [c], n + 1)
  {
    hide HasNumber;
    var next := cs + [c];
    forall i | 0 <= i < n + 1 && Numbered(lines[i])
      ensures exists j :: 0 <= j < |next| && next[j].index == i
    {
      if i < n {
        var j :| 0 <= j < |cs| && cs[j].index == i;
        assert next[j].index == i;
      } else {
        assert next[|cs|].index == i;
      }
    }
  }

  lemma NotNumbered(lines: seq<Line>, cs: seq<Candidate>, n: nat)
    requires n < |lines| && AreNumbered(lines, cs, n) && !Numbered(lines[n])
    ensures AreNumbered(lines, cs, n + 1)
  {
    hide HasNumber;
  }

  lemma {:induction false} CandidatesNumbered(lines: seq<Line>, n: nat)
    requires n <= |lines|
    ensures AreNumbered(lines, Candidates(lines, n), n)
  {
    hide *;
    if n == 0 {
      NoneNumbered(lines);
    } else {
      CandidatesNumbered(lines, n - 1);
      CandidatesStep(lines, n);
      NumberIff(lines[n - 1]);
      var cs, c := Candidates(lines, n - 1), GutterCandidate(Normalised(lines[n - 1].text), lines[n - 1].x);
      if c.Some? {
        OneNumbered(lines, cs, n - 1, Candidate(n - 1, c.value.0, c.value.1));
      } else {
        assert cs + [] == cs;
        NotNumbered(lines, cs, n - 1);
      }
    }
  }

  lemma NumberUnique(line: Line, n: nat, m: nat)
    requires HasNumber(line, n) && HasNumber(line, m)
    ensures n == m
  {
    NumberIff(line);
    assert Numbered(line);
    hide HasNumber, GutterCandidate;
  }

  lemma NoIndexBetween(cs: seq<Candidate>, n: nat, a: nat, k: nat)
    requires Increasing(cs, n) && a + 1 < |cs| && cs[a].index < k < cs[a + 1].index
    ensures forall c | 0 <= c < |cs| :: cs[c].index != k
  {
    forall c | 0 <= c < |cs|
      ensures cs[c].index != k
    {
      assert c < a ==> cs[c].index < cs[a].index;
      assert c > a + 1 ==> cs[a + 1].index < cs[c].index;
    }
  }

  lemma NoneBetween(lines: seq<Line>, cs: seq<Candidate>, a: nat, k: nat)
    requires AreNumbered(lines, cs, |lines|) && a + 1 < |cs| && cs[a].index < k < cs[a + 1].index
    ensures cs[a + 1].index < |lines| && !Numbered(lines[k])
  {
    hide Numbered, HasNumber;
    NoIndexBetween(cs, |lines|, a, k);
    hide Increasing;
  }

  lemma StepsIff(lines: seq<Line>, cs: seq<Candidate>, a: nat)
    requires AreNumbered(lines, cs, |lines|) && a + 1 < |cs|
    ensures Steps(cs, a) <==> NextNumber(lines, cs[a].index, cs[a + 1].index)
  {
    hide HasNumber;
    var i, j := cs[a].index, cs[a + 1].index;
    if Steps(cs, a) {
      forall k | i < k < j
        ensures !Numbered(lines[k])
      {
        NoneBetween(lines, cs, a, k);
      }
    }
    if NextNumber(lines, i, j) {
      var n: nat :| HasNumber(lines[i], n) && HasNumber(lines[j], n + 1);
      NumberUnique(lines[i], n, cs[a].number);
      NumberUnique(lines[j], n + 1, cs[a + 1].number);
    }
  }

  /** Candidates in succession are where the next number is. */
  lemma NextCandidate(lines: seq<Line>, cs: seq<Candidate>, i: nat, j: nat) returns (a: nat)
    requires AreNumbered(lines, cs, |lines|) && i < |lines| && j < |lines| && NextNumber(lines, i, j)
    ensures a + 1 < |cs| && cs[a].index == i && cs[a + 1].index == j && Steps(cs, a)
  {
    hide HasNumber;
    assert Numbered(lines[i]) && Numbered(lines[j]);
    a :| 0 <= a < |cs| && cs[a].index == i;
    var b :| 0 <= b < |cs| && cs[b].index == j;
    assert a < b;
    assert Numbered(lines[cs[a + 1].index]);
    if b > a + 1 {
      assert false;
    }
    StepsIff(lines, cs, a);
  }

  lemma SameIndex(cs: seq<Candidate>, n: nat, a: nat, b: nat)
    requires Increasing(cs, n) && a < |cs| && b < |cs| && cs[a].index == cs[b].index
    ensures a == b
  {
  }

  /** The code's runs of three are the lines that count up. */
  lemma InRunIff(lines: seq<Line>, cs: seq<Candidate>, j: nat)
    requires AreNumbered(lines, cs, |lines|) && j < |cs|
    ensures InRun(cs, j) <==> CountsUp(lines, cs[j].index)
  {
    hide NextNumber, Steps, AreNumbered;
    AreIncreasing(lines, cs);
    if InRun(cs, j) {
      var a :| 0 <= a < |cs| - 2 && a <= j <= a + 2 && Steps(cs, a) && Steps(cs, a + 1);
      StepsIff(lines, cs, a);
      StepsIff(lines, cs, a + 1);
      assert OneOfThree(lines, cs[j].index, cs[a].index, cs[a + 1].index, cs[a + 2].index);
    }
    if CountsUp(lines, cs[j].index) {
      var p: nat, q: nat, r: nat :| OneOfThree(lines, cs[j].index, p, q, r);
      var a := NextCandidate(lines, cs, p, q);
      var b := NextCandidate(lines, cs, q, r);
      SameIndex(cs, |lines|, a + 1, b);
      if cs[j].index == p {
        SameIndex(cs, |lines|, j, a);
      } else if cs[j].index == q {
        SameIndex(cs, |lines|, j, b);
      } else {
        SameIndex(cs, |lines|, j, b + 1);
      }
      assert a <= j <= a + 2 && Steps(cs, a) && Steps(cs, a + 1);
    }
  }

  lemma AreIncreasing(lines: seq<Line>, cs: seq<Candidate>)
    requires AreNumbered(lines, cs, |lines|)
    ensures Increasing(cs, |lines|)
  {
  }

  lemma CountingIsNumbered(lines: seq<Line>, i: nat)
    requires i < |lines| && CountsUp(lines, i)
    ensures Numbered(lines[i])
  {
    hide HasNumber;
  }

  /** What is left of line `i`: nothing, or this text. */
  ghost predicate Leaves(lines: seq<Line>, i: nat, left: Option<string>)
    requires i < |lines|
  {
    var text := Normalised(lines[i].text);
    match left
    case None => CountsUp(lines, i) && OnlyANumber(text)
    case Some(t) => if CountsUp(lines, i) then !OnlyANumber(text) && NumberThen(text, t) else t == text
  }

  lemma MarkLeaves(lines: seq<Line>, i: nat, mark: Option<Gutter>)
    requires i < |lines| && Deserved(lines, i, mark)
    requires mark.Some? && mark.value.Prefix? ==> mark.value.length <= |Normalised(lines[i].text)|
    ensures Leaves(lines, i, Kept(Normalised(lines[i].text), mark))
  {
    var cs := Candidates(lines, |lines|);
    CandidatesNumbered(lines, |lines|);
    hide Normalised, GutterCandidate, OnlyANumber, NumberThen, InRun, CountsUp, HasNumber, Candidates;
    WhatIsDeleted(lines, i, mark);
    if mark.Some? {
      var j :| 0 <= j < |cs| && cs[j].index == i && InRun(cs, j) && cs[j].shape == mark.value;
      InRunIff(lines, cs, j);
      CandidateOf(lines, |lines|, j);
      NumberIff(lines[i]);
    } else if CountsUp(lines, i) {
      CountingIsNumbered(lines, i);
      var j :| 0 <= j < |cs| && cs[j].index == i;
      InRunIff(lines, cs, j);
      assert false;
    }
  }

  /** `out` holds what is left of the lines at these places, in their boxes; of the others nothing is left. */
  ghost predicate LeftAt(lines: seq<Line>, n: nat, out: seq<Line>, at: seq<nat>)
    requires n <= |lines|
  {
    && Rising(at, n) && |out| == |at|
    && (forall k | 0 <= k < |at| ::
          && out[k] == Line(out[k].text, lines[at[k]].x, lines[at[k]].right, lines[at[k]].top, lines[at[k]].bottom)
          && Leaves(lines, at[k], Some(out[k].text)))
    && (forall i: nat | i < n && i !in at :: Leaves(lines, i, None))
  }

  lemma {:induction false} KeptPlaces(lines: seq<Line>, marks: seq<Option<Gutter>>, n: nat) returns (at: seq<nat>)
    requires n <= |lines| && AllDeserved(lines, marks)
    ensures (DeservedFits(lines, marks); LeftAt(lines, n, KeptLines(lines, marks, n), at))
  {
    hide *;
    DeservedFits(lines, marks);
    if n == 0 {
      at := [];
      NothingLeft(lines, marks);
    } else {
      at := KeptPlaces(lines, marks, n - 1);
      DeservedAt(lines, marks, n - 1);
      MarkLeaves(lines, n - 1, marks[n - 1]);
      var kept := Kept(Normalised(lines[n - 1].text), marks[n - 1]);
      KeptStep(lines, marks, n);
      if kept.Some? {
        OneLeft(lines, n - 1, KeptLines(lines, marks, n - 1), at, kept.value);
        at := at + [n - 1];
      } else {
        NoneLeft(lines, n - 1, KeptLines(lines, marks, n - 1), at);
        assert KeptLines(lines, marks, n - 1) + [] == KeptLines(lines, marks, n - 1);
      }
    }
  }

  lemma DeservedAt(lines: seq<Line>, marks: seq<Option<Gutter>>, i: nat)
    requires AllDeserved(lines, marks) && i < |lines|
    ensures |marks| == |lines| && Deserved(lines, i, marks[i])
  {
    hide Deserved;
  }

  lemma NothingLeft(lines: seq<Line>, marks: seq<Option<Gutter>>)
    requires AllDeserved(lines, marks)
    ensures (DeservedFits(lines, marks); LeftAt(lines, 0, KeptLines(lines, marks, 0), []))
  {
    hide AllDeserved;
    DeservedFits(lines, marks);
  }

  lemma KeptStep(lines: seq<Line>, marks: seq<Option<Gutter>>, n: nat)
    requires 0 < n <= |lines| && AllDeserved(lines, marks)
    ensures (DeservedFits(lines, marks);
             var kept := Kept(Normalised(lines[n - 1].text), marks[n - 1]);
             KeptLines(lines, marks, n)
                 == KeptLines(lines, marks, n - 1) + (if kept.Some? then [lines[n - 1].(text := kept.value)] else []))
  {
    hide Deserved, Kept, Normalised;
    DeservedFits(lines, marks);
  }

  lemma OneLeft(lines: seq<Line>, n: nat, out: seq<Line>, at: seq<nat>, text: string)
    requires n < |lines| && LeftAt(lines, n, out, at) && Leaves(lines, n, Some(text))
    ensures LeftAt(lines, n + 1, out + [lines[n].(text := text)], at + [n])
  {
    hide Leaves;
    assert forall i: nat :: i in at + [n] <==> i in at || i == n;
  }

  lemma NoneLeft(lines: seq<Line>, n: nat, out: seq<Line>, at: seq<nat>)
    requires n < |lines| && LeftAt(lines, n, out, at) && Leaves(lines, n, None)
    ensures LeftAt(lines, n + 1, out, at)
  {
    hide Leaves;
  }

  /**
   * The answer, line by line. A line is missing only when it is nothing but a number at the left edge, one of
   * three that count up; of the other lines that count up, what follows the number and its white space is
   * left; and every other line keeps its whole repaired text. Each keeps its box, and all keep their order.
   */
  lemma CleanedIs(lines: seq<Line>, out: seq<Line>) returns (at: seq<nat>)
    requires IsCleaned(lines, out)
    ensures LeftAt(lines, |lines|, out, at)
  {
    var marks: seq<Option<Gutter>> :| AllDeserved(lines, marks)
        && (DeservedFits(lines, marks); out == KeptLines(lines, marks, |lines|));
    hide *;
    at := KeptPlaces(lines, marks, |lines|);
  }

  /** A line that is not at the left edge is never touched. */
  lemma ElsewhereKept(lines: seq<Line>, i: nat, left: Option<string>)
    requires i < |lines| && lines[i].x >= 0.08 && Leaves(lines, i, left)
    ensures left == Some(Normalised(lines[i].text))
  {
    hide Normalised, OnlyANumber, NumberThen, CountsUp;
    if CountsUp(lines, i) {
      CountingIsNumbered(lines, i);
      assert false;
    }
  }

  function Join(lines: seq<Line>): string {
    if lines == [] then "" else if |lines| == 1 then lines[0].text else lines[0].text + "\n" + Join(lines[1..])
  }

  /** Joined texts: one newline between any two parts, and none elsewhere. */
  lemma {:induction false} JoinSplits(a: seq<Line>, b: seq<Line>)
    requires a != [] && b != []
    ensures Join(a + b) == Join(a) + "\n" + Join(b)
    ensures Join(a[..1]) == a[0].text
  {
    if |a| == 1 {
      assert (a + b)[1..] == b;
    } else {
      JoinSplits(a[1..], b);
      assert (a + b)[1..] == a[1..] + b;
      assert a[..1][0] == a[0];
    }
  }

  method Assemble(lines: seq<Line>) returns (text: string)
    ensures exists out :: IsCleaned(lines, out) && text == Join(out)
  {
    var out := Cleaned(lines);
    text := Join(out);
  }

  /** The text is the same whether or not the caller has already repaired the lines. */
  lemma AssembleIgnoresRepair(lines: seq<Line>, out: seq<Line>, out': seq<Line>)
    requires IsCleaned(lines, out) && IsCleaned(Repaired(lines), out')
    ensures out == out' && Join(out) == Join(out')
  {
    hide IsCleaned;
    RepairFirstChangesNothing(lines, out);
    CleanedUnique(Repaired(lines), out, out');
  }
}
/**
 * The scorer: the two-row distance, the accuracy made from it, the distance of a host to a toolbar
 * strip, and the substitution table read off an optimal alignment.
 */
module Score {
  import opened Utf16
  import opened EditDistance
  import opened Sequences
  import opened Wrappers

  const HOST_DISTANCE_MAX: nat := 64
  const HOST_STRIP_SCAN_MAX: nat := 1024

  function Distance(a: Text, b: Text): nat { Lev(Points(a), Points(b)) }

  // ----- the two-row loop -----

  /** `row` starts the table row of distances from the first `i` of `left` to the prefixes of `right`. */
  ghost predicate IsRow(left: seq<int>, i: nat, right: seq<int>, row: seq<nat>)
    requires i <= |left|
  {
    |row| <= |right| + 1 && forall j | 0 <= j < |row| :: row[j] == LevAt(left, i, right, j)
  }

  method Levenshtein(a: Text, b: Text) returns (d: nat)
    ensures d == Distance(a, b)
  {
    hide LevAt;
    var left, right := Points(a), Points(b);
    forall k | 0 <= k <= |right|
      ensures LevAt(left, 0, right, k) == k
    {
      Unfold(left, 0, right, k);
    }
    var previous: seq<nat> := seq(|right| + 1, k requires 0 <= k => k);
    var i := 1;
    while i <= |left|
      invariant 1 <= i <= |left| + 1
      invariant |previous| == |right| + 1 && IsRow(left, i - 1, right, previous)
    {
      var current: seq<nat> := [i];
      Unfold(left, i, right, 0);
      var j := 1;
      while j <= |right|
        invariant 1 <= j <= |right| + 1 && |current| == j
        invariant IsRow(left, i, right, current)
      {
        Unfold(left, i, right, j);
        var substitution := previous[j - 1] + Differ(left[i - 1], right[j - 1]);
        current := current + [Min(Min(previous[j] + 1, current[j - 1] + 1), substitution)];
        j := j + 1;
      }
      previous := current;
      i := i + 1;
    }
    d := previous[|right|];
  }

  // ----- accuracy -----

  /** The length a distance is divided by: code points of the truth, at least one. */
  function Measure(truth: Text): nat { if |Points(truth)| >= 1 then |Points(truth)| else 1 }

  function Share(d: nat, measure: nat): real
    requires measure > 0
  {
    var share := 1.0 - d as real / measure as real;
    if share > 0.0 then share else 0.0
  }

  lemma Scaled(p: real, q: real, y: real)
    requires p < q && y > 0.0
    ensures p * y < q * y
  {
    assert (q - p) * y > 0.0;
  }

  lemma QuotientLaws(x: real, y: real)
    requires x >= 0.0 && y > 0.0
    ensures (x / y) * y == x
    ensures x / y >= 0.0
    ensures x / y == 0.0 <==> x == 0.0
    ensures x / y < 1.0 <==> x < y
  {
    var z := x / y;
    assert z * y == x;
    if z < 0.0 { Scaled(z, 0.0, y); }
    if z > 0.0 { Scaled(0.0, z, y); }
    if z < 1.0 {
      Scaled(z, 1.0, y);
      assert x < 1.0 * y == y;
    } else if z > 1.0 {
      Scaled(1.0, z, y);
      assert x > 1.0 * y == y;
    } else {
      assert x == 1.0 * y == y;
    }
  }

  lemma OneLess(q: real, y: real)
    ensures (1.0 - q) * y == y - q * y
  {
  }

  lemma ShareLaws(d: nat, measure: nat)
    requires measure > 0
    ensures 0.0 <= Share(d, measure) <= 1.0
    ensures Share(d, measure) == 1.0 <==> d == 0
    ensures Share(d, measure) == 0.0 <==> d >= measure
    ensures d < measure ==> Share(d, measure) * measure as real == (measure - d) as real
  {
    QuotientLaws(d as real, measure as real);
    OneLess(d as real / measure as real, measure as real);
  }

  method Accuracy(norm: Text -> Text, ocr: Text, truth: Text) returns (share: real)
    ensures 0.0 <= share <= 1.0
    ensures share == 1.0 <==> norm(ocr) == norm(truth)
    ensures share == 0.0 <==> Distance(norm(ocr), norm(truth)) >= Measure(norm(truth))
    ensures var d, n := Distance(norm(ocr), norm(truth)), |Points(norm(truth))|;
            var measure := if n > 1 then n else 1;
            d < measure ==> share * measure as real == (measure - d) as real
  {
    var o, t := norm(ocr), norm(truth);
    var d := Levenshtein(o, t);
    hide Share, Points;
    share := Share(d, Measure(t));
    ShareLaws(d, Measure(t));
    ZeroIffEqual(Points(o), Points(t));
    PointsInjective(o, t);
  }

  // ----- the host on the toolbar strip -----

  function ScannedStrip(strip: Text): (cut: Text)
    ensures |cut| <= HOST_STRIP_SCAN_MAX && cut <= strip
    ensures |strip| <= HOST_STRIP_SCAN_MAX ==> cut == strip
    ensures |strip| > HOST_STRIP_SCAN_MAX ==>
              |cut| >= HOST_STRIP_SCAN_MAX - 1 && (|cut| < HOST_STRIP_SCAN_MAX <==> IsHigh(strip[1023]))
  {
    if |strip| <= HOST_STRIP_SCAN_MAX then strip
    else if IsHigh(strip[HOST_STRIP_SCAN_MAX - 1]) then strip[..HOST_STRIP_SCAN_MAX - 1]
    else strip[..HOST_STRIP_SCAN_MAX]
  }

  /** Never half a character: for every strip, what is scanned is a prefix of the strip's code points. */
  lemma ScannedStripKeepsCharacters(strip: Text)
    ensures Points(ScannedStrip(strip)) <= Points(strip)
  {
    var n := |ScannedStrip(strip)|;
    assert ScannedStrip(strip) == strip[..n];
    PointsOfPrefix(strip, n);
  }

  predicate IsWindow(strip: Text, start: int, width: int) { 0 <= start && 0 <= width && start + width <= |strip| }

  function Window(strip: Text, start: int, width: int): Text
    requires IsWindow(strip, start, width)
  {
    strip[start..start + width]
  }

  function Shortest(needle: Text): nat { if |needle| - 2 >= 1 then |needle| - 2 else 1 }

  predicate InBand(needle: Text, width: int) { Shortest(needle) <= width <= |needle| + 2 }

  /** `d` is the least distance from the needle to a window of the banded widths, cut off at the cap. */
  ghost predicate IsLeast(needle: Text, strip: Text, d: nat) {
    && d <= HOST_DISTANCE_MAX
    && (forall start, width | InBand(needle, width) && IsWindow(strip, start, width) ::
          d <= Distance(needle, Window(strip, start, width)))
    && (d < HOST_DISTANCE_MAX ==>
          exists start, width :: InBand(needle, width) && IsWindow(strip, start, width)
                                 && Distance(needle, Window(strip, start, width)) == d)
  }

  predicate Occurs(needle: Text, strip: Text) {
    exists start | 0 <= start <= |strip| - |needle| :: Window(strip, start, |needle|) == needle
  }

  /** No window met so far is closer: those of smaller widths, and of this width those before `start`. */
  ghost predicate NoneCloser(needle: Text, strip: Text, best: nat, width: int, start: int) {
    forall s, w | Shortest(needle) <= w <= width && IsWindow(strip, s, w) && (w == width ==> s < start) ::
      best <= Distance(needle, Window(strip, s, w))
  }

  ghost predicate Reached(needle: Text, strip: Text, best: nat) {
    best < HOST_DISTANCE_MAX ==>
      exists s, w :: InBand(needle, w) && IsWindow(strip, s, w) && Distance(needle, Window(strip, s, w)) == best
  }

  lemma OneMoreWindow(needle: Text, strip: Text, best: nat, width: int, start: int)
    requires NoneCloser(needle, strip, best, width, start) && Reached(needle, strip, best)
    requires InBand(needle, width) && IsWindow(strip, start, width)
    ensures var d := Distance(needle, Window(strip, start, width));
            var next := if d < best then d else best;
            NoneCloser(needle, strip, next, width, start + 1) && Reached(needle, strip, next)
  {
    hide Distance;
  }

  lemma NextWidth(needle: Text, strip: Text, best: nat, width: int, start: int)
    requires NoneCloser(needle, strip, best, width, start) && start + width > |strip|
    ensures NoneCloser(needle, strip, best, width + 1, 0)
  {
    hide Distance;
  }

  lemma LeastFound(needle: Text, strip: Text, best: nat, width: int)
    requires best <= HOST_DISTANCE_MAX && Reached(needle, strip, best)
    requires best == 0 || (NoneCloser(needle, strip, best, width, 0) && width > |needle| + 2)
    ensures IsLeast(needle, strip, best)
  {
    hide Distance;
  }

  /** Squashing (lowercasing, dropping white space) is a parameter: it needs the Unicode tables. */
  method HostDistance(squashed: Text -> Text, toolbarText: Option<Text>, host: Text) returns (d: Option<nat>)
    ensures d.None? <==> toolbarText.None? || |squashed(toolbarText.value)| == 0 || |squashed(host)| == 0
    ensures d.Some? ==> IsLeast(squashed(host), ScannedStrip(squashed(toolbarText.value)), d.value)
  {
    if toolbarText.None? {
      return None;
    }
    var strip := ScannedStrip(squashed(toolbarText.value));
    var needle := squashed(host);
    if |strip| == 0 || |needle| == 0 {
      return None;
    }
    var shortest := Shortest(needle);
    var longest := |needle| + 2;
    var best: nat := HOST_DISTANCE_MAX;
    var width := shortest;
    hide Distance;
    while width <= longest
      invariant shortest <= width <= longest + 1 && best <= HOST_DISTANCE_MAX
      invariant NoneCloser(needle, strip, best, width, 0) && Reached(needle, strip, best)
    {
      var start := 0;
      while start + width <= |strip|
        invariant 0 <= start && best <= HOST_DISTANCE_MAX
        invariant NoneCloser(needle, strip, best, width, start) && Reached(needle, strip, best)
        decreases |strip| - start
      {
        OneMoreWindow(needle, strip, best, width, start);
        var distance := Levenshtein(needle, Window(strip, start, width));
        if distance < best {
          best := distance;
        }
        if best == 0 {
          LeastFound(needle, strip, best, width);
          return Some(0);
        }
        start := start + 1;
      }
      NextWidth(needle, strip, best, width, start);
      width := width + 1;
    }
    LeastFound(needle, strip, best, width);
    d := Some(best);
  }

  /** The number and the boolean are two measurements of one strip: 0 exactly when the host is on it. */
  lemma ZeroIffOccurs(needle: Text, strip: Text, d: nat)
    requires needle != [] && IsLeast(needle, strip, d)
    ensures d == 0 <==> Occurs(needle, strip)
  {
    if d == 0 {
      var start, width :| InBand(needle, width) && IsWindow(strip, start, width)
        && Distance(needle, Window(strip, start, width)) == 0;
      ZeroIffEqual(Points(needle), Points(Window(strip, start, width)));
      PointsInjective(needle, Window(strip, start, width));
    }
    if Occurs(needle, strip) {
      var start :| 0 <= start <= |strip| - |needle| && Window(strip, start, |needle|) == needle;
      assert InBand(needle, |needle|) && IsWindow(strip, start, |needle|);
      ZeroIffEqual(Points(needle), Points(needle));
    }
  }

  /** A reported 0 is never wrong, however long the strip: the host is on it. */
  lemma ZeroMeansInToolbar(squashed: Text -> Text, toolbarText: Text, host: Text)
    requires squashed(host) != [] && IsLeast(squashed(host), ScannedStrip(squashed(toolbarText)), 0)
    ensures Occurs(squashed(host), squashed(toolbarText))
  {
    var needle, strip := squashed(host), squashed(toolbarText);
    var cut := ScannedStrip(strip);
    ZeroIffOccurs(needle, cut, 0);
    var start :| 0 <= start <= |cut| - |needle| && Window(cut, start, |needle|) == needle;
    assert Window(strip, start, |needle|) == Window(cut, start, |needle|);
  }

  /** On a strip short enough to be scanned whole, 0 is the run's own `hostInToolbar`. */
  lemma AgreesWithHostInToolbar(squashed: Text -> Text, toolbarText: Text, host: Text, d: nat)
    requires |squashed(toolbarText)| <= HOST_STRIP_SCAN_MAX && squashed(host) != []
    requires IsLeast(squashed(host), ScannedStrip(squashed(toolbarText)), d)
    ensures d == 0 <==> Occurs(squashed(host), squashed(toolbarText))
  {
    ZeroIffOccurs(squashed(host), ScannedStrip(squashed(toolbarText)), d);
  }

  /** An edit changes how many units a text takes by two at most. */
  lemma {:induction false} CostBoundsUnits(s: seq<Edit<int>>)
    ensures -2 * Cost(s) <= Weight(Source(s)) - Weight(Target(s)) <= 2 * Cost(s)
  {
    if s != [] {
      CostBoundsUnits(Init(s));
      WeightJoin(Source(Init(s)), Removed(Last(s)));
      WeightJoin(Target(Init(s)), Added(Last(s)));
      EditWeighs(Last(s));
    }
  }

  lemma EditWeighs(e: Edit<int>)
    ensures var w := Weight(Removed(e)) - Weight(Added(e));
            if e.Keep? then w == 0 else -2 <= w <= 2
  {
    match e
    case Keep(x) => WeightOfOne(x);
    case Substitute(x, y) => WeightOfOne(x); WeightOfOne(y);
    case Delete(x) => WeightOfOne(x);
    case Insert(y) => WeightOfOne(y);
  }

  lemma UnitsApart(a: Text, b: Text)
    ensures |a| - |b| <= 2 * Distance(a, b) && |b| - |a| <= 2 * Distance(a, b)
  {
    hide LevAt;
    CostBoundsUnits(BestScript(Points(a), Points(b)));
    WeightOfPoints(a);
    WeightOfPoints(b);
  }

  /**
   * Why two either way is enough: a window of any other width is no closer than two, and without
   * surrogates no closer than three.
   */
  lemma OutOfBandIsNoCloserThanTwo(needle: Text, w: Text)
    requires w != [] && !InBand(needle, |w|)
    ensures Distance(needle, w) >= 2
    ensures IsBmp(needle) && IsBmp(w) ==> Distance(needle, w) >= 3
  {
    UnitsApart(needle, w);
    if IsBmp(needle) && IsBmp(w) {
      BmpPoints(needle);
      BmpPoints(w);
      LengthBounds(Points(needle), Points(w));
    }
  }

  /**
   * So a reported distance of at most two is the least to any window at all, whatever the texts; without
   * surrogates so is a reported three.
   */
  lemma BandSuffices(needle: Text, strip: Text, d: nat, start: int, width: int)
    requires IsLeast(needle, strip, d) && d <= (if IsBmp(needle) && IsBmp(strip) then 3 else 2)
    requires IsWindow(strip, start, width) && width >= 1
    ensures d <= Distance(needle, Window(strip, start, width))
  {
    if !InBand(needle, width) {
      OutOfBandIsNoCloserThanTwo(needle, Window(strip, start, width));
    }
  }

  /** Two is reached: two astral characters are four units wide and two edits from one letter. */
  lemma TwoIsReachedOutOfBand()
    ensures var needle: Text := [0x61];
            var window: Text := [0xD83D, 0xDE00, 0xD83D, 0xDE00];
            !InBand(needle, |window|) && Distance(needle, window) == 2
  {
    var needle: Text := [0x61];
    var window: Text := [0xD83D, 0xDE00, 0xD83D, 0xDE00];
    var p := Combined(0xD83D, 0xDE00);
    assert window[2..] == [0xD83D, 0xDE00] && window[2..][2..] == [];
    assert Points(window) == [p] + Points(window[2..]) == [p, p];
    assert Points(needle) == [0x61];
    var a, b := [0x61], [p, p];
    assert LevAt(a, 0, b, 1) == 1 && LevAt(a, 1, b, 1) == 1;
  }
}

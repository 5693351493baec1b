/**
 * JavaScript strings: sequences of UTF-16 code units, read as code points when they are spread.
 * Lone surrogates are allowed, as they are in JavaScript, so every sequence of units is a text.
 */
module Utf16 {
  type Unit = u: int | 0 <= u < 0x1_0000
  type Text = seq<Unit>

  predicate IsHigh(u: int) { 0xD800 <= u <= 0xDBFF }

  predicate IsLow(u: int) { 0xDC00 <= u <= 0xDFFF }

  function Combined(high: Unit, low: Unit): int {
    0x1_0000 + (high - 0xD800) * 0x400 + (low - 0xDC00)
  }

  /** What spreading a string (`[...text]`) yields: one number for each code point or lone surrogate. */
  function Points(t: Text): (ps: seq<int>)
    ensures |ps| <= |t|
    ensures |ps| == 0 <==> |t| == 0
  {
    if t == [] then []
    else if |t| >= 2 && IsHigh(t[0]) && IsLow(t[1]) then [Combined(t[0], t[1])] + Points(t[2..])
    else [t[0]] + Points(t[1..])
  }

  /** The units one code point is stored as. */
  function UnitsOfPoint(p: int): Text
    requires 0 <= p < 0x11_0000
  {
    if p < 0x1_0000 then [p]
    else [0xD800 + (p - 0x1_0000) / 0x400, 0xDC00 + (p - 0x1_0000) % 0x400]
  }

  lemma PairIsPoint(high: Unit, low: Unit)
    requires IsHigh(high) && IsLow(low)
    ensures 0x1_0000 <= Combined(high, low) < 0x11_0000 && UnitsOfPoint(Combined(high, low)) == [high, low]
  {
  }

  predicate ArePoints(ps: seq<int>) { forall i | 0 <= i < |ps| :: 0 <= ps[i] < 0x11_0000 }

  function UnitsOf(ps: seq<int>): Text
    requires ArePoints(ps)
  {
    if ps == [] then [] else UnitsOfPoint(ps[0]) + UnitsOf(ps[1..])
  }

  lemma {:induction false} PointsRoundTrip(t: Text)
    ensures ArePoints(Points(t))
    ensures UnitsOf(Points(t)) == t
  {
    if t == [] {
    } else if |t| >= 2 && IsHigh(t[0]) && IsLow(t[1]) {
      PointsRoundTrip(t[2..]);
      PairIsPoint(t[0], t[1]);
      assert Points(t)[1..] == Points(t[2..]);
      assert t[..2] == [t[0], t[1]];
    } else {
      PointsRoundTrip(t[1..]);
      assert Points(t)[1..] == Points(t[1..]);
      assert UnitsOfPoint(t[0]) == t[..1];
    }
  }

  /** Spreading loses nothing: two texts with the same code points are the same text. */
  lemma PointsInjective(s: Text, t: Text)
    ensures Points(s) == Points(t) <==> s == t
  {
    PointsRoundTrip(s);
    PointsRoundTrip(t);
  }

  /** Cutting a text anywhere but inside a surrogate pair cuts its code points too. */
  lemma {:induction false} PointsOfPrefix(s: Text, n: nat)
    requires n <= |s|
    requires n == 0 || n == |s| || !(IsHigh(s[n - 1]) && IsLow(s[n]))
    ensures Points(s[..n]) <= Points(s)
  {
    if n == 0 || n == |s| {
      assert s[..n] == if n == 0 then [] else s;
    } else if |s| >= 2 && IsHigh(s[0]) && IsLow(s[1]) {
      assert n >= 2;
      assert s[..n][2..] == s[2..][..n - 2];
      PointsOfPrefix(s[2..], n - 2);
    } else {
      assert s[..n][1..] == s[1..][..n - 1];
      PointsOfPrefix(s[1..], n - 1);
    }
  }

  /** How many units a list of code points is stored in. */
  function Weight(ps: seq<int>): nat {
    if ps == [] then 0 else Weight(ps[..|ps| - 1]) + (if ps[|ps| - 1] < 0x1_0000 then 1 else 2)
  }

  lemma {:induction false} WeightJoin(ps: seq<int>, qs: seq<int>)
    ensures Weight(ps + qs) == Weight(ps) + Weight(qs)
  {
    if qs == [] {
      assert ps + qs == ps;
    } else {
      WeightJoin(ps, qs[..|qs| - 1]);
      assert (ps + qs)[..|ps + qs| - 1] == ps + qs[..|qs| - 1];
    }
  }

  lemma WeightOfOne(p: int)
    ensures Weight([p]) == if p < 0x1_0000 then 1 else 2
  {
    assert [p][..0] == [];
  }

  lemma {:induction false} WeightOfPoints(t: Text)
    ensures Weight(Points(t)) == |t|
  {
    if t == [] {
    } else if |t| >= 2 && IsHigh(t[0]) && IsLow(t[1]) {
      WeightOfPoints(t[2..]);
      PairIsPoint(t[0], t[1]);
      WeightOfOne(Combined(t[0], t[1]));
      WeightJoin([Combined(t[0], t[1])], Points(t[2..]));
    } else {
      WeightOfPoints(t[1..]);
      WeightOfOne(t[0]);
      WeightJoin([t[0]], Points(t[1..]));
    }
  }

  /** A text with no surrogates is its own sequence of code points. */
  predicate IsBmp(t: Text) { forall i | 0 <= i < |t| :: !IsHigh(t[i]) && !IsLow(t[i]) }

  lemma {:induction false} BmpPoints(t: Text)
    requires IsBmp(t)
    ensures Points(t) == t
  {
    if t != [] {
      BmpPoints(t[1..]);
    }
  }

  /** JavaScript's `\s`, which is also what `trim` removes. */
  predicate IsSpace(u: int) {
    9 <= u <= 13 || u == 32 || u == 0xA0 || u == 0x1680 || 0x2000 <= u <= 0x200A
    || u == 0x2028 || u == 0x2029 || u == 0x202F || u == 0x205F || u == 0x3000 || u == 0xFEFF
  }

  /** White space and line terminators, one by one (sections 12.2 and 12.3 of ECMA-262). */
  lemma SpacesListed(u: int)
    ensures IsSpace(u) <==>
            u in [0x9, 0xA, 0xB, 0xC, 0xD, 0x20, 0xA0, 0x1680, 0x2000, 0x2001, 0x2002, 0x2003, 0x2004, 0x2005, 0x2006,
                  0x2007, 0x2008, 0x2009, 0x200A, 0x2028, 0x2029, 0x202F, 0x205F, 0x3000, 0xFEFF]
  {
  }

  function SpacesAt(t: Text, at: nat): (n: nat)
    requires at <= |t|
    ensures at + n <= |t|
    decreases |t| - at
  {
    if at < |t| && IsSpace(t[at]) then 1 + SpacesAt(t, at + 1) else 0
  }

  function TrimEnd(t: Text): Text { if t != [] && IsSpace(t[|t| - 1]) then TrimEnd(t[..|t| - 1]) else t }

  function Trim(t: Text): Text { TrimEnd(t[SpacesAt(t, 0)..]) }

  predicate AllSpace(t: Text) { forall i | 0 <= i < |t| :: IsSpace(t[i]) }

  lemma {:induction false} SpacesAtAre(t: Text, at: nat)
    requires at <= |t|
    ensures AllSpace(t[at..at + SpacesAt(t, at)])
    ensures at + SpacesAt(t, at) < |t| ==> !IsSpace(t[at + SpacesAt(t, at)])
    decreases |t| - at
  {
    if at < |t| && IsSpace(t[at]) {
      SpacesAtAre(t, at + 1);
      assert t[at..at + SpacesAt(t, at)] == [t[at]] + t[at + 1..at + SpacesAt(t, at)];
    }
  }

  lemma {:induction false} TrimEndIs(t: Text) returns (b: Text)
    ensures t == TrimEnd(t) + b && AllSpace(b)
    ensures TrimEnd(t) != [] ==> !IsSpace(TrimEnd(t)[|TrimEnd(t)| - 1])
  {
    if t != [] && IsSpace(t[|t| - 1]) {
      var c := TrimEndIs(t[..|t| - 1]);
      b := c + [t[|t| - 1]];
    } else {
      b := [];
    }
  }

  lemma TrimUnfolds(t: Text)
    ensures Trim(t) == TrimEnd(t[SpacesAt(t, 0)..])
  {
    hide TrimEnd, SpacesAt;
  }

  /** What is trimmed is white space about the text, and all of it. */
  lemma TrimIs(t: Text) returns (a: Text, b: Text)
    ensures t == a + Trim(t) + b && AllSpace(a) && AllSpace(b)
    ensures Trim(t) != [] ==> !IsSpace(Trim(t)[0]) && !IsSpace(Trim(t)[|Trim(t)| - 1])
  {
    hide *;
    var n := SpacesAt(t, 0);
    SpacesAtAre(t, 0);
    a := t[..n];
    assert t[0..0 + n] == a;
    var m := t[n..];
    b := TrimEndIs(m);
    TrimUnfolds(t);
    assert t == a + m && (m != [] ==> m[0] == t[n]);
  }
}

/**
 * The helper's stdout as lines: a splitter fed in chunks, with the length cap applied while reading.
 * Text is what the decoder hands over, in UTF-16 units.
 */
module LineSplitter {
  import opened Utf16

  const HELPER_MAX_LINE_CHARS: nat := 2_000_000
  const LF: Unit := 10
  const CR: Unit := 13
  /** "!over-long line discarded" */
  const HELPER_OVERLONG_LINE: Text := [33, 111, 118, 101, 114, 45, 108, 111, 110, 103, 32, 108, 105, 110, 101, 32,
                                       100, 105, 115, 99, 97, 114, 100, 101, 100]

  // ----- what should be delivered, from the whole text at once -----

  /** The terminated lines of a text, without their newlines. */
  function Finished(t: Text): seq<Text> {
    if t == [] then []
    else
      var front := t[..|t| - 1];
      if t[|t| - 1] == LF then Finished(front) + [Rest(front)] else Finished(front)
  }

  /** What follows the last newline. */
  function Rest(t: Text): Text {
    if t == [] || t[|t| - 1] == LF then [] else Rest(t[..|t| - 1]) + [t[|t| - 1]]
  }

  function Terminated(lines: seq<Text>): Text {
    if lines == [] then [] else Terminated(lines[..|lines| - 1]) + lines[|lines| - 1] + [LF]
  }

  /** `Finished` and `Rest` are the one way to read a text as lines: put back together they are the text. */
  lemma {:induction false} SplitIsExact(t: Text)
    ensures Terminated(Finished(t)) + Rest(t) == t
    ensures LF !in Rest(t) && forall k | 0 <= k < |Finished(t)| :: LF !in Finished(t)[k]
  {
    if t != [] {
      var front := t[..|t| - 1];
      SplitIsExact(front);
      assert t == front + [t[|t| - 1]];
      if t[|t| - 1] == LF {
        assert Finished(t)[..|Finished(t)| - 1] == Finished(front);
      }
    }
  }

  function Shown(line: Text): Text {
    if |line| > HELPER_MAX_LINE_CHARS then HELPER_OVERLONG_LINE
    else if line != [] && line[|line| - 1] == CR then line[..|line| - 1]
    else line
  }

  function ShownAll(lines: seq<Text>): seq<Text> {
    if lines == [] then [] else ShownAll(lines[..|lines| - 1]) + [Shown(lines[|lines| - 1])]
  }

  /** Every finished line as shown, and one marker for an unfinished line already over the cap. */
  function Batch(t: Text): seq<Text> {
    ShownAll(Finished(t)) + (if |Rest(t)| > HELPER_MAX_LINE_CHARS then [HELPER_OVERLONG_LINE] else [])
  }

  lemma {:induction false} Unterminated(t: Text, tail: Text)
    requires LF !in tail
    ensures Finished(t + tail) == Finished(t) && Rest(t + tail) == Rest(t) + tail
  {
    if tail == [] {
      assert t + tail == t;
    } else {
      var front := tail[..|tail| - 1];
      Unterminated(t, front);
      assert (t + tail)[..|t + tail| - 1] == t + front;
      assert tail == front + [tail[|tail| - 1]];
    }
  }

  lemma OneMoreLine(t: Text, tail: Text)
    requires LF !in tail
    ensures Finished(t + tail + [LF]) == Finished(t) + [Rest(t) + tail] && Rest(t + tail + [LF]) == []
    ensures ShownAll(Finished(t + tail + [LF])) == ShownAll(Finished(t)) + [Shown(Rest(t) + tail)]
  {
    Unterminated(t, tail);
    assert (t + tail + [LF])[..|t + tail|] == t + tail;
    assert (Finished(t) + [Rest(t) + tail])[..|Finished(t)|] == Finished(t);
  }

  function UnitsOfAscii(s: string): Text
    requires forall i | 0 <= i < |s| :: s[i] as int < 128
  {
    seq(|s|, i requires 0 <= i < |s| => s[i] as int)
  }

  /** A line of two million units is shown, without the carriage return it may end in; a longer one is not. */
  lemma ShownIs(line: Text)
    ensures |line| > 2_000_000 ==> Shown(line) == UnitsOfAscii("!over-long line discarded")
    ensures |line| <= 2_000_000 ==>
              || (Shown(line) == line && (line == [] || line[|line| - 1] != 13))
              || Shown(line) + [13] == line
  {
    assert UnitsOfAscii("!over-long line discarded") == HELPER_OVERLONG_LINE;
  }

  // ----- the splitter -----

  method IndexOf(text: Text, unit: Unit, from: nat) returns (at: int)
    requires from <= |text|
    ensures -1 <= at < |text|
    ensures at < 0 ==> unit !in text[from..]
    ensures at >= 0 ==> from <= at && text[at] == unit && unit !in text[from..at]
  {
    at := from;
    while at < |text|
      invariant from <= at <= |text| && unit !in text[from..at]
    {
      if text[at] == unit {
        return;
      }
      at := at + 1;
    }
    assert text[from..] == text[from..at];
    at := -1;
  }

  class LineSplitter {
    var held: Text
    var discarding: bool
    /** The lines handed to `deliver`, in order. */
    var delivered: seq<Text>
    /** All text pushed since the start or the last `End`, and what had been delivered by then. */
    ghost var seen: Text
    ghost var before: seq<Text>

    ghost predicate Valid()
      reads this
    {
      && delivered == before + Batch(seen)
      && discarding == (|Rest(seen)| > HELPER_MAX_LINE_CHARS)
      && held == if discarding then [] else Rest(seen)
    }

    constructor ()
      ensures Valid() && seen == [] && before == [] && delivered == []
    {
      held, discarding, delivered, seen, before := [], false, [], [], [];
    }

    /** One complete line: what is held plus this chunk's share of it, the newline already removed. */
    method Finish(tail: Text)
      requires Valid() && LF !in tail
      modifies this
      ensures Valid() && seen == old(seen) + tail + [LF] && before == old(before)
    {
      hide Finished, Rest, ShownAll;
      OneMoreLine(seen, tail);
      ghost var shown := ShownAll(Finished(seen));
      seen := seen + tail + [LF];
      if discarding {
        discarding := false;
        assert Shown(Rest(old(seen)) + tail) == HELPER_OVERLONG_LINE;
        return;
      }
      assert delivered == before + shown;
      if |held| + |tail| > HELPER_MAX_LINE_CHARS {
        held := [];
        delivered := delivered + [HELPER_OVERLONG_LINE];
        return;
      }
      var line := held + tail;
      held := [];
      delivered := delivered + [if line != [] && line[|line| - 1] == CR then line[..|line| - 1] else line];
    }

    /** The end of a chunk: what follows its last newline joins the line in progress. */
    method Hold(tail: Text)
      requires Valid() && LF !in tail
      modifies this
      ensures Valid() && seen == old(seen) + tail && before == old(before)
      ensures |held| <= HELPER_MAX_LINE_CHARS
    {
      hide Finished, Rest, ShownAll;
      Unterminated(seen, tail);
      seen := seen + tail;
      if discarding || |tail| == 0 {
        return;
      }
      held := held + tail;
      if |held| > HELPER_MAX_LINE_CHARS {
        held := [];
        discarding := true;
        delivered := delivered + [HELPER_OVERLONG_LINE];
      }
    }

    method Push(text: Text)
      requires Valid()
      modifies this
      ensures Valid() && seen == old(seen) + text && before == old(before)
      ensures delivered == before + Batch(old(seen) + text)
      ensures |held| <= HELPER_MAX_LINE_CHARS
    {
      hide Finished, Rest, Batch;
      var from := 0;
      var at := IndexOf(text, LF, 0);
      while at >= 0
        invariant Valid() && before == old(before)
        invariant 0 <= from <= |text| && seen == old(seen) + text[..from]
        invariant -1 <= at < |text|
        invariant at < 0 ==> LF !in text[from..]
        invariant at >= 0 ==> from <= at && text[at] == LF && LF !in text[from..at]
        decreases |text| - from
      {
        Finish(text[from..at]);
        assert text[..from] + text[from..at] + [LF] == text[..at + 1];
        from := at + 1;
        at := IndexOf(text, LF, from);
      }
      assert text[..from] + text[from..] == text;
      Hold(text[from..]);
    }

    /** The stream ended: a line still in progress is dropped. */
    method End()
      requires Valid()
      modifies this
      ensures Valid() && seen == [] && held == [] && !discarding
      ensures delivered == old(delivered)
    {
      before := delivered;
      held, discarding, seen := [], false, [];
    }

    method Pending() returns (n: nat)
      requires Valid()
      ensures n == if |Rest(seen)| > HELPER_MAX_LINE_CHARS then 0 else |Rest(seen)|
    {
      n := |held|;
    }
  }

  function Joined(chunks: seq<Text>): Text {
    if chunks == [] then [] else Joined(chunks[..|chunks| - 1]) + chunks[|chunks| - 1]
  }

  /** However the text is cut into chunks, what is delivered is the batch of the whole. */
  method DeliverAll(chunks: seq<Text>) returns (lines: seq<Text>)
    ensures lines == Batch(Joined(chunks))
  {
    hide Batch, Rest, Finished;
    var splitter := new LineSplitter();
    var i := 0;
    while i < |chunks|
      invariant 0 <= i <= |chunks|
      invariant splitter.Valid() && fresh(splitter)
      invariant splitter.before == [] && splitter.seen == Joined(chunks[..i])
    {
      splitter.Push(chunks[i]);
      assert chunks[..i + 1][..i] == chunks[..i];
      i := i + 1;
    }
    assert chunks[..i] == chunks;
    lines := splitter.delivered;
  }

  /** One line for each newline, and at most one marker more: nothing is delivered twice or invented. */
  lemma {:induction false} OneLineForEachNewline(t: Text)
    ensures |Batch(t)| == |Finished(t)| + (if |Rest(t)| > HELPER_MAX_LINE_CHARS then 1 else 0)
    ensures forall k | 0 <= k < |Finished(t)| :: Batch(t)[k] == Shown(Finished(t)[k])
  {
    ShownPointwise(Finished(t));
  }

  lemma {:induction false} ShownPointwise(lines: seq<Text>)
    ensures |ShownAll(lines)| == |lines|
    ensures forall k | 0 <= k < |lines| :: ShownAll(lines)[k] == Shown(lines[k])
  {
    if lines != [] {
      ShownPointwise(lines[..|lines| - 1]);
    }
  }
}

/** The single owner of raw screen text: scrubbed reads waiting for the span they belong to. */
module ReadBuffer {
  import opened Sequences
  import opened Utf16
  import opened Wrappers

  const BUFFER_MAX_AGE_MS: int := 60 * 60_000
  const MIN_READ_CHARS: nat := 40

  datatype Read = Read(app: Text, title: Text, text: Text, at: int)

  /** What makes two reads the same to the buffer: the window (its key) and the text. */
  datatype Fingerprint = Fingerprint(app: Text, title: Text, text: Text)

  function Print(r: Read): Fingerprint { Fingerprint(r.app, r.title, r.text) }

  datatype Outcome = Kept | Unchanged | Empty

  datatype Buffer = Buffer(held: seq<Read>, last: Option<Fingerprint>)

  const NEW_BUFFER := Buffer([], None)

  function Judged(b: Buffer, r: Read): Outcome {
    if |Trim(r.text)| < MIN_READ_CHARS then Empty else if b.last == Some(Print(r)) then Unchanged else Kept
  }

  function Accepted(b: Buffer, r: Read): Buffer {
    if Judged(b, r).Kept? then Buffer(b.held + [r], Some(Print(r))) else b
  }

  function YoungAt(now: int): Read -> bool { (r: Read) => now - r.at <= BUFFER_MAX_AGE_MS }

  function OldAt(now: int): Read -> bool { (r: Read) => now - r.at > BUFFER_MAX_AGE_MS }

  function Inside(from: int, to: int): Read -> bool { (r: Read) => r.at >= from && r.at <= to }

  function Outside(from: int, to: int): Read -> bool { (r: Read) => r.at < from || r.at > to }

  function Expired(b: Buffer, now: int): Buffer { b.(held := Filtered(b.held, YoungAt(now))) }

  function Range(b: Buffer, from: int, to: int): seq<Read> { Filtered(b.held, Inside(from, to)) }

  function WithoutRange(b: Buffer, from: int, to: int): Buffer { b.(held := Filtered(b.held, Outside(from, to))) }

  class ReadBuffer {
    var held: seq<Read>
    /** The last key and the last text, which are set together. */
    var last: Option<Fingerprint>

    function State(): Buffer
      reads this
    {
      Buffer(held, last)
    }

    constructor ()
      ensures State() == NEW_BUFFER
    {
      held, last := [], None;
    }

    method Accept(read: Read) returns (outcome: Outcome)
      modifies this
      ensures outcome == Judged(old(State()), read)
      ensures State() == Accepted(old(State()), read)
      ensures outcome.Kept? <==>
              && |Trim(read.text)| >= 40
              && old(last) != Some(Fingerprint(read.app, read.title, read.text))
      ensures outcome.Kept? ==> held == old(held) + [read] && last == Some(Fingerprint(read.app, read.title, read.text))
      ensures !outcome.Kept? ==> held == old(held) && last == old(last)
    {
      if |Trim(read.text)| < MIN_READ_CHARS {
        return Empty;
      }
      if last.Some? && last.value.app == read.app && last.value.title == read.title && last.value.text == read.text {
        return Unchanged;
      }
      last := Some(Print(read));
      held := held + [read];
      outcome := Kept;
    }

    method Expire(now: int) returns (count: nat)
      modifies this
      ensures State() == Expired(old(State()), now)
      ensures count == |Filtered(old(held), OldAt(now))|
    {
      var before := |held|;
      FilterSplits(held, YoungAt(now), OldAt(now));
      held := Filtered(held, YoungAt(now));
      count := before - |held|;
    }

    method TakeRange(from: int, to: int) returns (taken: seq<Read>)
      modifies this
      ensures taken == Range(old(State()), from, to)
      ensures State() == WithoutRange(old(State()), from, to)
    {
      taken := Filtered(held, Inside(from, to));
      held := Filtered(held, Outside(from, to));
    }
  }

  /**
   * A read is kept exactly when its trimmed text has forty units and it is of another window, or of another
   * text, than the read last kept; and keeping adds it last and changes nothing else.
   */
  lemma KeptIff(b: Buffer, r: Read)
    ensures Judged(b, r).Kept? <==>
            |Trim(r.text)| >= 40
            && (b.last.None? || b.last.value.app != r.app || b.last.value.title != r.title
                || b.last.value.text != r.text)
    ensures Judged(b, r).Empty? <==> |Trim(r.text)| < 40
    ensures Judged(b, r).Kept? ==> Accepted(b, r) == Buffer(b.held + [r], Some(Fingerprint(r.app, r.title, r.text)))
    ensures !Judged(b, r).Kept? ==> Accepted(b, r) == b
  {
  }

  /** Of a list of reads, those with forty units that are not the same as the one kept before them. */
  function Novel(texts: seq<Read>): seq<Read> {
    if texts == [] then []
    else
      var kept, r := Novel(Init(texts)), Last(texts);
      if |Trim(r.text)| < 40 || (kept != [] && SameRead(Last(kept), r)) then kept else kept + [r]
  }

  predicate SameRead(a: Read, b: Read) { a.app == b.app && a.title == b.title && a.text == b.text }

  // ----- coming back to a window -----

  function AcceptedAll(b: Buffer, texts: seq<Read>): Buffer {
    if texts == [] then b else Accepted(AcceptedAll(b, Init(texts)), Last(texts))
  }

  predicate SameWindow(a: Read, b: Read) { a.app == b.app && a.title == b.title }

  /** What `away` leaves of the fingerprint of `r`: all of it, or that of a read of another window. */
  lemma {:induction false} FingerprintAfter(b: Buffer, r: Read, away: seq<Read>)
    requires b.last == Some(Print(r)) && forall i | 0 <= i < |away| :: !SameWindow(away[i], r)
    ensures var last := AcceptedAll(b, away).last;
            if forall i | 0 <= i < |away| :: |Trim(away[i].text)| < 40 then last == Some(Print(r))
            else last.Some? && !(last.value.app == r.app && last.value.title == r.title)
  {
    if away != [] {
      hide Trim;
      FingerprintAfter(b, r, Init(away));
      assert Last(away) == away[|away| - 1];
      assert forall i | 0 <= i < |away| - 1 :: Init(away)[i] == away[i];
    }
  }

  /**
   * The read of a window that the user comes back to, with the text it had, is taken for unchanged exactly
   * when nothing read in between was long enough to be kept.
   */
  lemma ReturnUnchangedIff(b: Buffer, r: Read, away: seq<Read>, again: Read)
    requires b.last == Some(Print(r)) && forall i | 0 <= i < |away| :: !SameWindow(away[i], r)
    requires SameRead(again, r) && |Trim(again.text)| >= 40
    ensures Judged(AcceptedAll(b, away), again).Unchanged? <==> forall i | 0 <= i < |away| :: |Trim(away[i].text)| < 40
    ensures Judged(AcceptedAll(b, away), again).Kept? <==> exists i | 0 <= i < |away| :: |Trim(away[i].text)| >= 40
  {
    FingerprintAfter(b, r, away);
    hide Trim, AcceptedAll;
  }

  /** The failing input: a glance at another window whose text is too short, and back. */
  lemma GlanceAwayForgetsNothing(r: Read, glance: Read)
    requires |Trim(r.text)| >= 40 && |Trim(glance.text)| < 40 && !SameWindow(glance, r)
    ensures var b := AcceptedAll(NEW_BUFFER, [r, glance]);
            b.held == [r] && Judged(b, r.(at := glance.at + 1)).Unchanged?
  {
    assert Init([r, glance]) == [r] && Init([r]) == [];
    hide Trim;
    assert AcceptedAll(NEW_BUFFER, [r]) == Buffer([r], Some(Print(r)));
  }

  /** Exactly the reads over sixty minutes old go, and the others keep their order. */
  lemma ExpiryIs(b: Buffer, now: int)
    ensures Picks(Expired(b, now).held, b.held, (r: Read) => now - r.at <= 3_600_000)
    ensures Picks(Filtered(b.held, OldAt(now)), b.held, (r: Read) => now - r.at > 3_600_000)
    ensures Expired(b, now).last == b.last
  {
    FilteredPicks(b.held, YoungAt(now), (r: Read) => now - r.at <= 3_600_000);
    FilteredPicks(b.held, OldAt(now), (r: Read) => now - r.at > 3_600_000);
  }

  /** Exactly the reads within the span are taken, and the others stay, both in their order. */
  lemma RangeIs(b: Buffer, from: int, to: int)
    ensures Picks(Range(b, from, to), b.held, (r: Read) => from <= r.at <= to)
    ensures Picks(WithoutRange(b, from, to).held, b.held, (r: Read) => !(from <= r.at <= to))
    ensures WithoutRange(b, from, to).last == b.last
  {
    FilteredPicks(b.held, Inside(from, to), (r: Read) => from <= r.at <= to);
    FilteredPicks(b.held, Outside(from, to), (r: Read) => !(from <= r.at <= to));
  }

  /** What a span takes and what it leaves are the whole buffer: nothing is copied and nothing is lost. */
  lemma RangeSplitsBuffer(b: Buffer, from: int, to: int)
    ensures multiset(Range(b, from, to)) + multiset(WithoutRange(b, from, to).held) == multiset(b.held)
  {
    FilterSplits(b.held, Inside(from, to), Outside(from, to));
  }

  lemma ExpirySplitsBuffer(b: Buffer, now: int)
    ensures multiset(Expired(b, now).held) + multiset(Filtered(b.held, OldAt(now))) == multiset(b.held)
    ensures forall r | r in Expired(b, now).held :: now - r.at <= BUFFER_MAX_AGE_MS
  {
    FilterSplits(b.held, YoungAt(now), OldAt(now));
    FilteredMembers(b.held, YoungAt(now));
  }
}

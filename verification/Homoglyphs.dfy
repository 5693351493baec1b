/**
 * Repairing look-alike letters, word by word: a word with a Latin letter in it has every Cyrillic or
 * Greek twin replaced by its Latin letter; any other word is left as it came.
 */
module Homoglyphs {
  /** Unicode `White_Space`. */
  predicate IsSpace(c: char) {
    '\U{0009}' <= c <= '\U{000D}' || c == ' ' || c == '\U{0085}' || c == '\U{00A0}' || c == '\U{1680}'
    || '\U{2000}' <= c <= '\U{200A}' || c == '\U{2028}' || c == '\U{2029}' || c == '\U{202F}' || c == '\U{205F}'
        || c == '\U{3000}'
  }

  predicate IsLatinLetter(c: char) {
    || 'A' <= c <= 'Z' || 'a' <= c <= 'z'
    || ('\U{00C0}' <= c <= '\U{024F}' && c != '\U{00D7}' && c != '\U{00F7}')
  }

  /** The Latin letter a Cyrillic or Greek letter looks like; any other character is its own twin. */
  function TwinOf(c: char): char {
    if c == '\U{0410}' || c == '\U{0391}' then 'A'
    else if c == '\U{0412}' || c == '\U{0392}' then 'B'
    else if c == '\U{0415}' || c == '\U{0395}' then 'E'
    else if c == '\U{041A}' || c == '\U{039A}' then 'K'
    else if c == '\U{041C}' || c == '\U{039C}' then 'M'
    else if c == '\U{041D}' || c == '\U{0397}' then 'H'
    else if c == '\U{041E}' || c == '\U{039F}' then 'O'
    else if c == '\U{0420}' || c == '\U{03A1}' then 'P'
    else if c == '\U{0421}' then 'C'
    else if c == '\U{0422}' || c == '\U{03A4}' then 'T'
    else if c == '\U{0425}' || c == '\U{03A7}' then 'X'
    else if c == '\U{0430}' then 'a'
    else if c == '\U{0435}' then 'e'
    else if c == '\U{043E}' || c == '\U{03BF}' then 'o'
    else if c == '\U{0440}' then 'p'
    else if c == '\U{0441}' then 'c'
    else if c == '\U{0443}' then 'y'
    else if c == '\U{0445}' then 'x'
    else if c == '\U{0456}' then 'i'
    else if c == '\U{0458}' then 'j'
    else if c == '\U{0455}' then 's'
    else if c == '\U{0396}' then 'Z'
    else if c == '\U{0399}' then 'I'
    else if c == '\U{039D}' then 'N'
    else if c == '\U{03A5}' then 'Y'
    else if c == '\U{03BD}' then 'v'
    else c
  }

  predicate IsTwin(c: char) { TwinOf(c) != c }

  /** A twin is not a Latin letter, and what replaces it is one. */
  lemma TwinIsLatin(c: char)
    requires IsTwin(c)
    ensures !IsLatinLetter(c) && IsLatinLetter(TwinOf(c))
    ensures '\U{0391}' <= c <= '\U{03BF}' || '\U{0410}' <= c <= '\U{0458}'
    ensures 'A' <= TwinOf(c) <= 'Z' || 'a' <= TwinOf(c) <= 'z'
  {
  }

  lemma TwinOfIsNoTwin(c: char)
    ensures !IsTwin(TwinOf(c))
  {
  }

  lemma TwinOfKeepsSpace(c: char)
    ensures IsSpace(TwinOf(c)) <==> IsSpace(c)
  {
  }

  predicate AnyTwin(s: string) { exists i | 0 <= i < |s| :: IsTwin(s[i]) }

  predicate AnyLatin(s: string) { exists i | 0 <= i < |s| :: IsLatinLetter(s[i]) }

  predicate ShouldNormaliseWord(word: string) { AnyTwin(word) && AnyLatin(word) }

  function Replaced(word: string): string { seq(|word|, i requires 0 <= i < |word| => TwinOf(word[i])) }

  datatype Piece = Word(text: string) | Space(text: string)

  function PieceOf(text: string): Piece
    requires text != ""
  {
    if IsSpace(text[0]) then Space(text) else Word(text)
  }

  function Repaired(p: Piece): Piece {
    if p.Word? && ShouldNormaliseWord(p.text) then Word(Replaced(p.text)) else p
  }

  /** The length of the first run of white space, or of anything else. */
  function Run(s: string): (n: nat)
    requires s != ""
    ensures 0 < n <= |s|
  {
    if |s| == 1 || IsSpace(s[0]) != IsSpace(s[1]) then 1 else 1 + Run(s[1..])
  }

  function Pieces(line: string): seq<Piece> {
    if line == "" then [] else [PieceOf(line[..Run(line)])] + Pieces(line[Run(line)..])
  }

  function Text(pieces: seq<Piece>): string {
    if pieces == [] then "" else pieces[0].text + Text(pieces[1..])
  }

  function AllRepaired(pieces: seq<Piece>): seq<Piece> {
    if pieces == [] then [] else [Repaired(pieces[0])] + AllRepaired(pieces[1..])
  }

  function Normalised(line: string): string { Text(AllRepaired(Pieces(line))) }

  // ----- splitting -----

  predicate OneKind(s: string) { forall i | 0 <= i < |s| :: IsSpace(s[i]) == IsSpace(s[0]) }

  lemma {:induction false} RunIs(s: string, n: nat)
    requires 0 < n <= |s| && OneKind(s[..n])
    requires n == |s| || IsSpace(s[n]) != IsSpace(s[0])
    ensures Run(s) == n
  {
    assert s[..n][0] == s[0];
    if n > 1 {
      assert s[..n][1] == s[1];
      assert s[1..][..n - 1] == s[..n][1..];
      assert s[1..][0] == s[1];
      RunIs(s[1..], n - 1);
    }
  }

  lemma {:induction false} RunIsOneKind(s: string)
    requires s != ""
    ensures OneKind(s[..Run(s)])
    ensures Run(s) < |s| ==> IsSpace(s[Run(s)]) != IsSpace(s[0])
  {
    var n := Run(s);
    if n > 1 {
      RunIsOneKind(s[1..]);
      forall i | 0 <= i < n
        ensures IsSpace(s[..n][i]) == IsSpace(s[..n][0])
      {
        if i > 0 {
          assert s[..n][i] == s[1..][..n - 1][i - 1];
        }
      }
    }
  }

  method SplitKeepingWhitespace(line: string) returns (pieces: seq<Piece>)
    ensures pieces == Pieces(line)
  {
    hide IsSpace, Pieces;
    pieces := [];
    var start, index := 0, 0;
    assert line[0..] == line;
    while index < |line|
      invariant 0 <= start <= index <= |line|
      invariant start == index ==> index == 0
      invariant pieces + Pieces(line[start..]) == Pieces(line)
      invariant OneKind(line[start..index])
    {
      if index > start && IsSpace(line[index]) != IsSpace(line[start]) {
        PieceEnds(line, start, index);
        pieces := pieces + [PieceOf(line[start..index])];
        start := index;
      }
      OneKindGrows(line, start, index);
      index := index + 1;
    }
    NoPieces(line[index..]);
    if start < index {
      PieceEnds(line, start, index);
      pieces := pieces + [PieceOf(line[start..index])];
    }
  }

  lemma NoPieces(s: string)
    requires s == ""
    ensures Pieces(s) == []
  {
  }

  lemma OneKindGrows(line: string, start: nat, index: nat)
    requires start <= index < |line| && OneKind(line[start..index])
    requires index > start ==> IsSpace(line[index]) == IsSpace(line[start])
    ensures OneKind(line[start..index + 1])
  {
    hide IsSpace;
    var s := line[start..index + 1];
    forall i | 0 <= i < |s|
      ensures IsSpace(s[i]) == IsSpace(s[0])
    {
      if i < index - start {
        assert s[i] == line[start..index][i] && s[0] == line[start..index][0];
      }
    }
  }

  lemma PieceEnds(line: string, start: nat, index: nat)
    requires start < index <= |line| && OneKind(line[start..index])
    requires index == |line| || IsSpace(line[index]) != IsSpace(line[start])
    ensures line[start..] != ""
    ensures Pieces(line[start..]) == [PieceOf(line[start..index])] + Pieces(line[index..])
  {
    var s := line[start..];
    assert s[..index - start] == line[start..index];
    RunIs(s, index - start);
    assert s[index - start..] == line[index..];
  }

  /** The pieces put back together are the line. */
  lemma {:induction false} PiecesMakeTheLine(line: string)
    ensures Text(Pieces(line)) == line
    decreases |line|
  {
    hide IsSpace, Run;
    if line != "" {
      var n := Run(line);
      PiecesMakeTheLine(line[n..]);
      assert Pieces(line)[1..] == Pieces(line[n..]);
      assert line == line[..n] + line[n..];
    }
  }

  /** Pieces are never empty and of one kind each, and the kinds alternate. */
  lemma {:induction false} PiecesAlternate(line: string)
    ensures var ps := Pieces(line);
            && (line != "" ==> ps != [] && (ps[0].Space? <==> IsSpace(line[0])))
            && (forall k | 0 <= k < |ps| :: ps[k].text != "" && OneKind(ps[k].text)
                                            && (ps[k].Space? <==> IsSpace(ps[k].text[0])))
            && (forall k, l | 0 <= k < l < |ps| && l == k + 1 :: ps[k].Space? != ps[l].Space?)
    decreases |line|
  {
    if line != "" {
      hide IsSpace, Run;
      var n := Run(line);
      RunIsOneKind(line);
      PiecesAlternate(line[n..]);
      assert Pieces(line)[1..] == Pieces(line[n..]);
    }
  }

  // ----- repairing -----

  /** `r` has white space exactly where `s` has. */
  predicate SameSpaces(r: string, s: string) {
    |r| == |s| && forall i | 0 <= i < |s| :: IsSpace(r[i]) <==> IsSpace(s[i])
  }

  /** Each character is kept or replaced by its twin. */
  predicate OnlyTwinsReplaced(r: string, s: string) {
    |r| == |s| && forall i | 0 <= i < |s| :: r[i] == s[i] || r[i] == TwinOf(s[i])
  }

  lemma RepairedKeepsShape(p: Piece)
    ensures SameSpaces(Repaired(p).text, p.text) && OnlyTwinsReplaced(Repaired(p).text, p.text)
    ensures Repaired(p).Word? == p.Word?
  {
    hide IsSpace, TwinOf, IsLatinLetter, IsTwin;
    forall i | 0 <= i < |p.text|
      ensures IsSpace(TwinOf(p.text[i])) <==> IsSpace(p.text[i])
    {
      TwinOfKeepsSpace(p.text[i]);
    }
  }

  /** A repaired word has no twin left to repair. */
  lemma RepairedTwice(p: Piece)
    ensures Repaired(Repaired(p)) == Repaired(p)
  {
    hide IsSpace, TwinOf, IsLatinLetter, IsTwin;
    forall i | 0 <= i < |p.text|
      ensures !IsTwin(TwinOf(p.text[i]))
    {
      TwinOfIsNoTwin(p.text[i]);
    }
  }

  /** Repairing neither makes nor takes the evidence for repairing: a word is Latin before as after. */
  lemma RepairKeepsScript(w: string)
    ensures AnyLatin(Repaired(Word(w)).text) <==> AnyLatin(w)
  {
    hide IsLatinLetter, TwinOf;
    if ShouldNormaliseWord(w) {
      var i :| 0 <= i < |w| && IsLatinLetter(w[i]);
      if IsTwin(w[i]) {
        TwinIsLatin(w[i]);
      }
      assert Replaced(w)[i] == w[i];
    }
  }

  /** A text with the same white space splits at the same places. */
  lemma SameSpacesSameSplit(line: string, n: nat, head: string, tail: string)
    requires line != "" && n == Run(line)
    requires SameSpaces(head, line[..n]) && SameSpaces(tail, line[n..])
    ensures Pieces(head + tail) == [PieceOf(head)] + Pieces(tail)
    ensures PieceOf(head).Word? == PieceOf(line[..n]).Word?
    ensures SameSpaces(head + tail, line)
  {
    hide IsSpace;
    RunIsOneKind(line);
    var r := head + tail;
    assert r[..n] == head && r[n..] == tail;
    forall i | 0 <= i < |line|
      ensures IsSpace(r[i]) <==> IsSpace(line[i])
    {
      assert line[i] == if i < n then line[..n][i] else line[n..][i - n];
    }
    forall i | 0 <= i < n
      ensures IsSpace(head[i]) == IsSpace(head[0])
    {
      assert IsSpace(line[..n][i]) == IsSpace(line[..n][0]);
    }
    assert r[0] == head[0];
    RunIs(r, n);
  }

  lemma TwinsJoined(r: string, s: string, head: string, n: nat, tail: string)
    requires n <= |s| && r == head + tail && OnlyTwinsReplaced(head, s[..n]) && OnlyTwinsReplaced(tail, s[n..])
    ensures OnlyTwinsReplaced(r, s)
  {
    hide TwinOf;
    forall i | 0 <= i < |s|
      ensures r[i] == s[i] || r[i] == TwinOf(s[i])
    {
      assert s[i] == if i < n then s[..n][i] else s[n..][i - n];
    }
  }

  lemma NormalisedStep(line: string)
    requires line != ""
    ensures var n := Run(line);
            && Pieces(line) == [PieceOf(line[..n])] + Pieces(line[n..])
            && AllRepaired(Pieces(line)) == [Repaired(PieceOf(line[..n]))] + AllRepaired(Pieces(line[n..]))
            && Normalised(line) == Repaired(PieceOf(line[..n])).text + Normalised(line[n..])
            && PieceOf(line[..n]).text == line[..n]
  {
    hide IsSpace, Run, Repaired;
    var n := Run(line);
    assert Pieces(line)[1..] == Pieces(line[n..]);
    assert AllRepaired(Pieces(line))[1..] == AllRepaired(Pieces(line[n..]));
  }

  /**
   * The pieces of a repaired line are the line's pieces, each repaired: so white space and the length
   * stay, only twins change, and a word with no Latin letter in it comes back as it was.
   */
  lemma {:induction false} PiecesOfNormalised(line: string)
    ensures Pieces(Normalised(line)) == AllRepaired(Pieces(line))
    ensures SameSpaces(Normalised(line), line) && OnlyTwinsReplaced(Normalised(line), line)
    decreases |line|
  {
    if line != "" {
      hide *;
      var n := Run(line);
      var p, tail := PieceOf(line[..n]), line[n..];
      NormalisedStep(line);
      PiecesOfNormalised(tail);
      RepairedKeepsShape(p);
      var head := Repaired(p).text;
      SameSpacesSameSplit(line, n, head, Normalised(tail));
      TwinsJoined(Normalised(line), line, head, n, Normalised(tail));
      PieceAgain(Repaired(p), head, p);
    }
  }

  lemma PieceAgain(q: Piece, head: string, p: Piece)
    requires head != "" && q.text == head && q.Word? == p.Word? && PieceOf(head).Word? == p.Word?
    ensures PieceOf(head) == q
  {
  }

  lemma {:induction false} RepairedAgain(pieces: seq<Piece>)
    ensures AllRepaired(AllRepaired(pieces)) == AllRepaired(pieces)
  {
    if pieces != [] {
      hide Repaired;
      RepairedAgain(pieces[1..]);
      RepairedTwice(pieces[0]);
      assert AllRepaired(pieces)[1..] == AllRepaired(pieces[1..]);
    }
  }

  lemma NormalisedIdempotent(line: string)
    ensures Normalised(Normalised(line)) == Normalised(line)
  {
    PiecesOfNormalised(line);
    RepairedAgain(Pieces(line));
  }

  // ----- what is repaired, character by character -----

  /** No white space from `i` to `j`, whichever comes first. */
  predicate SameWord(line: string, i: nat, j: nat)
    requires i < |line| && j < |line|
  {
    forall k | 0 <= k < |line| && (i <= k <= j || j <= k <= i) :: !IsSpace(line[k])
  }

  /** The word at `i` holds a Latin letter. */
  predicate LatinBeside(line: string, i: nat)
    requires i < |line|
  {
    exists j | 0 <= j < |line| :: SameWord(line, i, j) && IsLatinLetter(line[j])
  }

  lemma LatinInHead(line: string, n: nat, i: nat)
    requires i < n <= |line| && OneKind(line[..n])
    requires n < |line| ==> IsSpace(line[n]) != IsSpace(line[0])
    ensures LatinBeside(line, i) <==> !IsSpace(line[0]) && AnyLatin(line[..n])
  {
    hide IsSpace, IsLatinLetter;
    var head := line[..n];
    assert forall k | 0 <= k < n :: head[k] == line[k];
    assert IsSpace(head[i]) == IsSpace(head[0]);
    if LatinBeside(line, i) {
      var j :| 0 <= j < |line| && SameWord(line, i, j) && IsLatinLetter(line[j]);
      if j >= n {
        assert false;
      }
      assert head[j] == line[j];
    }
    if !IsSpace(line[0]) && AnyLatin(head) {
      var j :| 0 <= j < n && IsLatinLetter(head[j]);
      forall k | 0 <= k < |line| && (i <= k <= j || j <= k <= i)
        ensures !IsSpace(line[k])
      {
        assert IsSpace(head[k]) == IsSpace(head[0]);
      }
      assert SameWord(line, i, j);
    }
  }

  lemma LatinInTail(line: string, n: nat, i: nat)
    requires 0 < n <= i < |line| && OneKind(line[..n]) && IsSpace(line[n]) != IsSpace(line[0])
    ensures LatinBeside(line, i) <==> LatinBeside(line[n..], i - n)
  {
    hide IsSpace, IsLatinLetter, LatinBeside, OneKind;
    if LatinBeside(line, i) {
      NotAcross(line, n, i);
    }
    if LatinBeside(line[n..], i - n) {
      BesideInTail(line, n, i);
    }
  }

  lemma NotAcross(line: string, n: nat, i: nat)
    requires 0 < n <= i < |line| && OneKind(line[..n]) && IsSpace(line[n]) != IsSpace(line[0])
    requires LatinBeside(line, i)
    ensures LatinBeside(line[n..], i - n)
  {
    hide IsSpace, IsLatinLetter;
    var head, tail := line[..n], line[n..];
    assert IsSpace(head[n - 1]) == IsSpace(head[0]);
    var j :| 0 <= j < |line| && SameWord(line, i, j) && IsLatinLetter(line[j]);
    if j < n {
      assert false;
    } else {
      assert forall k | 0 <= k < |tail| :: tail[k] == line[n + k];
      assert SameWord(tail, i - n, j - n) && IsLatinLetter(tail[j - n]);
    }
  }

  lemma BesideInTail(line: string, n: nat, i: nat)
    requires n <= i < |line| && LatinBeside(line[n..], i - n)
    ensures LatinBeside(line, i)
  {
    hide IsSpace, IsLatinLetter;
    var tail := line[n..];
    var j :| 0 <= j < |tail| && SameWord(tail, i - n, j) && IsLatinLetter(tail[j]);
    forall k | 0 <= k < |line| && (i <= k <= n + j || n + j <= k <= i)
      ensures !IsSpace(line[k])
    {
      assert line[k] == tail[k - n];
    }
    assert SameWord(line, i, n + j) && IsLatinLetter(line[n + j]);
  }

  lemma RepairedAt(head: string, i: nat)
    requires i < |head|
    ensures var r := Repaired(PieceOf(head)).text;
            && |r| == |head|
            && r[i] == if !IsSpace(head[0]) && AnyLatin(head) then TwinOf(head[i]) else head[i]
  {
    hide IsSpace, IsLatinLetter, TwinOf;
  }

  lemma SplitsHere(line: string)
    requires line != ""
    ensures var n := Run(line);
            OneKind(line[..n]) && (n < |line| ==> IsSpace(line[n]) != IsSpace(line[0])) && line[..n][0] == line[0]
  {
    RunIsOneKind(line);
  }

  /** A character of a repaired line: its twin when its word holds a Latin letter, and itself when not. */
  ghost predicate RepairedHere(line: string, r: string, i: nat)
    requires i < |line|
  {
    i < |r| && r[i] == if LatinBeside(line, i) then TwinOf(line[i]) else line[i]
  }

  /** Every word with a Latin letter in it has all its twins replaced, and every other word is left as it came. */
  lemma {:induction false} NormalisedAt(line: string)
    ensures |Normalised(line)| == |line|
    ensures forall i | 0 <= i < |line| :: RepairedHere(line, Normalised(line), i)
    decreases |line|
  {
    hide *;
    if line == "" {
      NothingNormalised(line);
    } else {
      var n := Run(line);
      var head, tail, r := line[..n], line[n..], Normalised(line);
      NormalisedStep(line);
      NormalisedAt(tail);
      SplitsHere(line);
      RepairedAt(head, 0);
      forall i | 0 <= i < |line|
        ensures RepairedHere(line, r, i)
      {
        if i < n {
          RepairedAt(head, i);
          LatinInHead(line, n, i);
          assert r[i] == Repaired(PieceOf(head)).text[i];
          HereIs(line, r, i);
        } else {
          LatinInTail(line, n, i);
          assert RepairedHere(tail, Normalised(tail), i - n);
          HereIs(tail, Normalised(tail), i - n);
          assert r[i] == Normalised(tail)[i - n] && line[i] == tail[i - n];
          HereIs(line, r, i);
        }
      }
    }
  }

  lemma HereIs(line: string, r: string, i: nat)
    requires i < |line|
    ensures RepairedHere(line, r, i) <==>
            i < |r| && r[i] == if LatinBeside(line, i) then TwinOf(line[i]) else line[i]
  {
    hide LatinBeside, TwinOf;
  }

  lemma NothingNormalised(line: string)
    requires line == ""
    ensures Normalised(line) == ""
  {
  }

  /** No word of a repaired line holds both a twin and a Latin letter: nothing is left unrepaired. */
  lemma NoTwinBesideLatin(line: string, i: nat)
    requires i < |line|
    ensures |Normalised(line)| == |line|
    ensures IsTwin(Normalised(line)[i]) ==> !LatinBeside(line, i) && Normalised(line)[i] == line[i]
  {
    NormalisedAt(line);
    hide Normalised, LatinBeside, TwinOf;
    assert RepairedHere(line, Normalised(line), i);
    TwinOfIsNoTwin(line[i]);
  }

  /** A line comes back as it was exactly when no word of it holds both. */
  lemma UnchangedIff(line: string)
    ensures Normalised(line) == line <==> forall i | 0 <= i < |line| && LatinBeside(line, i) :: !IsTwin(line[i])
  {
    NormalisedAt(line);
    var r := Normalised(line);
    hide Normalised, LatinBeside, TwinOf;
    forall i | 0 <= i < |line|
      ensures r[i] == line[i] <==> (LatinBeside(line, i) ==> !IsTwin(line[i]))
    {
      assert RepairedHere(line, r, i);
    }
    hide IsTwin;
    if forall i | 0 <= i < |line| && LatinBeside(line, i) :: !IsTwin(line[i]) {
      assert r == line;
    }
  }

  /** A Cyrillic capital before Latin letters, as it was measured. */
  lemma MeasuredCase()
    ensures Normalised("\U{0410}cceptance") == "Acceptance"
  {
    var line := "\U{0410}cceptance";
    NormalisedAt(line);
    var r := Normalised(line);
    hide Normalised, LatinBeside;
    forall i | 0 <= i < |line|
      ensures LatinBeside(line, i)
    {
      WordOfLetters(line, i, 1);
    }
    forall i | 0 <= i < |line|
      ensures r[i] == "Acceptance"[i]
    {
      assert RepairedHere(line, r, i);
      assert i > 0 ==> 'a' <= line[i] <= 'z';
    }
  }

  lemma WordOfLetters(line: string, i: nat, j: nat)
    requires i < |line| && j < |line| && IsLatinLetter(line[j])
    requires forall k | 0 <= k < |line| :: !IsSpace(line[k])
    ensures LatinBeside(line, i)
  {
    hide IsSpace, IsLatinLetter;
    assert SameWord(line, i, j);
  }

  lemma {:induction false} NoTwinsNoRepair(pieces: seq<Piece>)
    requires forall i | 0 <= i < |Text(pieces)| :: !IsTwin(Text(pieces)[i])
    ensures AllRepaired(pieces) == pieces
  {
    if pieces != [] {
      hide IsTwin;
      var head, tail := pieces[0].text, Text(pieces[1..]);
      assert forall i | 0 <= i < |tail| :: tail[i] == Text(pieces)[|head| + i];
      assert forall i | 0 <= i < |head| :: head[i] == Text(pieces)[i];
      NoTwinsNoRepair(pieces[1..]);
    }
  }

  method NormaliseHomoglyphs(line: string) returns (repaired: string)
    ensures repaired == Normalised(line)
    ensures |repaired| == |line| && forall i | 0 <= i < |line| :: RepairedHere(line, repaired, i)
  {
    NormalisedAt(line);
    hide RepairedHere, IsTwin, IsLatinLetter, IsSpace, TwinOf, Text, AllRepaired, Pieces, ShouldNormaliseWord, Replaced;
    PiecesMakeTheLine(line);
    if !AnyTwin(line) {
      NoTwinsNoRepair(Pieces(line));
      return line;
    }
    repaired := "";
    var pieces := SplitKeepingWhitespace(line);
    assert pieces[0..] == pieces;
    var k := 0;
    while k < |pieces|
      invariant 0 <= k <= |pieces|
      invariant repaired + Text(AllRepaired(pieces[k..])) == Normalised(line)
    {
      TextStep(pieces, k);
      match pieces[k] {
        case Space(s) => repaired := repaired + s;
        case Word(w) => repaired := repaired + (if ShouldNormaliseWord(w) then Replaced(w) else w);
      }
      k := k + 1;
    }
    NoText(pieces[k..]);
  }

  lemma NoText(pieces: seq<Piece>)
    requires pieces == []
    ensures Text(AllRepaired(pieces)) == ""
  {
  }

  lemma TextStep(pieces: seq<Piece>, k: nat)
    requires k < |pieces|
    ensures Text(AllRepaired(pieces[k..])) == Repaired(pieces[k]).text + Text(AllRepaired(pieces[k + 1..]))
  {
    hide Repaired;
    assert pieces[k..][1..] == pieces[k + 1..];
    assert AllRepaired(pieces[k..])[1..] == AllRepaired(pieces[k + 1..]);
  }
}

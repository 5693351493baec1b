/**
 * The same-pixels hash: two multiply-xor folds over the visible bytes of a frame whose rows may be
 * padded. Sizes are `usize` on a 64-bit machine; width and height are kept as machine words because
 * the hash mixes their bits.
 */
module Frame {
  const USIZE_MAX: nat := 0xffff_ffff_ffff_ffff

  type Bytes = seq<bv8>

  datatype Frame = Frame(width: bv64, height: bv64, bytesPerRow: nat, bytesPerPixel: nat, data: Bytes)

  // ----- the two mixing steps -----

  function Times1(x: bv64): bv64 { x * 0x0000_0100_0000_01b3 }

  function Times2(x: bv64): bv64 { x * 0x8803_55f2_1e6d_1965 }

  function Spread1(h: bv64): bv64 { h ^ (h >> 29) }

  function Spread2(h: bv64): bv64 { h ^ (h >> 31) }

  function Mix1(state: bv64, word: bv64): bv64 { Spread1(Times1(state ^ word)) }

  function Mix2(state: bv64, word: bv64): bv64 { Spread2(Times2(state ^ word)) }

  // The multipliers are odd, so each has an inverse modulo 2^64; a shifted xor is undone by two more.

  function Untimes1(x: bv64): bv64 { x * 0xce96_5057_aff6_957b }

  function Untimes2(x: bv64): bv64 { x * 0x28fc_2378_3fb0_706d }

  function Unspread1(g: bv64): bv64 { g ^ (g >> 29) ^ (g >> 58) }

  function Unspread2(g: bv64): bv64 { g ^ (g >> 31) ^ (g >> 62) }

  /** The state a mix started from, given what it made and the word. */
  function Unmix1(mixed: bv64, word: bv64): bv64 { Untimes1(Unspread1(mixed)) ^ word }

  function Unmix2(mixed: bv64, word: bv64): bv64 { Untimes2(Unspread2(mixed)) ^ word }

  lemma InverseMultipliers(x: bv64)
    ensures (x * 0x0000_0100_0000_01b3) * 0xce96_5057_aff6_957b == x
    ensures (x * 0x8803_55f2_1e6d_1965) * 0x28fc_2378_3fb0_706d == x
  {
  }

  lemma ShiftsUndone(h: bv64)
    ensures var g := h ^ (h >> 29); g ^ (g >> 29) ^ (g >> 58) == h
    ensures var g := h ^ (h >> 31); g ^ (g >> 31) ^ (g >> 62) == h
  {
  }

  lemma TimesUndone(x: bv64)
    ensures Untimes1(Times1(x)) == x && Untimes2(Times2(x)) == x
  {
    calc {
      Untimes1(Times1(x));
      Untimes1(x * 0x0000_0100_0000_01b3);
      (x * 0x0000_0100_0000_01b3) * 0xce96_5057_aff6_957b;
      { InverseMultipliers(x); }
      x;
    }
    calc {
      Untimes2(Times2(x));
      Untimes2(x * 0x8803_55f2_1e6d_1965);
      (x * 0x8803_55f2_1e6d_1965) * 0x28fc_2378_3fb0_706d;
      { InverseMultipliers(x); }
      x;
    }
  }

  lemma SpreadUndone(h: bv64)
    ensures Unspread1(Spread1(h)) == h && Unspread2(Spread2(h)) == h
  {
    calc {
      Unspread1(Spread1(h));
      Unspread1(h ^ (h >> 29));
      (h ^ (h >> 29)) ^ ((h ^ (h >> 29)) >> 29) ^ ((h ^ (h >> 29)) >> 58);
      { ShiftsUndone(h); }
      h;
    }
    calc {
      Unspread2(Spread2(h));
      Unspread2(h ^ (h >> 31));
      (h ^ (h >> 31)) ^ ((h ^ (h >> 31)) >> 31) ^ ((h ^ (h >> 31)) >> 62);
      { ShiftsUndone(h); }
      h;
    }
  }

  lemma XorTwice(s: bv64, w: bv64)
    ensures (s ^ w) ^ w == s && s ^ w == w ^ s
  {
  }

  lemma UnmixRoundTrip(s: bv64, w: bv64)
    ensures Unmix1(Mix1(s, w), w) == s && Unmix2(Mix2(s, w), w) == s
  {
    hide Times1, Times2, Spread1, Spread2, Untimes1, Untimes2, Unspread1, Unspread2;
    TimesUndone(s ^ w);
    SpreadUndone(Times1(s ^ w));
    SpreadUndone(Times2(s ^ w));
    XorTwice(s, w);
  }

  lemma MixSymmetric(s: bv64, w: bv64)
    ensures Mix1(s, w) == Mix1(w, s) && Mix2(s, w) == Mix2(w, s)
  {
    hide Times1, Times2, Spread1, Spread2;
    XorTwice(s, w);
  }

  lemma MixKeepsApart(s: bv64, s': bv64, w: bv64)
    ensures Mix1(s, w) == Mix1(s', w) ==> s == s'
    ensures Mix2(s, w) == Mix2(s', w) ==> s == s'
    ensures Mix1(w, s) == Mix1(w, s') ==> s == s'
    ensures Mix2(w, s) == Mix2(w, s') ==> s == s'
  {
    hide Mix1, Mix2, Unmix1, Unmix2;
    UnmixRoundTrip(s, w);
    UnmixRoundTrip(s', w);
    MixSymmetric(s, w);
    MixSymmetric(s', w);
  }

  /** The two hashes, folded side by side. */
  datatype Hashes = Hashes(h1: bv64, h2: bv64)

  function Mix(s: Hashes, word: bv64): Hashes { Hashes(Mix1(s.h1, word), Mix2(s.h2, word)) }

  predicate BothDiffer(s: Hashes, s': Hashes) { s.h1 != s'.h1 && s.h2 != s'.h2 }

  lemma MixBothDiffer(s: Hashes, s': Hashes, w: bv64, w': bv64)
    ensures BothDiffer(s, s') ==> BothDiffer(Mix(s, w), Mix(s', w))
    ensures w != w' ==> BothDiffer(Mix(s, w), Mix(s, w'))
  {
    hide Mix1, Mix2;
    MixKeepsApart(s.h1, s'.h1, w);
    MixKeepsApart(s.h2, s'.h2, w);
    MixKeepsApart(w, w', s.h1);
    MixKeepsApart(w, w', s.h2);
  }

  // ----- words -----

  function Pack(b0: bv8, b1: bv8, b2: bv8, b3: bv8, b4: bv8, b5: bv8, b6: bv8, b7: bv8): bv64 {
    b0 as bv64 | (b1 as bv64 << 8) | (b2 as bv64 << 16) | (b3 as bv64 << 24)
    | (b4 as bv64 << 32) | (b5 as bv64 << 40) | (b6 as bv64 << 48) | (b7 as bv64 << 56)
  }

  function ByteOr0(chunk: Bytes, i: nat): bv8 { if i < |chunk| then chunk[i] else 0 }

  /** The length mark of a short chunk: its length in the top byte. A whole chunk has none. */
  function LengthMark(n: nat): bv64 {
    if n == 1 then 1 << 56 else if n == 2 then 2 << 56 else if n == 3 then 3 << 56 else if n == 4 then 4 << 56
    else if n == 5 then 5 << 56 else if n == 6 then 6 << 56 else if n == 7 then 7 << 56 else 0
  }

  /** Eight bytes, little-endian; a shorter chunk is padded with zeros and marked with its length. */
  function ChunkWord(chunk: Bytes): bv64 {
    Pack(ByteOr0(chunk, 0), ByteOr0(chunk, 1), ByteOr0(chunk, 2), ByteOr0(chunk, 3),
         ByteOr0(chunk, 4), ByteOr0(chunk, 5), ByteOr0(chunk, 6), ByteOr0(chunk, 7)) ^ LengthMark(|chunk|)
  }

  lemma TopByte(b0: bv8, b1: bv8, b2: bv8, b3: bv8, b4: bv8, b5: bv8, b6: bv8, top: bv8)
    ensures Pack(b0, b1, b2, b3, b4, b5, b6, 0) ^ (top as bv64 << 56) == Pack(b0, b1, b2, b3, b4, b5, b6, top)
    ensures Pack(b0, b1, b2, b3, b4, b5, b6, top) ^ 0 == Pack(b0, b1, b2, b3, b4, b5, b6, top)
  {
  }

  /** The byte a mark puts on top. */
  function MarkByte(n: nat): bv8 {
    if n == 1 then 1 else if n == 2 then 2 else if n == 3 then 3 else if n == 4 then 4
    else if n == 5 then 5 else if n == 6 then 6 else if n == 7 then 7 else 0
  }

  lemma MarkIsByte(n: nat)
    ensures LengthMark(n) == MarkByte(n) as bv64 << 56
  {
  }

  /** The eight bytes of a chunk's word, the length mark among them. */
  function WordByte(chunk: Bytes, i: nat): bv8 {
    if i == 7 && |chunk| < 8 then MarkByte(|chunk|) else ByteOr0(chunk, i)
  }

  lemma ChunkWordBytes(c: Bytes)
    requires 0 < |c| <= 8
    ensures ChunkWord(c) == Pack(WordByte(c, 0), WordByte(c, 1), WordByte(c, 2), WordByte(c, 3),
                                 WordByte(c, 4), WordByte(c, 5), WordByte(c, 6), WordByte(c, 7))
  {
    hide Pack, LengthMark, MarkByte;
    MarkIsByte(|c|);
    TopByte(ByteOr0(c, 0), ByteOr0(c, 1), ByteOr0(c, 2), ByteOr0(c, 3),
            ByteOr0(c, 4), ByteOr0(c, 5), ByteOr0(c, 6), WordByte(c, 7));
    if |c| == 8 {
      assert LengthMark(8) == 0 by { WholeHasNoMark(); }
    }
  }

  lemma WholeHasNoMark()
    ensures LengthMark(8) == 0
  {
  }

  lemma SamePack(b0: bv8, b1: bv8, b2: bv8, b3: bv8, b4: bv8, b5: bv8, b6: bv8, b7: bv8,
                 c0: bv8, c1: bv8, c2: bv8, c3: bv8, c4: bv8, c5: bv8, c6: bv8, c7: bv8)
    ensures Pack(b0, b1, b2, b3, b4, b5, b6, b7) == Pack(c0, c1, c2, c3, c4, c5, c6, c7)
            <==> b0 == c0 && b1 == c1 && b2 == c2 && b3 == c3 && b4 == c4 && b5 == c5 && b6 == c6 && b7 == c7
  {
  }

  lemma SameWordBytes(b: Bytes, c: Bytes)
    requires 0 < |b| <= 8 && 0 < |c| <= 8
    ensures ChunkWord(b) == ChunkWord(c) <==> forall i | 0 <= i < 8 :: WordByte(b, i) == WordByte(c, i)
  {
    ChunkWordBytes(b);
    ChunkWordBytes(c);
    hide *;
    SamePack(WordByte(b, 0), WordByte(b, 1), WordByte(b, 2), WordByte(b, 3),
             WordByte(b, 4), WordByte(b, 5), WordByte(b, 6), WordByte(b, 7),
             WordByte(c, 0), WordByte(c, 1), WordByte(c, 2), WordByte(c, 3),
             WordByte(c, 4), WordByte(c, 5), WordByte(c, 6), WordByte(c, 7));
  }

  lemma ChunkWordInjective(b: Bytes, c: Bytes)
    requires 0 < |b| == |c| <= 8 && ChunkWord(b) == ChunkWord(c)
    ensures b == c
  {
    SameWordBytes(b, c);
    hide ChunkWord, MarkByte;
    forall i | 0 <= i < |b|
      ensures b[i] == c[i]
    {
      assert WordByte(b, i) == WordByte(c, i);
    }
  }

  /** A short chunk cannot collide with a longer short one that is zero where the first has ended. */
  lemma LengthTakesPart(b: Bytes, c: Bytes)
    requires 0 < |b| < |c| < 8
    ensures ChunkWord(b) != ChunkWord(c)
  {
    SameWordBytes(b, c);
    hide ChunkWord;
    assert WordByte(b, 7) != WordByte(c, 7);
  }

  /**
   * A short chunk and a whole one meet in one case only: the whole one is the short one, zeros, and the
   * short one's length as its last byte. Zeros up to a whole word are therefore told apart.
   */
  lemma ShortMeetsWholeIff(b: Bytes, c: Bytes)
    requires 0 < |b| < 8 && |c| == 8
    ensures ChunkWord(b) == ChunkWord(c)
            <==> c[7] == MarkByte(|b|) && forall i | 0 <= i < 7 :: c[i] == ByteOr0(b, i)
    ensures c[7] == 0 ==> ChunkWord(b) != ChunkWord(c)
  {
    SameWordBytes(b, c);
    hide ChunkWord;
    forall i | 0 <= i < 7
      ensures WordByte(b, i) == ByteOr0(b, i) && WordByte(c, i) == c[i]
    {
    }
    assert WordByte(b, 7) == MarkByte(|b|) && WordByte(c, 7) == c[7] && MarkByte(|b|) != 0;
    hide WordByte, ByteOr0, MarkByte;
  }

  function ChunkCount(row: Bytes): nat { (|row| + 7) / 8 }

  function Chunk(row: Bytes, k: nat): Bytes
    requires k < ChunkCount(row)
  {
    row[8 * k..if 8 * k + 8 <= |row| then 8 * k + 8 else |row|]
  }

  /** The words of a row: its whole chunks, then its tail if it has one. */
  function Words(row: Bytes): seq<bv64> {
    seq(ChunkCount(row), k requires 0 <= k < ChunkCount(row) => ChunkWord(Chunk(row, k)))
  }

  // ----- the folds -----

  function Fold(s: Hashes, words: seq<bv64>): Hashes {
    if words == [] then s else Mix(Fold(s, words[..|words| - 1]), words[|words| - 1])
  }

  function FoldRows(s: Hashes, rows: seq<Bytes>): Hashes {
    if rows == [] then s else Fold(FoldRows(s, rows[..|rows| - 1]), Words(rows[|rows| - 1]))
  }

  /** Folding the same words keeps two states apart. */
  lemma {:induction false} FoldKeepsApart(s: Hashes, s': Hashes, words: seq<bv64>)
    requires BothDiffer(s, s')
    ensures BothDiffer(Fold(s, words), Fold(s', words))
  {
    hide Mix;
    if words != [] {
      var front, w := words[..|words| - 1], words[|words| - 1];
      FoldKeepsApart(s, s', front);
      MixBothDiffer(Fold(s, front), Fold(s', front), w, w);
    }
  }

  /** One changed word changes both. */
  lemma {:induction false} FoldSeesOneWord(s: Hashes, u: seq<bv64>, v: seq<bv64>, i: nat)
    requires i < |u| == |v| && u[i] != v[i]
    requires forall j | 0 <= j < |u| && j != i :: u[j] == v[j]
    ensures BothDiffer(Fold(s, u), Fold(s, v))
  {
    hide Mix;
    var n := |u| - 1;
    if i == n {
      assert u[..n] == v[..n];
    } else {
      FoldSeesOneWord(s, u[..n], v[..n], i);
    }
    MixBothDiffer(Fold(s, u[..n]), Fold(s, v[..n]), u[n], v[n]);
  }

  /** Rows that differ inside one 8-byte word and nowhere else. */
  ghost predicate DifferInOneWord(r: Bytes, r': Bytes, k: nat) {
    && |r| == |r'| && k < ChunkCount(r) && Chunk(r, k) != Chunk(r', k)
    && forall i | 0 <= i < |r| && !(8 * k <= i < 8 * k + 8) :: r[i] == r'[i]
  }

  /** Lists of words that differ at one place. */
  ghost predicate DifferAt(u: seq<bv64>, v: seq<bv64>, k: nat) {
    k < |u| == |v| && u[k] != v[k] && forall j | 0 <= j < |u| && j != k :: u[j] == v[j]
  }

  lemma WordsOfOneWordChange(r: Bytes, r': Bytes, k: nat)
    requires DifferInOneWord(r, r', k)
    ensures DifferAt(Words(r), Words(r'), k)
  {
    hide ChunkWord;
    if ChunkWord(Chunk(r, k)) == ChunkWord(Chunk(r', k)) {
      ChunkWordInjective(Chunk(r, k), Chunk(r', k));
    }
    forall j | 0 <= j < ChunkCount(r) && j != k
      ensures Chunk(r, j) == Chunk(r', j)
    {
    }
  }

  lemma {:induction false} FoldRowsSeesOneWord(s: Hashes, rows: seq<Bytes>, rows': seq<Bytes>, y: nat, k: nat)
    requires y < |rows| == |rows'| && DifferAt(Words(rows[y]), Words(rows'[y]), k)
    requires forall z | 0 <= z < |rows| && z != y :: rows[z] == rows'[z]
    ensures BothDiffer(FoldRows(s, rows), FoldRows(s, rows'))
  {
    hide Words, BothDiffer, Mix;
    var n := |rows| - 1;
    if y == n {
      assert rows[..n] == rows'[..n];
      FoldSeesOneWord(FoldRows(s, rows[..n]), Words(rows[y]), Words(rows'[y]), k);
    } else {
      FoldRowsSeesOneWord(s, rows[..n], rows'[..n], y, k);
      FoldKeepsApart(FoldRows(s, rows[..n]), FoldRows(s, rows'[..n]), Words(rows[n]));
    }
  }

  // ----- the hash -----

  function Saturated(n: nat): nat { if n <= USIZE_MAX then n else USIZE_MAX }

  function Height(f: Frame): nat { f.height as nat }

  function RowBytes(f: Frame): nat { f.width as nat * f.bytesPerPixel }

  /** The bytes of row `y` that take part: padding never does, and a short buffer ends early. */
  function VisibleRow(f: Frame, y: nat): Bytes {
    var start := Saturated(y * f.bytesPerRow);
    var whole := Saturated(start + Saturated(RowBytes(f)));
    var end := if whole <= |f.data| then whole else |f.data|;
    if start >= end then [] else f.data[start..end]
  }

  function VisibleRows(f: Frame, n: nat): seq<Bytes> { seq(n, y requires y >= 0 => VisibleRow(f, y)) }

  function High(width: bv64): bv64 { width << 32 }

  function Low(height: bv64): bv64 { height & 0xffff_ffff }

  function Geometry(width: bv64, height: bv64): bv64 { High(width) | Low(height) }

  const BASIS := Hashes(0xcbf2_9ce4_8422_2325, 0x9e37_79b9_7f4a_7c15)

  /** The pair the original returns. */
  function Hash(f: Frame): Hashes { Mix(FoldRows(BASIS, VisibleRows(f, Height(f))), Geometry(f.width, f.height)) }

  lemma FoldOneMore(s: Hashes, words: seq<bv64>, w: bv64)
    ensures Fold(s, words + [w]) == Mix(Fold(s, words), w)
    ensures Fold(s, []) == s
  {
    hide Mix;
    assert (words + [w])[..|words|] == words;
  }

  lemma RowsOneMore(s: Hashes, f: Frame, y: nat)
    ensures FoldRows(s, VisibleRows(f, y + 1)) == Fold(FoldRows(s, VisibleRows(f, y)), Words(VisibleRow(f, y)))
    ensures FoldRows(s, []) == s
  {
    hide Mix, VisibleRow;
    assert VisibleRows(f, y + 1)[..y] == VisibleRows(f, y);
  }

  method PixelHash(f: Frame) returns (h1: bv64, h2: bv64)
    ensures Hashes(h1, h2) == Hash(f)
  {
    hide Mix1, Mix2, ChunkWord, VisibleRow, Fold, FoldRows;
    h1, h2 := BASIS.h1, BASIS.h2;
    assert VisibleRows(f, 0) == [];
    RowsOneMore(BASIS, f, 0);
    var y := 0;
    while y < Height(f)
      invariant 0 <= y <= Height(f)
      invariant Hashes(h1, h2) == FoldRows(BASIS, VisibleRows(f, y))
    {
      var row := VisibleRow(f, y);
      ghost var before := Hashes(h1, h2);
      var k := 0;
      assert Words(row)[..0] == [];
      FoldOneMore(before, [], 0);
      while k < ChunkCount(row)
        invariant 0 <= k <= ChunkCount(row)
        invariant Hashes(h1, h2) == Fold(before, Words(row)[..k])
      {
        var word := ChunkWord(Chunk(row, k));
        assert Words(row)[..k + 1] == Words(row)[..k] + [word];
        FoldOneMore(before, Words(row)[..k], word);
        h1 := Mix1(h1, word);
        h2 := Mix2(h2, word);
        k := k + 1;
      }
      assert Words(row)[..k] == Words(row);
      RowsOneMore(BASIS, f, y);
      y := y + 1;
    }
    h1 := Mix1(h1, Geometry(f.width, f.height));
    h2 := Mix2(h2, Geometry(f.width, f.height));
  }

  // ----- what the hash is worth -----

  /** The hash is a function of the geometry and the visible rows, for any frame whatever. */
  lemma HashIgnoresPadding(a: Frame, b: Frame)
    requires a.width == b.width && a.height == b.height
    requires forall y | 0 <= y < Height(a) :: VisibleRow(a, y) == VisibleRow(b, y)
    ensures Hash(a) == Hash(b)
  {
    hide Mix, VisibleRow, Geometry;
    assert VisibleRows(a, Height(a)) == VisibleRows(b, Height(b));
  }

  lemma TimesMonotone(a: nat, b: nat, c: nat)
    requires a <= b
    ensures a * c <= b * c
  {
  }

  /** The buffer holds every visible byte, and rows do not overlap. */
  predicate WellFormed(f: Frame) {
    && |f.data| <= USIZE_MAX
    && RowBytes(f) <= f.bytesPerRow
    && (Height(f) > 0 ==> (Height(f) - 1) * f.bytesPerRow + RowBytes(f) <= |f.data|)
  }

  lemma RowFits(f: Frame, y: nat)
    requires WellFormed(f) && y < Height(f)
    ensures y * f.bytesPerRow + RowBytes(f) <= |f.data|
  {
    hide Height, RowBytes;
    TimesMonotone(y, Height(f) - 1, f.bytesPerRow);
  }

  /** The bytes of the pixels of row `y`. */
  function PixelBytes(f: Frame, y: nat): (row: Bytes)
    requires WellFormed(f) && y < Height(f)
    ensures |row| == RowBytes(f)
  {
    RowFits(f, y);
    f.data[y * f.bytesPerRow..y * f.bytesPerRow + RowBytes(f)]
  }

  lemma VisibleRowIsPixels(f: Frame, y: nat)
    requires WellFormed(f) && y < Height(f)
    ensures VisibleRow(f, y) == PixelBytes(f, y)
  {
    hide Height, RowBytes;
    RowFits(f, y);
  }

  /** Two well-formed frames with the same pixels hash alike, whatever their strides and padding. */
  lemma SamePixelsSameHash(a: Frame, b: Frame)
    requires WellFormed(a) && WellFormed(b)
    requires a.width == b.width && a.height == b.height
    requires forall y | 0 <= y < Height(a) :: PixelBytes(a, y) == PixelBytes(b, y)
    ensures Hash(a) == Hash(b)
  {
    hide Hash, VisibleRow, WellFormed, PixelBytes;
    forall y | 0 <= y < Height(a)
      ensures VisibleRow(a, y) == VisibleRow(b, y)
    {
      VisibleRowIsPixels(a, y);
      VisibleRowIsPixels(b, y);
    }
    HashIgnoresPadding(a, b);
  }

  /** Frames of one shape whose visible bytes differ inside one word of one row differ in both hashes. */
  lemma OneWordChangesBothHashes(a: Frame, b: Frame, y: nat, k: nat)
    requires a.width == b.width && a.height == b.height && y < Height(a)
    requires DifferInOneWord(VisibleRow(a, y), VisibleRow(b, y), k)
    requires forall z | 0 <= z < Height(a) && z != y :: VisibleRow(a, z) == VisibleRow(b, z)
    ensures BothDiffer(Hash(a), Hash(b))
  {
    WordsOfOneWordChange(VisibleRow(a, y), VisibleRow(b, y), k);
    hide VisibleRow, Words, DifferInOneWord, BothDiffer;
    OneWordSeen(a, b, y, k);
  }

  lemma OneWordSeen(a: Frame, b: Frame, y: nat, k: nat)
    requires a.width == b.width && a.height == b.height && y < Height(a)
    requires DifferAt(Words(VisibleRow(a, y)), Words(VisibleRow(b, y)), k)
    requires forall z | 0 <= z < Height(a) && z != y :: VisibleRow(a, z) == VisibleRow(b, z)
    ensures BothDiffer(Hash(a), Hash(b))
  {
    hide Mix, VisibleRow, Words, DifferAt, FoldRows, Geometry, BothDiffer;
    var rows, rows' := VisibleRows(a, Height(a)), VisibleRows(b, Height(b));
    FoldRowsSeesOneWord(BASIS, rows, rows', y, k);
    var g := Geometry(a.width, a.height);
    MixBothDiffer(FoldRows(BASIS, rows), FoldRows(BASIS, rows'), g, g);
  }

  /** One changed pixel, of a size that divides a word, changes both hashes. */
  lemma OnePixelChangesBothHashes(a: Frame, b: Frame, x: nat, y: nat)
    requires WellFormed(a) && WellFormed(b)
    requires a.width == b.width && a.height == b.height && a.bytesPerPixel == b.bytesPerPixel
    requires a.bytesPerPixel in {1, 2, 4, 8}
    requires x < a.width as nat && y < Height(a)
    requires forall z | 0 <= z < Height(a) && z != y :: PixelBytes(a, z) == PixelBytes(b, z)
    requires PixelBytes(a, y) != PixelBytes(b, y)
    requires forall i | 0 <= i < RowBytes(a) && !(x * a.bytesPerPixel <= i < (x + 1) * a.bytesPerPixel) ::
               PixelBytes(a, y)[i] == PixelBytes(b, y)[i]
    ensures BothDiffer(Hash(a), Hash(b))
  {
    SameRowBytes(a, b);
    hide *;
    forall z | 0 <= z < Height(a)
      ensures VisibleRow(a, z) == PixelBytes(a, z) && VisibleRow(b, z) == PixelBytes(b, z)
    {
      VisibleRowIsPixels(a, z);
      VisibleRowIsPixels(b, z);
    }
    PixelFits(a, x);
    OnePixelIsInOneWord(PixelBytes(a, y), PixelBytes(b, y), a.bytesPerPixel, x);
    OneWordChangesBothHashes(a, b, y, x * a.bytesPerPixel / 8);
  }

  lemma PixelFits(f: Frame, x: nat)
    requires x < f.width as nat
    ensures (x + 1) * f.bytesPerPixel <= RowBytes(f)
  {
    TimesMonotone(x + 1, f.width as nat, f.bytesPerPixel);
  }

  lemma SameRowBytes(a: Frame, b: Frame)
    requires a.width == b.width && a.height == b.height && a.bytesPerPixel == b.bytesPerPixel
    ensures RowBytes(a) == RowBytes(b) && Height(a) == Height(b)
  {
  }

  lemma OnePixelIsInOneWord(r: Bytes, r': Bytes, size: nat, x: nat)
    requires size in {1, 2, 4, 8} && |r| == |r'| && (x + 1) * size <= |r| && r != r'
    requires forall i | 0 <= i < |r| && !(x * size <= i < (x + 1) * size) :: r[i] == r'[i]
    ensures DifferInOneWord(r, r', x * size / 8)
  {
    WordHoldsPixel(size, x);
    InOneWord(r, r', x * size, (x + 1) * size, x * size / 8);
  }

  /** A pixel of a size that divides a word never straddles two. */
  lemma WordHoldsPixel(size: nat, x: nat)
    requires size in {1, 2, 4, 8}
    ensures var k := x * size / 8;
            8 * k <= x * size && (x + 1) * size <= 8 * k + 8
  {
    if size == 1 {
      assert x * size == x && (x + 1) * size == x + 1;
    } else if size == 2 {
      assert x * size == 2 * x && (x + 1) * size == 2 * x + 2;
    } else if size == 4 {
      assert x * size == 4 * x && (x + 1) * size == 4 * x + 4;
    } else {
      assert x * size == 8 * x && (x + 1) * size == 8 * x + 8;
    }
  }

  lemma InOneWord(r: Bytes, r': Bytes, from: nat, to: nat, k: nat)
    requires |r| == |r'| && from < to <= |r| && 8 * k <= from && to <= 8 * k + 8 && r != r'
    requires forall i | 0 <= i < |r| && !(from <= i < to) :: r[i] == r'[i]
    ensures DifferInOneWord(r, r', k)
  {
    if Chunk(r, k) == Chunk(r', k) {
      forall i | 0 <= i < |r|
        ensures r[i] == r'[i]
      {
        if 8 * k <= i < 8 * k + 8 {
          assert r[i] == Chunk(r, k)[i - 8 * k] && r'[i] == Chunk(r', k)[i - 8 * k];
        }
      }
      assert false;
    }
  }

  /** A whole chunk of the front of a row is a chunk of the row. */
  lemma ChunkOfFront(r: Bytes, t: Bytes, k: nat)
    requires 8 * k + 8 <= |r|
    ensures k < ChunkCount(r) <= ChunkCount(r + t) && Chunk(r + t, k) == Chunk(r, k)
  {
  }

  lemma ChunkOfBack(r: Bytes, n: nat, t: Bytes, k: nat)
    requires |r| == 8 * n && k < ChunkCount(t)
    ensures n + k < ChunkCount(r + t) && Chunk(r + t, n + k) == Chunk(t, k)
  {
  }

  lemma WordsJoin(r: Bytes, t: Bytes)
    requires |r| % 8 == 0
    ensures Words(r + t) == Words(r) + Words(t)
  {
    var n := |r| / 8;
    assert ChunkCount(r) == n && ChunkCount(r + t) == n + ChunkCount(t);
    hide ChunkWord, Chunk, ChunkCount;
    forall k | 0 <= k < n
      ensures k < ChunkCount(r + t) && Chunk(r + t, k) == Chunk(r, k)
    {
      ChunkOfFront(r, t, k);
    }
    forall k | 0 <= k < ChunkCount(t)
      ensures n + k < ChunkCount(r + t) && Chunk(r + t, n + k) == Chunk(t, k)
    {
      ChunkOfBack(r, n, t, k);
    }
    WordsAre(r, t, n);
  }

  lemma WordsAre(r: Bytes, t: Bytes, n: nat)
    requires ChunkCount(r) == n && ChunkCount(r + t) == n + ChunkCount(t)
    requires forall k | 0 <= k < n :: k < ChunkCount(r + t) && Chunk(r + t, k) == Chunk(r, k)
    requires forall k | 0 <= k < ChunkCount(t) :: n + k < ChunkCount(r + t) && Chunk(r + t, n + k) == Chunk(t, k)
    ensures Words(r + t) == Words(r) + Words(t)
  {
    hide ChunkWord, Chunk, ChunkCount;
    forall k | 0 <= k < n + ChunkCount(t)
      ensures Words(r + t)[k] == (Words(r) + Words(t))[k]
    {
      if k >= n {
        assert Chunk(r + t, n + (k - n)) == Chunk(t, k - n);
      }
    }
  }

  // ----- rows that end in zeros -----

  function Zeros(n: nat): Bytes { seq(n, i => 0) }

  lemma PaddedChunkDiffers(b: Bytes, n: nat)
    requires 0 < |b| && n > 0 && |b| + n <= 8
    ensures ChunkWord(b) != ChunkWord(b + Zeros(n))
  {
    var c := b + Zeros(n);
    hide ChunkWord;
    if |c| < 8 {
      LengthTakesPart(b, c);
    } else {
      ShortMeetsWholeIff(b, c);
    }
  }

  lemma LastChunkGrows(r: Bytes, n: nat)
    requires r != [] && ChunkCount(r + Zeros(n)) == ChunkCount(r)
    ensures var k := ChunkCount(r) - 1;
            && 8 * k < |r| && 0 < |Chunk(r, k)| && |Chunk(r, k)| + n <= 8
            && Chunk(r + Zeros(n), k) == Chunk(r, k) + Zeros(n)
  {
  }

  /** Zeros that stay within a row's last word change exactly that word. */
  lemma ZerosInLastWord(r: Bytes, n: nat)
    requires r != [] && n > 0 && ChunkCount(r + Zeros(n)) == ChunkCount(r)
    ensures DifferAt(Words(r), Words(r + Zeros(n)), ChunkCount(r) - 1)
  {
    var t, k := r + Zeros(n), ChunkCount(r) - 1;
    LastChunkGrows(r, n);
    hide ChunkWord, Chunk, ChunkCount, Zeros;
    PaddedChunkDiffers(Chunk(r, k), n);
    forall j | 0 <= j < k
      ensures Chunk(r, j) == Chunk(t, j)
    {
      ChunkOfFront(r, Zeros(n), j);
    }
  }

  /** A row is told apart from the same row with zeros behind it as long as they add no word. */
  lemma PaddedRowDiffers(a: Frame, b: Frame, y: nat, n: nat)
    requires a.width == b.width && a.height == b.height && y < Height(a)
    requires VisibleRow(a, y) != [] && VisibleRow(b, y) == VisibleRow(a, y) + Zeros(n) && n > 0
    requires ChunkCount(VisibleRow(b, y)) == ChunkCount(VisibleRow(a, y))
    requires forall z | 0 <= z < Height(a) && z != y :: VisibleRow(a, z) == VisibleRow(b, z)
    ensures BothDiffer(Hash(a), Hash(b))
  {
    hide VisibleRow, Words, DifferAt, BothDiffer;
    ZerosInLastWord(VisibleRow(a, y), n);
    OneWordSeen(a, b, y, ChunkCount(VisibleRow(a, y)) - 1);
  }

  function ZeroWords(m: nat): seq<bv64> { seq(m, i => 0) }

  lemma WordsOfZeros(m: nat)
    ensures Words(Zeros(8 * m)) == ZeroWords(m)
  {
    assert forall k | 0 <= k < m :: Chunk(Zeros(8 * m), k) == Zeros(8);
    WordOfZeros();
    hide ChunkWord;
  }

  lemma WordOfZeros()
    ensures ChunkWord(Zeros(8)) == 0
  {
  }

  /**
   * When they do add words: behind a row of whole words the zeros are seen exactly when their words move
   * the state the row has left.
   */
  lemma ZerosSeenIff(s: Hashes, r: Bytes, n: nat)
    requires |r| % 8 == 0
    ensures Fold(s, Words(r + Zeros(n))) == Fold(s, Words(r)) <==>
            Fold(Fold(s, Words(r)), Words(Zeros(n))) == Fold(s, Words(r))
  {
    hide Words, Fold;
    WordsJoin(r, Zeros(n));
    FoldJoin(s, Words(r), Words(Zeros(n)));
  }

  const AT_REST := Hashes(0, 0)

  /** They never move a state of two zeros. */
  lemma {:induction false} RestStays(m: nat)
    ensures Fold(AT_REST, ZeroWords(m)) == AT_REST
  {
    if m > 0 {
      RestStays(m - 1);
      assert ZeroWords(m)[..m - 1] == ZeroWords(m - 1);
      ZeroMovesNothing();
      hide Mix;
    }
  }

  lemma ZeroMovesNothing()
    ensures Mix(AT_REST, 0) == AT_REST
  {
  }

  /** A row of three words after which both states are zero. */
  const TO_REST: Bytes :=
    Zeros(8) + [0xf1, 0x6b, 0x12, 0xc9, 0x73, 0x4b, 0x66, 0x52] + [0x8d, 0x48, 0x9b, 0x8e, 0xe1, 0xae, 0x57, 0xff]

  lemma WordsToRest()
    ensures Words(TO_REST) == [0, 0x5266_4b73_c912_6bf1, 0xff57_aee1_8e9b_488d]
  {
    WordOfZeros();
    LittleEndian();
    var first, second, third := Zeros(8), TO_REST[8..16], TO_REST[16..];
    hide ChunkWord;
    assert Chunk(TO_REST, 0) == first && Chunk(TO_REST, 1) == second && Chunk(TO_REST, 2) == third;
  }

  lemma LittleEndian()
    ensures ChunkWord([0xf1, 0x6b, 0x12, 0xc9, 0x73, 0x4b, 0x66, 0x52]) == 0x5266_4b73_c912_6bf1
    ensures ChunkWord([0x8d, 0x48, 0x9b, 0x8e, 0xe1, 0xae, 0x57, 0xff]) == 0xff57_aee1_8e9b_488d
  {
  }

  lemma ThreeMixes()
    ensures Mix(Mix(Mix(BASIS, 0), 0x5266_4b73_c912_6bf1), 0xff57_aee1_8e9b_488d) == AT_REST
  {
    assert Mix(BASIS, 0) == Hashes(0xaf63_bd49_fd1c_5dbb, 0x1387_55b8_ee7c_aa38);
    assert Mix(Hashes(0xaf63_bd49_fd1c_5dbb, 0x1387_55b8_ee7c_aa38), 0x5266_4b73_c912_6bf1)
        == Hashes(0xff57_aee1_8e9b_488d, 0xff57_aee1_8e9b_488d);
    assert Mix(Hashes(0xff57_aee1_8e9b_488d, 0xff57_aee1_8e9b_488d), 0xff57_aee1_8e9b_488d) == AT_REST;
  }

  lemma FoldThree(s: Hashes, u: bv64, v: bv64, w: bv64)
    ensures Fold(s, [u, v, w]) == Mix(Mix(Mix(s, u), v), w)
  {
    hide Mix;
    FoldOneMore(s, [], u);
    FoldOneMore(s, [u], v);
    FoldOneMore(s, [u, v], w);
    assert [] + [u] == [u] && [u] + [v] == [u, v] && [u, v] + [w] == [u, v, w];
  }

  lemma RestReached()
    ensures |TO_REST| == 24 && Fold(BASIS, Words(TO_REST)) == AT_REST
  {
    WordsToRest();
    hide Words, Mix, Fold;
    FoldThree(BASIS, 0, 0x5266_4b73_c912_6bf1, 0xff57_aee1_8e9b_488d);
    ThreeMixes();
  }

  /**
   * The failing input: two frames of one shape whose buffers end early, the one eight zeros after the
   * other, hash alike.
   */
  lemma ZerosUnseen()
    ensures Hash(Frame(32, 1, 32, 1, TO_REST)) == Hash(Frame(32, 1, 32, 1, TO_REST + Zeros(8)))
    ensures VisibleRow(Frame(32, 1, 32, 1, TO_REST), 0) == TO_REST
    ensures VisibleRow(Frame(32, 1, 32, 1, TO_REST + Zeros(8)), 0) == TO_REST + Zeros(8)
  {
    var a, b := Frame(32, 1, 32, 1, TO_REST), Frame(32, 1, 32, 1, TO_REST + Zeros(8));
    assert VisibleRow(a, 0) == TO_REST && VisibleRow(b, 0) == TO_REST + Zeros(8);
    hide *;
    RestReached();
    RestStays(1);
    ZerosSeenIff(BASIS, TO_REST, 8);
    WordsOfZeros(1);
    OneRow(a);
    OneRow(b);
  }

  lemma OneRow(f: Frame)
    requires f.height == 1
    ensures Hash(f) == Mix(Fold(BASIS, Words(VisibleRow(f, 0))), Geometry(f.width, f.height))
  {
    hide Mix, VisibleRow, Words, Fold, Geometry;
    RowsOneMore(BASIS, f, 0);
    assert VisibleRows(f, 0) == [];
  }

  // ----- geometry -----

  /** The words of all rows, one after the other. */
  function AllWords(rows: seq<Bytes>): seq<bv64> {
    if rows == [] then [] else AllWords(rows[..|rows| - 1]) + Words(rows[|rows| - 1])
  }

  function Concat(rows: seq<Bytes>): Bytes { if rows == [] then [] else Concat(rows[..|rows| - 1]) + rows[|rows| - 1] }

  lemma {:induction false} FoldJoin(s: Hashes, u: seq<bv64>, v: seq<bv64>)
    ensures Fold(s, u + v) == Fold(Fold(s, u), v)
  {
    hide Mix;
    if v == [] {
      assert u + v == u;
    } else {
      FoldJoin(s, u, v[..|v| - 1]);
      assert (u + v)[..|u + v| - 1] == u + v[..|v| - 1];
    }
  }

  /** Where rows end makes no difference to the folds: only the words do, in order. */
  lemma {:induction false} FoldRowsIsFold(s: Hashes, rows: seq<Bytes>)
    ensures FoldRows(s, rows) == Fold(s, AllWords(rows))
  {
    hide Fold, Words;
    if rows == [] {
      FoldOneMore(s, [], 0);
    } else {
      FoldRowsIsFold(s, rows[..|rows| - 1]);
      FoldJoin(s, AllWords(rows[..|rows| - 1]), Words(rows[|rows| - 1]));
    }
  }

  /** Rows that are whole words are one run of bytes, wherever they are cut. */
  lemma {:induction false} WordsOfConcat(rows: seq<Bytes>)
    requires forall y | 0 <= y < |rows| :: |rows[y]| % 8 == 0
    ensures |Concat(rows)| % 8 == 0 && AllWords(rows) == Words(Concat(rows))
  {
    hide ChunkWord;
    if rows != [] {
      WordsOfConcat(rows[..|rows| - 1]);
      WordsJoin(Concat(rows[..|rows| - 1]), rows[|rows| - 1]);
    }
  }

  /**
   * Geometry takes part: frames whose rows fold alike, whatever their shapes, hash alike exactly when the
   * low 32 bits of the widths and of the heights agree; otherwise both hashes differ.
   */
  lemma GeometryTakesPart(a: Frame, b: Frame)
    requires FoldRows(BASIS, VisibleRows(a, Height(a))) == FoldRows(BASIS, VisibleRows(b, Height(b)))
    ensures Hash(a) == Hash(b) <==> High(a.width) == High(b.width) && Low(a.height) == Low(b.height)
    ensures Hash(a) != Hash(b) ==> BothDiffer(Hash(a), Hash(b))
  {
    hide Mix, VisibleRows, FoldRows, Geometry, Height, High, Low;
    GeometryHalves(a.width, a.height, b.width, b.height);
    var s := FoldRows(BASIS, VisibleRows(a, Height(a)));
    MixBothDiffer(s, s, Geometry(a.width, a.height), Geometry(b.width, b.height));
  }

  ghost predicate WholeWordRows(f: Frame) { forall y | 0 <= y < Height(f) :: |VisibleRow(f, y)| % 8 == 0 }

  /** The same bytes cut into other rows: told apart by their shape, and by nothing else. */
  lemma SameBytesOtherShape(a: Frame, b: Frame)
    requires WholeWordRows(a) && WholeWordRows(b)
    requires Concat(VisibleRows(a, Height(a))) == Concat(VisibleRows(b, Height(b)))
    ensures Hash(a) == Hash(b) <==> High(a.width) == High(b.width) && Low(a.height) == Low(b.height)
    ensures Hash(a) != Hash(b) ==> BothDiffer(Hash(a), Hash(b))
  {
    hide VisibleRow, Concat, AllWords, Words, FoldRows, Fold, Hash, High, Low, Height, Geometry, Mix;
    WordsOfConcat(VisibleRows(a, Height(a)));
    WordsOfConcat(VisibleRows(b, Height(b)));
    FoldRowsIsFold(BASIS, VisibleRows(a, Height(a)));
    FoldRowsIsFold(BASIS, VisibleRows(b, Height(b)));
    GeometryTakesPart(a, b);
  }

  /** All bytes of a well-formed frame's rows are `c`. */
  ghost predicate Uniform(f: Frame, c: bv8) { WellFormed(f) && forall i | 0 <= i < |f.data| :: f.data[i] == c }

  lemma {:induction false} ConcatUniform(rows: seq<Bytes>, length: nat, c: bv8)
    requires forall y | 0 <= y < |rows| :: |rows[y]| == length && forall i | 0 <= i < length :: rows[y][i] == c
    ensures |Concat(rows)| == |rows| * length && forall i | 0 <= i < |Concat(rows)| :: Concat(rows)[i] == c
  {
    if rows != [] {
      var n := |rows| - 1;
      ConcatUniform(rows[..n], length, c);
      assert (n + 1) * length == n * length + length;
    }
  }

  lemma UniformRows(f: Frame, c: bv8)
    requires Uniform(f, c)
    ensures |Concat(VisibleRows(f, Height(f)))| == Height(f) * RowBytes(f)
    ensures forall i | 0 <= i < |Concat(VisibleRows(f, Height(f)))| :: Concat(VisibleRows(f, Height(f)))[i] == c
    ensures forall y | 0 <= y < Height(f) :: |VisibleRow(f, y)| == RowBytes(f)
  {
    hide VisibleRow, Height, RowBytes, Concat;
    forall y | 0 <= y < Height(f)
      ensures |VisibleRow(f, y)| == RowBytes(f) && forall i | 0 <= i < RowBytes(f) :: VisibleRow(f, y)[i] == c
    {
      VisibleRowIsPixels(f, y);
      RowFits(f, y);
    }
    ConcatUniform(VisibleRows(f, Height(f)), RowBytes(f), c);
  }

  /** Frames of one colour and one size in bytes, but of other shapes below 2^32, differ in both hashes. */
  lemma UniformShapesDiffer(a: Frame, b: Frame, c: bv8)
    requires Uniform(a, c) && Uniform(b, c) && RowBytes(a) % 8 == 0 && RowBytes(b) % 8 == 0
    requires Height(a) * RowBytes(a) == Height(b) * RowBytes(b)
    requires a.width < 0x1_0000_0000 && a.height < 0x1_0000_0000 && b.width < 0x1_0000_0000 && b.height < 0x1_0000_0000
    requires a.width != b.width || a.height != b.height
    ensures BothDiffer(Hash(a), Hash(b))
  {
    hide VisibleRow, Concat, Hash, Height, RowBytes, High, Low;
    UniformRows(a, c);
    UniformRows(b, c);
    SameBytesOtherShape(a, b);
    SmallShapesKept(a.width, a.height, b.width, b.height);
  }

  /** Eight by four and four by eight pixels of the same bytes. */
  lemma EightByFourIsNotFourByEight()
    ensures var ones: Bytes := seq(128, i => 1);
            BothDiffer(Hash(Frame(8, 4, 32, 4, ones)), Hash(Frame(4, 8, 16, 4, ones)))
  {
    var ones: Bytes := seq(128, i => 1);
    UniformShapesDiffer(Frame(8, 4, 32, 4, ones), Frame(4, 8, 16, 4, ones), 1);
  }

  /** From 2^32 on shapes can meet: two frames without a byte, one of no width and one of 2^32. */
  lemma WideShapesMeet()
    ensures Hash(Frame(0, 1, 0, 0, [])) == Hash(Frame(0x1_0000_0000, 1, 0, 0, []))
  {
    var a, b := Frame(0, 1, 0, 0, []), Frame(0x1_0000_0000, 1, 0, 0, []);
    assert VisibleRow(a, 0) == [] && VisibleRow(b, 0) == [];
    assert VisibleRows(a, 1) == VisibleRows(b, 1);
    HighOfWide();
    hide FoldRows, Mix, VisibleRow, High, Low;
    GeometryTakesPart(a, b);
  }

  lemma HighOfWide()
    ensures High(0) == High(0x1_0000_0000)
  {
  }

  function Upper(g: bv64): bv64 { (g >> 32) << 32 }

  lemma HalvesApart(w: bv64, h: bv64)
    ensures ((((w << 32) | (h & 0xffff_ffff)) >> 32) << 32) == w << 32
    ensures ((w << 32) | (h & 0xffff_ffff)) & 0xffff_ffff == h & 0xffff_ffff
  {
  }

  lemma GeometryHalf(w: bv64, h: bv64)
    ensures Upper(Geometry(w, h)) == High(w) && Low(Geometry(w, h)) == Low(h)
  {
    calc {
      Upper(Geometry(w, h));
      Upper((w << 32) | (h & 0xffff_ffff));
      ((((w << 32) | (h & 0xffff_ffff)) >> 32) << 32);
      { HalvesApart(w, h); }
      w << 32;
    }
    calc {
      Low(Geometry(w, h));
      Low((w << 32) | (h & 0xffff_ffff));
      ((w << 32) | (h & 0xffff_ffff)) & 0xffff_ffff;
      { HalvesApart(w, h); }
      h & 0xffff_ffff;
    }
  }

  lemma GeometryHalves(w: bv64, h: bv64, w': bv64, h': bv64)
    ensures Geometry(w, h) == Geometry(w', h') <==> High(w) == High(w') && Low(h) == Low(h')
  {
    hide High, Low, Upper;
    GeometryHalf(w, h);
    GeometryHalf(w', h');
  }

  /** Below 2^32 the halves are the shape. */
  lemma SmallShapesKept(w: bv64, h: bv64, w': bv64, h': bv64)
    requires w < 0x1_0000_0000 && h < 0x1_0000_0000 && w' < 0x1_0000_0000 && h' < 0x1_0000_0000
    ensures High(w) == High(w') && Low(h) == Low(h') <==> w == w' && h == h'
  {
  }
}
